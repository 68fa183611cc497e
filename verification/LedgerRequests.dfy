/** What a client's journal request and account request turn into, field by field, and when they are accepted. */
module LedgerRequests {
  import opened Prelude
  import opened Utf16
  import opened JsText
  import opened Json
  import opened Money
  import opened LedgerTables
  import opened LedgerCommands
  import opened LedgerService

  /** A text of at most so many code units once the white space around it is gone. */
  ghost predicate IsKept(text: string, kept: string, least: int, most: int) {
    IsTrimmed(text, kept) && least <= |Units(kept)| <= most
  }

  /** An optional text: nothing when it is absent or blank. */
  ghost predicate IsOptional(text: Option<string>, kept: Option<string>) {
    match kept
    case Some(r) => text.Some? && IsKept(text.value, r, 1, 255)
    case None => text.None? || AllSpace(text.value)
  }

  lemma OptionalTextExactly(text: Option<string>, kept: Option<string>)
    ensures OptionalText(text) == Success(kept) <==> IsOptional(text, kept)
    ensures OptionalText(text).Failure? ==> OptionalText(text).error == BadRequest
  {
    if text.Some? {
      TrimExactly(text.value, Trim(text.value));
      LengthCountsUnits(Trim(text.value));
      BlankIsAllSpace(text.value);
      if kept.Some? { TrimExactly(text.value, kept.value); }
    }
  }

  lemma BlankIsAllSpace(s: string)
    ensures Trim(s) == "" <==> AllSpace(s)
  {
    TrimExactly(s, "");
    if AllSpace(s) { AllSpaceIsDropped(s); }
  }

  // ----------------------------------------------------------------------------------------------------- journals

  /** The line is for this account, on this side, and its amount stands for this number. */
  predicate IsLine(line: CommandLine, e: Entry) {
    && line.accountId == e.accountId && IsUuid(e.accountId) && line.direction == Some(e.direction)
    && Denotes(line.amount, e.amount) && 0 < e.amount <= MAX_BIGINT
  }

  lemma LineExactly(line: CommandLine, e: Entry)
    ensures NormalizeLine(line) == Success(e) <==> IsLine(line, e)
  {
    ParsesExactly(line.amount, e.amount);
  }

  lemma {:induction false} EntriesExactly(lines: seq<CommandLine>, entries: seq<Entry>)
    ensures EntriesOf(lines) == Success(entries) <==>
      |entries| == |lines| && forall i | 0 <= i < |lines| :: IsLine(lines[i], entries[i])
  {
    if lines != [] && entries != [] {
      var n, m := |lines| - 1, |entries| - 1;
      EntriesExactly(lines[..n], entries[..m]);
      LineExactly(lines[n], entries[m]);
      if EntriesOf(lines).Success? { SplitLast(EntriesOf(lines[..n]).value, NormalizeLine(lines[n]).value, entries); }
      SplitLast(entries[..m], entries[m], entries);
    }
  }

  lemma SplitLast<T>(front: seq<T>, last: T, s: seq<T>)
    requires s != []
    ensures front + [last] == s <==> front == s[..|s| - 1] && last == s[|s| - 1]
  {
    if front + [last] == s { assert (front + [last])[..|s| - 1] == front && (front + [last])[|s| - 1] == last; }
    assert s == s[..|s| - 1] + [s[|s| - 1]];
  }

  ghost predicate IsMetadata(sent: Value, kept: Value) {
    if sent.Undefined? then kept == Obj([])
    else sent.Obj? && kept == sent && |Units(Stringify(sent))| <= 32_768
  }

  lemma MetadataExactly(sent: Value, kept: Value)
    ensures NormalizeMetadata(sent) == Success(kept) <==> IsMetadata(sent, kept)
  {
    LengthCountsUnits(Stringify(sent));
  }

  ghost predicate IsUnit(sent: Option<string>, unit: string) {
    NormalizeAccountingUnit(if sent.Some? then sent.value else "CUSTOMER_FUNDS") == Success(unit)
  }

  /** The request asks for this journal: every field in its place, each line in its order, both sides equal. */
  ghost predicate AsksFor(command: Command, c: Normalized) {
    && IsKept(command.key, c.key, 1, 255) && 2 <= |command.lines| <= 100
    && NormalizeCurrency(command.currency) == Success(c.currency) && IsUnit(command.unit, c.unit)
    && |c.entries| == |command.lines| && (forall i | 0 <= i < |c.entries| :: IsLine(command.lines[i], c.entries[i]))
    && SideTotal(c.entries, Debit) == SideTotal(c.entries, Credit) == c.total <= MAX_BIGINT
    && IsOptional(command.reference, c.reference) && IsOptional(command.description, c.description)
    && IsOptional(command.correlationId, c.correlationId) && IsMetadata(command.metadata, c.metadata)
    && c.reversalOf == command.reversalOf && (c.reversalOf.Some? ==> IsUuid(c.reversalOf.value))
  }

  lemma KeyExactly(text: string, key: string)
    ensures Trim(text) == key && key != "" && Length(key) <= 255 <==> IsKept(text, key, 1, 255)
  {
    TrimExactly(text, key);
    LengthCountsUnits(key);
    if key != "" { UnitsOfChar(key[0]); }
  }

  /** The command's parts, each normalised. */
  ghost predicate HasParts(command: Command, c: Normalized) {
    && Trim(command.key) == c.key && c.key != "" && Length(c.key) <= 255 && 2 <= |command.lines| <= 100
    && NormalizeCurrency(command.currency) == Success(c.currency) && IsUnit(command.unit, c.unit)
    && EntriesOf(command.lines) == Success(c.entries)
    && SideTotal(c.entries, Debit) == SideTotal(c.entries, Credit) == c.total <= MAX_BIGINT
    && OptionalText(command.reference) == Success(c.reference)
    && OptionalText(command.description) == Success(c.description)
    && OptionalText(command.correlationId) == Success(c.correlationId)
    && NormalizeMetadata(command.metadata) == Success(c.metadata)
    && c.reversalOf == command.reversalOf && (c.reversalOf.Some? ==> IsUuid(c.reversalOf.value))
  }

  lemma AcceptedHasParts(command: Command)
    requires NormalizeFields(command).Success?
    ensures HasParts(command, NormalizeFields(command).value) && NormalizeFields(command).value.requestHash == ""
  {
  }

  lemma PartsAreAccepted(command: Command, c: Normalized)
    requires HasParts(command, c) && c.requestHash == ""
    ensures NormalizeFields(command) == Success(c)
  {
  }

  lemma FieldsExactly(command: Command, c: Normalized)
    requires c.requestHash == ""
    ensures NormalizeFields(command) == Success(c) <==> AsksFor(command, c)
  {
    if NormalizeFields(command).Success? { AcceptedHasParts(command); }
    if HasParts(command, c) { PartsAreAccepted(command, c); }
    PartsExactly(command, c);
  }

  lemma PartsExactly(command: Command, c: Normalized)
    ensures HasParts(command, c) <==> AsksFor(command, c)
  {
    KeyExactly(command.key, c.key);
    EntriesExactly(command.lines, c.entries);
    OptionalTextExactly(command.reference, c.reference);
    OptionalTextExactly(command.description, c.description);
    OptionalTextExactly(command.correlationId, c.correlationId);
    MetadataExactly(command.metadata, c.metadata);
  }

  lemma HashIsOfTheOthers(c: Normalized, hash: string)
    ensures HashOf(c.(requestHash := hash)) == HashOf(c)
  {
  }

  lemma FieldsHaveNoHash(command: Command)
    ensures NormalizeFields(command).Success? ==> NormalizeFields(command).value.requestHash == ""
  {
  }

  lemma OnlyTheHashIsAdded(command: Command, c: Normalized)
    ensures Normalize(command) == Success(c) <==>
      NormalizeFields(command) == Success(c.(requestHash := "")) && c.requestHash == HashOf(c)
  {
    FieldsHaveNoHash(command);
    HashIsOfTheOthers(c, "");
    var fields := NormalizeFields(command);
    if fields.Success? { HashIsOfTheOthers(fields.value, HashOf(fields.value)); }
  }

  /** A request is accepted as a journal command exactly when it asks for it; the hash is that of the command. */
  lemma NormalizedExactly(command: Command, c: Normalized)
    ensures Normalize(command) == Success(c) <==> AsksFor(command, c) && Fingerprinted(c)
  {
    OnlyTheHashIsAdded(command, c);
    FieldsExactly(command, c.(requestHash := ""));
  }

  // ----------------------------------------------------------------------------------------------------- accounts

  /** A new account is what was asked for; its normal side is debit exactly for assets and expenses. */
  ghost predicate Opens(command: AccountCommand, newId: string, a: Account) {
    && a.id == newId && IsTrimmed(command.code, a.code) && IsCode(a.code) && IsKept(command.name, a.name, 2, 160)
    && a.accountType == command.accountType && a.allowNegative == command.allowNegative && a.isActive
    && (a.normalBalance.Debit? <==> a.accountType.Asset? || a.accountType.Expense?)
    && (command.normalBalance.Some? ==> command.normalBalance.value == a.normalBalance)
    && NormalizeCurrency(command.currency) == Success(a.currency) && IsUnit(command.unit, a.unit)
  }

  lemma NameExactly(text: string, name: string)
    ensures Trim(text) == name && 2 <= Length(name) <= 160 <==> IsKept(text, name, 2, 160)
  {
    TrimExactly(text, name);
    LengthCountsUnits(name);
  }

  lemma AccountFields(command: AccountCommand, newId: string, a: Account)
    ensures NewAccount(command, newId) == Success(a) <==>
      && a.id == newId && a.accountType == command.accountType && a.allowNegative == command.allowNegative && a.isActive
      && a.normalBalance == NormalBalanceFor(a.accountType)
      && (command.normalBalance.Some? ==> command.normalBalance.value == a.normalBalance)
      && NormalizeCurrency(command.currency) == Success(a.currency) && IsUnit(command.unit, a.unit)
      && a.code == Trim(command.code) && IsCode(a.code) && a.name == Trim(command.name) && 2 <= Length(a.name) <= 160
  {
  }

  lemma AccountExactly(command: AccountCommand, newId: string, a: Account)
    ensures NewAccount(command, newId) == Success(a) <==> Opens(command, newId, a)
  {
    AccountFields(command, newId, a);
    TrimExactly(command.code, a.code);
    NameExactly(command.name, a.name);
  }

  /** And it is inserted exactly when its code and its id are not in use. */
  lemma OpenedExactly(t: Tables, command: AccountCommand, newId: string, a: Account)
    ensures CreateOutcome(t, command, newId) == Success(a) <==>
      Opens(command, newId, a) && forall b | b in t.accounts :: b.code != a.code && b.id != newId
    ensures CreateEffect(t, command, newId) ==
      if CreateOutcome(t, command, newId).Success?
      then Tables(t.accounts + [CreateOutcome(t, command, newId).value], t.journals, t.lines) else t
  {
    AccountExactly(command, newId, a);
  }
}
