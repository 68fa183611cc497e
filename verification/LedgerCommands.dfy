/** What clients send to the ledger, how it is normalised, and the fingerprint of the result. */
module LedgerCommands {
  import opened Prelude
  import opened JsText
  import opened Order
  import opened Json
  import opened Money
  import opened LedgerTables

  /** A line as sent; None stands for a direction other than DEBIT and CREDIT. */
  datatype CommandLine = CommandLine(accountId: string, direction: Option<Direction>, amount: Amount)

  datatype Command = Command(key: string, currency: string, unit: Option<string>, reference: Option<string>,
    description: Option<string>, correlationId: Option<string>, metadata: Value, reversalOf: Option<string>,
    lines: seq<CommandLine>)

  datatype Entry = Entry(accountId: string, direction: Direction, amount: int)

  datatype Normalized = Normalized(key: string, currency: string, unit: string, reference: Option<string>,
    description: Option<string>, correlationId: Option<string>, metadata: Value, reversalOf: Option<string>,
    entries: seq<Entry>, total: int, requestHash: string)

  const DEFAULT_UNIT := "CUSTOMER_FUNDS"
  const METADATA_LIMIT := 32_768

  // ------------------------------------------------------------------------------------------- JSON.stringify

  /** `JSON.stringify`: members in their own order, `undefined` left out of objects and null in arrays. */
  function Stringify(v: Value): string {
    match v
    case Undefined => "null"
    case Null => "null"
    case Bool(flag) => if flag then "true" else "false"
    case Number(lexeme) => lexeme
    case Str(text) => Quote(text)
    case Arr(items) => "[" + Join(seq(|items|, i requires 0 <= i < |items| => Stringify(items[i]))) + "]"
    case Obj(members) => "{" + Join(StringifyMembers(members)) + "}"
  }

  function StringifyMembers(members: seq<Keyed<Value>>): seq<string> {
    if members == [] then []
    else if members[0].item.Undefined? then StringifyMembers(members[1..])
    else [Quote(members[0].key) + ":" + Stringify(members[0].item)] + StringifyMembers(members[1..])
  }

  function NormalizeMetadata(metadata: Value): Result<Value, Error> {
    match metadata
    case Undefined => Success(Obj([]))
    case Obj(_) => if Length(Stringify(metadata)) > METADATA_LIMIT then Failure(BadRequest) else Success(metadata)
    case _ => Failure(BadRequest)
  }

  // ------------------------------------------------------------------------------------------------ the entries

  function NormalizeLine(line: CommandLine): Result<Entry, Error> {
    if !IsUuid(line.accountId) || line.direction.None? then Failure(BadRequest)
    else
      var amount :- ParsePositiveMinorUnits(line.amount);
      Success(Entry(line.accountId, line.direction.value, amount))
  }

  function SideTotal(entries: seq<Entry>, side: Direction): int {
    if entries == [] then 0
    else
      var last := entries[|entries| - 1];
      SideTotal(entries[..|entries| - 1], side) + (if last.direction == side then last.amount else 0)
  }

  function EntriesOf(lines: seq<CommandLine>): Result<seq<Entry>, Error> {
    if lines == [] then Success([])
    else
      var front :- EntriesOf(lines[..|lines| - 1]);
      var last :- NormalizeLine(lines[|lines| - 1]);
      Success(front + [last])
  }

  /** The `map` over the lines with its two running totals. */
  method NormalizeLines(lines: seq<CommandLine>)
    returns (entries: Result<seq<Entry>, Error>, debitTotal: int, creditTotal: int)
    ensures entries == EntriesOf(lines)
    ensures entries.Success? ==>
      debitTotal == SideTotal(entries.value, Debit) && creditTotal == SideTotal(entries.value, Credit)
  {
    var done: seq<Entry> := [];
    debitTotal, creditTotal := 0, 0;
    for i := 0 to |lines|
      invariant EntriesOf(lines[..i]) == Success(done)
      invariant debitTotal == SideTotal(done, Debit) && creditTotal == SideTotal(done, Credit)
    {
      assert lines[..i + 1][..i] == lines[..i];
      var entry := NormalizeLine(lines[i]);
      if entry.Failure? {
        FailureSpreads(lines, i + 1);
        return Failure(entry.error), 0, 0;
      }
      if entry.value.direction == Debit {
        debitTotal := debitTotal + entry.value.amount;
      } else {
        creditTotal := creditTotal + entry.value.amount;
      }
      assert (done + [entry.value])[..|done|] == done;
      done := done + [entry.value];
    }
    assert lines[..|lines|] == lines;
    entries := Success(done);
  }

  lemma {:induction false} FailureSpreads(lines: seq<CommandLine>, k: nat)
    requires k <= |lines| && EntriesOf(lines[..k]).Failure?
    ensures EntriesOf(lines) == EntriesOf(lines[..k])
  {
    if k < |lines| {
      var front := lines[..|lines| - 1];
      assert front[..k] == lines[..k];
      FailureSpreads(front, k);
    } else {
      assert lines[..k] == lines;
    }
  }

  // -------------------------------------------------------------------------------------------- the fingerprint

  function OptionalValue(text: Option<string>): Value {
    if text.Some? then Str(text.value) else Null
  }

  function DirectionText(d: Direction): string {
    if d == Debit then "DEBIT" else "CREDIT"
  }

  function EntryValue(e: Entry): Value {
    Obj([Keyed("accountId", Str(e.accountId)),
         Keyed("direction", Str(DirectionText(e.direction))),
         Keyed("amountMinor", Str(AmountText(e.amount)))])
  }

  /** `BigInt.prototype.toString`. */
  function AmountText(n: int): string {
    if n >= 0 then ToDecimal(n) else "-" + ToDecimal(-n)
  }

  /** The text by which lines are sorted. */
  function SortText(e: Entry): string {
    Stringify(EntryValue(e))
  }

  function SortedEntries(entries: seq<Entry>): seq<Entry> {
    var sorted := Sort(FileBy(entries, SortText));
    seq(|sorted|, i requires 0 <= i < |sorted| => sorted[i].item)
  }

  function EntryValues(entries: seq<Entry>): seq<Value> {
    seq(|entries|, i requires 0 <= i < |entries| => EntryValue(entries[i]))
  }

  function RequestValue(currency: string, unit: string, reference: Option<string>, description: Option<string>,
    correlationId: Option<string>, metadata: Value, reversalOf: Option<string>, entries: seq<Entry>): Value
  {
    Obj([Keyed("currency", Str(currency)), Keyed("accountingUnit", Str(unit)),
         Keyed("reference", OptionalValue(reference)), Keyed("description", OptionalValue(description)),
         Keyed("correlationId", OptionalValue(correlationId)), Keyed("metadata", metadata),
         Keyed("reversalOfJournalId", OptionalValue(reversalOf)), Keyed("lines", Arr(EntryValues(SortedEntries(entries))))])
  }

  /** SHA-256 is taken to be injective: a digest is represented by the text it was computed from. */
  function RequestHash(currency: string, unit: string, reference: Option<string>, description: Option<string>,
    correlationId: Option<string>, metadata: Value, reversalOf: Option<string>, entries: seq<Entry>): string
  {
    Print(Ledger, RequestValue(currency, unit, reference, description, correlationId, metadata, reversalOf, entries))
  }

  // ---------------------------------------------------------------------------------------------- normalisation

  function Normalize(command: Command): Result<Normalized, Error> {
    var c :- NormalizeFields(command);
    Success(c.(requestHash := HashOf(c)))
  }

  function HashOf(c: Normalized): string {
    RequestHash(c.currency, c.unit, c.reference, c.description, c.correlationId, c.metadata, c.reversalOf, c.entries)
  }

  /** Everything but the hash. */
  function NormalizeFields(command: Command): Result<Normalized, Error> {
    var key := Trim(command.key);
    if key == "" || Length(key) > 255 || |command.lines| < 2 || |command.lines| > 100 then Failure(BadRequest)
    else
      var currency :- NormalizeCurrency(command.currency);
      var unit :- NormalizeAccountingUnit(if command.unit.Some? then command.unit.value else DEFAULT_UNIT);
      var entries :- EntriesOf(command.lines);
      var debitTotal, creditTotal := SideTotal(entries, Debit), SideTotal(entries, Credit);
      if debitTotal != creditTotal || debitTotal > MAX_BIGINT then Failure(BadRequest)
      else
        var reference :- OptionalText(command.reference);
        var description :- OptionalText(command.description);
        var correlationId :- OptionalText(command.correlationId);
        var metadata :- NormalizeMetadata(command.metadata);
        if command.reversalOf.Some? && !IsUuid(command.reversalOf.value) then Failure(BadRequest)
        else
          Success(Normalized(key, currency, unit, reference, description, correlationId, metadata, command.reversalOf,
            entries, debitTotal, ""))
  }

  /** The request hash is the hash of the command's own fields. */
  predicate Fingerprinted(c: Normalized) {
    c.requestHash == HashOf(c)
  }

  method NormalizeJournal(command: Command) returns (r: Result<Normalized, Error>)
    ensures r == Normalize(command)
  {
    var key := Trim(command.key);
    if key == "" || Length(key) > 255 {
      return Failure(BadRequest);
    }
    if |command.lines| < 2 || |command.lines| > 100 {
      return Failure(BadRequest);
    }
    var currency :- NormalizeCurrency(command.currency);
    var unit :- NormalizeAccountingUnit(if command.unit.Some? then command.unit.value else DEFAULT_UNIT);
    var parsed, debitTotal, creditTotal := NormalizeLines(command.lines);
    var entries :- parsed;
    if debitTotal != creditTotal {
      return Failure(BadRequest);
    }
    if debitTotal > MAX_BIGINT {
      return Failure(BadRequest);
    }
    var reference :- OptionalText(command.reference);
    var description :- OptionalText(command.description);
    var correlationId :- OptionalText(command.correlationId);
    var metadata :- NormalizeMetadata(command.metadata);
    if command.reversalOf.Some? && !IsUuid(command.reversalOf.value) {
      return Failure(BadRequest);
    }
    var c := Normalized(key, currency, unit, reference, description, correlationId, metadata, command.reversalOf,
      entries, debitTotal, "");
    return Success(c.(requestHash := HashOf(c)));
  }

  /** What every normalised command satisfies. */
  ghost predicate WellPosed(c: Normalized) {
    && 2 <= |c.entries| <= 100
    && (forall i | 0 <= i < |c.entries| :: c.entries[i].amount > 0)
    && SideTotal(c.entries, Debit) == SideTotal(c.entries, Credit) == c.total
    && 0 < c.total <= MAX_BIGINT
  }

  lemma {:induction false} EntriesFollowLines(lines: seq<CommandLine>)
    requires EntriesOf(lines).Success?
    ensures |EntriesOf(lines).value| == |lines|
    ensures forall i | 0 <= i < |lines| :: NormalizeLine(lines[i]) == Success(EntriesOf(lines).value[i])
    ensures forall i | 0 <= i < |lines| :: EntriesOf(lines).value[i].amount > 0
  {
    if lines != [] {
      EntriesFollowLines(lines[..|lines| - 1]);
      var amount := lines[|lines| - 1].amount;
      if amount.Integer? && amount.number >= 0 { FromToDecimal(amount.number); }
    }
  }

  lemma {:induction false} SomeSideIsPositive(entries: seq<Entry>)
    requires forall i | 0 <= i < |entries| :: entries[i].amount > 0
    ensures SideTotal(entries, Debit) >= 0 && SideTotal(entries, Credit) >= 0
    ensures entries != [] ==> SideTotal(entries, Debit) + SideTotal(entries, Credit) > 0
  {
    if entries != [] { SomeSideIsPositive(entries[..|entries| - 1]); }
  }

  /** What normalisation does to the fields, apart from the hash. */
  lemma FieldFacts(command: Command)
    requires NormalizeFields(command).Success?
    ensures var c := NormalizeFields(command).value;
      && c.key == Trim(command.key) && c.reversalOf == command.reversalOf && 2 <= |command.lines| <= 100
      && EntriesOf(command.lines) == Success(c.entries)
      && SideTotal(c.entries, Debit) == SideTotal(c.entries, Credit) == c.total <= MAX_BIGINT
      && NormalizeMetadata(command.metadata) == Success(c.metadata)
  {
  }

  lemma NormalizedFacts(command: Command)
    requires Normalize(command).Success?
    ensures var c := Normalize(command).value;
      && c.key == Trim(command.key) && c.reversalOf == command.reversalOf && 2 <= |command.lines| <= 100
      && EntriesOf(command.lines) == Success(c.entries)
      && SideTotal(c.entries, Debit) == SideTotal(c.entries, Credit) == c.total <= MAX_BIGINT
      && NormalizeMetadata(command.metadata) == Success(c.metadata)
  {
    FieldFacts(command);
    HashKeepsFields(NormalizeFields(command).value);
  }

  lemma HashKeepsFields(c: Normalized)
    ensures var h := c.(requestHash := HashOf(c));
      && h.key == c.key && h.reversalOf == c.reversalOf && h.entries == c.entries && h.total == c.total
      && h.metadata == c.metadata
  {
  }

  /** What passes the checks is balanced, fits, has 2 to 100 positive lines and a positive total. */
  lemma FieldsAreWellPosed(command: Command)
    requires NormalizeFields(command).Success?
    ensures WellPosed(NormalizeFields(command).value)
    ensures |NormalizeFields(command).value.entries| == |command.lines|
  {
    FieldFacts(command);
    EntriesFollowLines(command.lines);
    SomeSideIsPositive(EntriesOf(command.lines).value);
  }

  lemma NormalizedIsWellPosed(command: Command)
    requires Normalize(command).Success?
    ensures WellPosed(Normalize(command).value)
  {
    FieldsAreWellPosed(command);
    HashKeepsFields(NormalizeFields(command).value);
  }
}
