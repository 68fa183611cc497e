/** How the completion of a pending deposit ends, decided on the rows of its wallet, its accounts and the ledger. */
module DepositOutcome {
  import opened Prelude
  import opened Utf16
  import opened JsText
  import opened Order
  import opened Json
  import opened Money
  import opened LedgerTables
  import opened LedgerCommands
  import opened LedgerPosting
  import opened LedgerInvariant
  import opened LedgerIdentity
  import opened Fingerprint
  import opened Reversal
  import opened LedgerRequests
  import opened LedgerOutcome
  import opened Deposit
  import opened DepositInvariant
  import opened DepositConservation
  import LedgerClients

  // ------------------------------------------------------------------------------------------- the conditions on rows

  /** The settlement account of the deposit's currency. */
  ghost predicate IsSettlement(t: Tables, d: Deposit, s: Account) {
    s in t.accounts && s.code == "PAYMENT-SETTLEMENT_ASSET-" + d.currency && s.currency == d.currency
    && s.unit == "CUSTOMER_FUNDS" && s.isActive
  }

  ghost predicate Fits(text: string, most: int) {
    |Units(Trim(text))| <= most
  }

  /** What the completion journal is about. */
  function About(d: Deposit): Value {
    Obj([Keyed("depositId", Str(d.id)), Keyed("paymentReference", Str(d.paymentReference)),
         Keyed("walletId", Str(d.walletId))])
  }

  function Describes(d: Deposit): string {
    if d.narration.Some? then d.narration.value else "Deposit " + d.paymentReference
  }

  /** The ids are UUIDs and no text is longer than the ledger takes. */
  ghost predicate Sendable(d: Deposit, settlement: string, account: string) {
    && IsUuid(settlement) && IsUuid(account) && d.amount <= MAX_BIGINT
    && Fits("deposit:" + d.id + ":completion", 255) && Fits("deposit:" + d.id, 255)
    && Fits(d.paymentReference, 255) && Fits(Describes(d), 255) && |Units(Stringify(About(d)))| <= 32_768
  }

  ghost predicate AccountIsActive(t: Tables, id: string) {
    exists a :: a in t.accounts && a.id == id && a.isActive
  }

  /** Debiting the settlement account does not overdraw it. */
  ghost predicate CanBeDebited(t: Tables, s: Account, amount: int) {
    s.allowNegative || s.normalBalance.Debit? || Balance(t.lines, s) >= amount
  }

  /** The post is one the ledger would write. */
  ghost predicate Postable(t: Tables, d: Deposit, account: string) {
    exists s :: IsSettlement(t, d, s) && PostableFrom(t, d, s, account)
  }

  ghost predicate PostableFrom(t: Tables, d: Deposit, s: Account, account: string) {
    Sendable(d, s.id, account) && AccountIsActive(t, account) && CanBeDebited(t, s, d.amount)
  }

  // --------------------------------------------------------------------------------------------- the command is taken

  lemma SettlementIsFound(t: Tables, d: Deposit)
    requires Consistent(t) && IsCurrency(d.currency)
    ensures forall s :: IsSettlement(t, d, s) ==> SettlementAccount(t.accounts, d.currency) == Success(s.id)
    ensures (forall s :: !IsSettlement(t, d, s)) ==> SettlementAccount(t.accounts, d.currency) == Failure(Conflict)
    ensures forall s :: IsSettlement(t, d, s) ==> FindSettlement(t.accounts, d.currency) == Some(s)
  {
    NormalizeCurrencyFixes(d.currency);
    var found := FindSettlement(t.accounts, d.currency);
    if found.Some? { assert IsSettlement(t, d, found.value); }
    forall s | IsSettlement(t, d, s) ensures found == Some(s) {
      var i :| 0 <= i < |t.accounts| && t.accounts[i] == s;
      assert Settles(t.accounts[i], d.currency);
      var k :| 0 <= k < |t.accounts| && t.accounts[k] == found.value;
      assert t.accounts[k].code == t.accounts[i].code;
    }
  }

  /** When a command is accepted, part by part. */
  lemma AcceptedParts(command: Command)
    ensures Normalize(command).Success? <==>
      && Trim(command.key) != "" && Length(Trim(command.key)) <= 255 && 2 <= |command.lines| <= 100
      && NormalizeCurrency(command.currency).Success?
      && NormalizeAccountingUnit(if command.unit.Some? then command.unit.value else DEFAULT_UNIT).Success?
      && EntriesOf(command.lines).Success?
      && SideTotal(EntriesOf(command.lines).value, Debit) == SideTotal(EntriesOf(command.lines).value, Credit) <= MAX_BIGINT
      && OptionalText(command.reference).Success? && OptionalText(command.description).Success?
      && OptionalText(command.correlationId).Success? && NormalizeMetadata(command.metadata).Success?
      && (command.reversalOf.Some? ==> IsUuid(command.reversalOf.value))
    ensures Normalize(command).Failure? ==> Normalize(command).error == BadRequest
  {
    PartsFail(command);
  }

  lemma PartsFail(command: Command)
    ensures EntriesOf(command.lines).Failure? ==> EntriesOf(command.lines).error == BadRequest
  {
    LinesFail(command.lines);
  }

  lemma {:induction false} LinesFail(lines: seq<CommandLine>)
    ensures EntriesOf(lines).Failure? ==> EntriesOf(lines).error == BadRequest
  {
    if lines != [] {
      LinesFail(lines[..|lines| - 1]);
      ParsesExactly(lines[|lines| - 1].amount, 0);
    }
  }

  lemma TextFits(text: string)
    ensures OptionalText(Some(text)).Success? <==> Fits(text, 255)
  {
    LengthCountsUnits(Trim(text));
  }

  lemma OneLine(account: string, side: Direction, n: int)
    ensures NormalizeLine(CommandLine(account, Some(side), Decimal(AmountText(n)))) ==
      if IsUuid(account) && 0 < n <= MAX_BIGINT then Success(Entry(account, side, n)) else Failure(BadRequest)
  {
    AmountTextParses(n);
  }

  lemma TwoEntries(a: CommandLine, b: CommandLine)
    ensures EntriesOf([a, b]).Success? <==> NormalizeLine(a).Success? && NormalizeLine(b).Success?
    ensures EntriesOf([a, b]).Success? ==> EntriesOf([a, b]).value == [NormalizeLine(a).value, NormalizeLine(b).value]
  {
    OneEntry(a);
    assert [a, b][..1] == [a];
    assert EntriesOf([a]).Failure? ==> EntriesOf([a, b]).Failure?;
  }

  lemma OneEntry(a: CommandLine)
    ensures EntriesOf([a]).Success? <==> NormalizeLine(a).Success?
    ensures EntriesOf([a]).Success? ==> EntriesOf([a]).value == [NormalizeLine(a).value]
  {
    assert [a][..0] == [];
    assert EntriesOf([]) == Success([]);
  }

  lemma TwoLines(d: Deposit, w: Wallet, settlement: string)
    requires d.amount > 0
    ensures var lines := CompletionCommand(d, w, settlement).lines;
      && (EntriesOf(lines).Success? <==> IsUuid(settlement) && IsUuid(w.ledgerAccountId) && d.amount <= MAX_BIGINT)
      && (EntriesOf(lines).Success? ==>
            SideTotal(EntriesOf(lines).value, Debit) == SideTotal(EntriesOf(lines).value, Credit) == d.amount)
  {
    var lines := CompletionCommand(d, w, settlement).lines;
    OneLine(settlement, Debit, d.amount);
    OneLine(w.ledgerAccountId, Credit, d.amount);
    TwoEntries(lines[0], lines[1]);
    TwoSides(Entry(settlement, Debit, d.amount), Entry(w.ledgerAccountId, Credit, d.amount));
  }

  lemma TwoSides(first: Entry, second: Entry)
    requires first.direction.Debit? && second.direction.Credit?
    ensures SideTotal([first, second], Debit) == first.amount && SideTotal([first, second], Credit) == second.amount
  {
    assert [first, second][..1] == [first] && [first][..0] == [];
    assert SideTotal([], Debit) == SideTotal([], Credit) == 0;
    assert SideTotal([first], Debit) == first.amount && SideTotal([first], Credit) == 0;
  }

  lemma CommandIsTaken(d: Deposit, w: Wallet, settlement: string)
    requires d.amount > 0 && IsCurrency(d.currency)
    ensures Normalize(CompletionCommand(d, w, settlement)).Success? <==> Sendable(d, settlement, w.ledgerAccountId)
    ensures Normalize(CompletionCommand(d, w, settlement)).Failure? ==>
      Normalize(CompletionCommand(d, w, settlement)).error == BadRequest
  {
    var command := CompletionCommand(d, w, settlement);
    AcceptedParts(command);
    CompletionKeyFacts(d.id);
    LengthCountsUnits(CompletionKey(d.id));
    NormalizeCurrencyFixes(d.currency);
    DefaultUnitIsOne();
    TwoLines(d, w, settlement);
    TextFits(d.paymentReference);
    TextFits(Describes(d));
    TextFits("deposit:" + d.id);
    LengthCountsUnits(Stringify(About(d)));
  }

  lemma UnitIsPlain()
    ensures forall c | c in DEFAULT_UNIT :: IsUpperLetter(c) || c == '_'
    ensures |DEFAULT_UNIT| == 14 && DEFAULT_UNIT[0] == 'C' && DEFAULT_UNIT[13] == 'S'
  {
  }

  lemma DefaultUnitIsOne()
    ensures NormalizeAccountingUnit(DEFAULT_UNIT) == Success(DEFAULT_UNIT)
  {
    UnitIsPlain();
    PlainIsUnit(DEFAULT_UNIT);
  }

  lemma PlainIsUnit(unit: string)
    requires 2 <= |unit| <= 64 && IsUpperLetter(unit[0]) && !IsSpace(unit[|unit| - 1])
    requires forall c | c in unit :: IsUpperLetter(c) || c == '_'
    ensures NormalizeAccountingUnit(unit) == Success(unit)
  {
    assert Trim(unit) == unit;
    UpperStays(unit);
    assert forall c | c in unit[1..] :: c in unit;
  }

  // ------------------------------------------------------------------------------------------- the post is written

  lemma {:induction false} EffectOfLines(c: Normalized, id: string, normal: Direction)
    ensures Sum(LinesFor(c, ""), OnAccount(id, normal)) == EntryEffect(c.entries, id, normal)
    decreases |c.entries|
  {
    if c.entries != [] {
      LinesShorter(c, "");
      EffectOfLines(Shorter(c), id, normal);
    }
  }

  /** A written journal moves every balance by the effect of its entries. */
  lemma BalanceAfterWrite(t: Tables, c: Normalized, newId: string, a: Account)
    ensures Balance(WriteJournal(t, c, newId).lines, a) ==
      Balance(t.lines, a) + EntryEffect(c.entries, a.id, a.normalBalance)
  {
    ProjectionIsRecomputedBalance(t, c, newId, a);
    EffectOfLines(c, a.id, a.normalBalance);
  }

  /** The command of a completion: debit settlement, credit the wallet's account, in the book of both. */
  ghost predicate IsCompletionOf(t: Tables, d: Deposit, s: Account, a: Account, c: Normalized) {
    && IsSettlement(t, d, s) && a in t.accounts && s.id != a.id && a.normalBalance.Credit?
    && a.currency == d.currency == c.currency && a.unit == "CUSTOMER_FUNDS" == c.unit
    && c.entries == CompletionEntries(d, s.id, a.id) && c.reversalOf.None? && d.amount > 0
  }

  lemma CoveredIsDebitable(t: Tables, d: Deposit, s: Account, a: Account, c: Normalized, newId: string)
    requires Consistent(t) && IsCompletionOf(t, d, s, a, c)
    ensures Covered(t, c, newId) <==> CanBeDebited(t, s, d.amount)
  {
    forall x | x in t.accounts
      ensures Balance(WriteJournal(t, c, newId).lines, x) == Balance(t.lines, x)
        + (if x.id == s.id then SignedAmount(Debit, x.normalBalance, d.amount) else 0)
        + (if x.id == a.id then SignedAmount(Credit, x.normalBalance, d.amount) else 0)
      ensures x.id == s.id ==> x == s
      ensures x.id == a.id ==> x == a
    {
      BalanceAfterWrite(t, c, newId, x);
      CompletionEffect(d, s.id, a.id, x.id, x.normalBalance);
      AccountIsFound(t.accounts, x);
      AccountIsFound(t.accounts, s);
      AccountIsFound(t.accounts, a);
    }
  }

  lemma OpenIsActive(t: Tables, d: Deposit, s: Account, a: Account, c: Normalized)
    requires Consistent(t) && IsCompletionOf(t, d, s, a, c)
    ensures Open(t, c, s.id) && (Open(t, c, a.id) <==> AccountIsActive(t, a.id)) && !Missing(t, a.id)
    ensures (forall e | e in c.entries :: Open(t, c, e.accountId)) <==> AccountIsActive(t, a.id)
  {
    assert s in t.accounts && s.id == s.id && s.isActive;
    forall x | x in t.accounts && x.id == a.id ensures x == a {
      AccountIsFound(t.accounts, x);
      AccountIsFound(t.accounts, a);
    }
    if AccountIsActive(t, a.id) { assert a in t.accounts && a.isActive; }
    assert c.entries[0] in c.entries && c.entries[1] in c.entries;
  }

  /** How the ledger takes the completion's command under its new key. */
  lemma CompletionPosts(t: Tables, d: Deposit, s: Account, a: Account, c: Normalized, newId: string)
    requires Consistent(t) && IsCompletionOf(t, d, s, a, c) && FindKey(t.journals, c.key).None?
    ensures PostOutcome(t, c, newId) ==
      if !AccountIsActive(t, a.id) then Rejected(Conflict)
      else if !CanBeDebited(t, s, d.amount) then Rejected(Unprocessable)
      else if FindJournal(t.journals, newId).Some? then Violation(PrimaryKey)
      else Written(newId)
  {
    OpenIsActive(t, d, s, a, c);
    CoveredIsDebitable(t, d, s, a, c, newId);
    NewKeyPosts(t, c, newId);
    forall id | FirstClosed(t, c, id) ensures id == a.id {
      var e :| e in c.entries && e.accountId == id;
    }
  }

  /** Any plain command under a new key. */
  lemma NewKeyPosts(t: Tables, c: Normalized, newId: string)
    requires Consistent(t) && FindKey(t.journals, c.key).None? && c.reversalOf.None?
    ensures if exists e :: e in c.entries && !Open(t, c, e.accountId) then
        exists id :: FirstClosed(t, c, id)
          && PostOutcome(t, c, newId) == Rejected(if Missing(t, id) then NotFound else Conflict)
      else if !Covered(t, c, newId) then PostOutcome(t, c, newId) == Rejected(Unprocessable)
      else if FindJournal(t.journals, newId).Some? then PostOutcome(t, c, newId) == Violation(PrimaryKey)
      else PostOutcome(t, c, newId) == Written(newId)
  {
    AccountChecks(t, c);
    forall e | e in c.entries { ProblemIsNotOpen(t, c, e.accountId); }
    OverdraftIsUncovered(t, c, newId);
    if AccountProblems(t.accounts, LockOrder(c.entries), c.currency, c.unit).Some? {
      var id := RefusedAccountIsFirst(t, c);
    }
  }

  lemma CommandInBook(d: Deposit, w: Wallet, settlement: string, c: Normalized)
    requires Normalize(CompletionCommand(d, w, settlement)) == Success(c) && IsCurrency(d.currency)
    ensures c.currency == d.currency && c.unit == "CUSTOMER_FUNDS"
  {
    NormalizedExactly(CompletionCommand(d, w, settlement), c);
    NormalizeCurrencyFixes(d.currency);
    DefaultUnitIsOne();
  }

  /** The post inside a completion, decided on rows. */
  lemma PostDecided(b: Bank, d: Deposit, newId: string)
    requires BankInv(b) && d in b.deposits && d.status.Pending? && d.walletId in b.wallets
    requires b.wallets[d.walletId].currency == d.currency
    ensures var w := b.wallets[d.walletId];
      var posted := PostedOf(b.t, CompletionPost(b.t.accounts, d, w), newId);
      && ((forall s :: !IsSettlement(b.t, d, s)) ==> posted == Caught(Conflict))
      && forall s | IsSettlement(b.t, d, s) ::
           posted == if !Sendable(d, s.id, w.ledgerAccountId) then Caught(BadRequest)
                     else if !AccountIsActive(b.t, w.ledgerAccountId) then Caught(Conflict)
                     else if !CanBeDebited(b.t, s, d.amount) then Caught(Unprocessable)
                     else if FindJournal(b.t.journals, newId).Some? then Raised(PrimaryKey)
                     else Journaled(newId)
  {
    var w := b.wallets[d.walletId];
    assert DepositInPlace(b.t, b.wallets, d);
    SettlementIsFound(b.t, d);
    forall s | IsSettlement(b.t, d, s)
      ensures CompletionPost(b.t.accounts, d, w) == Normalize(CompletionCommand(d, w, s.id))
    {
    }
    if s :| IsSettlement(b.t, d, s) {
      CommandIsTaken(d, w, s.id);
      if Sendable(d, s.id, w.ledgerAccountId) { SentIsDecided(b, d, s, newId); }
    }
  }

  lemma SentIsDecided(b: Bank, d: Deposit, s: Account, newId: string)
    requires BankInv(b) && d in b.deposits && d.status.Pending? && d.walletId in b.wallets
    requires b.wallets[d.walletId].currency == d.currency && IsSettlement(b.t, d, s)
    requires CompletionPost(b.t.accounts, d, b.wallets[d.walletId]).Success?
    ensures var w := b.wallets[d.walletId];
      PostedOf(b.t, CompletionPost(b.t.accounts, d, w), newId) ==
        if !AccountIsActive(b.t, w.ledgerAccountId) then Caught(Conflict)
        else if !CanBeDebited(b.t, s, d.amount) then Caught(Unprocessable)
        else if FindJournal(b.t.journals, newId).Some? then Raised(PrimaryKey)
        else Journaled(newId)
  {
    var a := SentIsCompletion(b, d, s);
    CompletionPosts(b.t, d, s, a, CompletionPost(b.t.accounts, d, b.wallets[d.walletId]).value, newId);
  }

  lemma SentIsCompletion(b: Bank, d: Deposit, s: Account) returns (a: Account)
    requires BankInv(b) && d in b.deposits && d.status.Pending? && d.walletId in b.wallets
    requires b.wallets[d.walletId].currency == d.currency && IsSettlement(b.t, d, s)
    requires CompletionPost(b.t.accounts, d, b.wallets[d.walletId]).Success?
    ensures var c := CompletionPost(b.t.accounts, d, b.wallets[d.walletId]).value;
      IsCompletionOf(b.t, d, s, a, c) && FindKey(b.t.journals, c.key).None?
    ensures a.id == b.wallets[d.walletId].ledgerAccountId
  {
    var w := b.wallets[d.walletId];
    assert DepositInPlace(b.t, b.wallets, d) && WalletInPlace(b.t, d.walletId, w);
    SettlementIsFound(b.t, d);
    CompletionFacts(b.t.accounts, d, w);
    CommandInBook(d, w, s.id, CompletionPost(b.t.accounts, d, w).value);
    a := FindAccount(b.t.accounts, w.ledgerAccountId).value;
    AccountIsFound(b.t.accounts, s);
    assert s.code[0] == 'P' && a.code[0] == 'W';
  }

  // ------------------------------------------------------------------------------------------------- the completion

  ghost predicate IsFailure(d: Deposit, e: Deposit, code: FailureCode, status: int) {
    && e.status.Failed? && e.failureCode == Some(code) && e.failureStatus == Some(status) && e.note.Some?
    && e.journalId.None? && e.completedAt.None? && AsksSame(d, e)
  }

  ghost predicate NewJournalId(t: Tables, id: string) {
    forall j | j in t.journals :: j.id != id
  }

  /** What the checks find, one after the other: the code and status of the failure, if there is one. */
  ghost predicate FailsWith(b: Bank, d: Deposit, code: FailureCode, status: int) {
    if d.walletId !in b.wallets then code == WalletNotFound && status == 404
    else
      var w := b.wallets[d.walletId];
      if !w.status.Active? then code == WalletNotActive && status == 409
      else if w.currency != d.currency then code == CurrencyMismatch && status == 409
      else
        code == SettlementRejected &&
        if forall s :: !IsSettlement(b.t, d, s) then status == 409
        else exists s :: IsSettlement(b.t, d, s) && RejectedWith(b.t, d, s, w.ledgerAccountId, status)
  }

  ghost predicate RejectedWith(t: Tables, d: Deposit, s: Account, account: string, status: int) {
    if !Sendable(d, s.id, account) then status == 400
    else if !AccountIsActive(t, account) then status == 409
    else !CanBeDebited(t, s, d.amount) && status == 422
  }

  /** Everything a completion needs. */
  ghost predicate Completable(b: Bank, d: Deposit) {
    && d.walletId in b.wallets && b.wallets[d.walletId].status.Active? && b.wallets[d.walletId].currency == d.currency
    && Postable(b.t, d, b.wallets[d.walletId].ledgerAccountId)
  }

  lemma ExistsIsFresh(t: Tables, id: string)
    ensures FindJournal(t.journals, id).None? <==> NewJournalId(t, id)
  {
    if FindJournal(t.journals, id).None? {
      forall j | j in t.journals ensures j.id != id {
        var i :| 0 <= i < |t.journals| && t.journals[i] == j;
      }
    }
  }

  /** The deposit fails as the rows say, and the ledger is left alone. */
  ghost predicate Fails(b: Bank, d: Deposit, after: Bank, e: Deposit) {
    after.t == b.t && exists code, status :: FailsWith(b, d, code, status) && IsFailure(d, e, code, status)
  }

  ghost predicate EndsByRows(b: Bank, d: Deposit, newId: string, now: int, after: Bank, e: Deposit, answer: Answer) {
    if !Completable(b, d) then answer == Id(d.id) && Fails(b, d, after, e)
    else if !NewJournalId(b.t, newId) then after == b && answer == Broken(PrimaryKey)
    else answer == Id(d.id) && e == d.(status := Completed, journalId := Some(newId), completedAt := Some(now))
  }

  /**
   How completing a pending deposit ends, decided on rows.  It completes if and only if its wallet exists, is active
   and has its currency, the settlement account exists, both accounts pass the post, and the drawn id is new; only a
   taken id is an error that changes nothing; otherwise the deposit fails with the code of the first check that fails.
   */
  lemma CompletesExactly(b: Bank, k: nat, newId: string, now: int)
    requires BankInv(b) && k < |b.deposits| && b.deposits[k].status.Pending?
    ensures var (after, answer) := Settle(b, k, newId, now);
      && EndsByRows(b, b.deposits[k], newId, now, after, after.deposits[k], answer)
      && (after.deposits[k].status.Completed? <==> Completable(b, b.deposits[k]) && NewJournalId(b.t, newId))
  {
    var d := b.deposits[k];
    ExistsIsFresh(b.t, newId);
    if d.walletId in b.wallets && b.wallets[d.walletId].status.Active? && b.wallets[d.walletId].currency == d.currency {
      PostDecided(b, d, newId);
      var posted := PostedOf(b.t, CompletionPost(b.t.accounts, d, b.wallets[d.walletId]), newId);
      SettleByPosted(b, k, newId, now, posted);
      PostedEnds(b, d, newId, now, posted, Settle(b, k, newId, now).0, Settle(b, k, newId, now).0.deposits[k],
        Settle(b, k, newId, now).1);
    } else {
      NoUsableWallet(b, k, newId, now);
    }
  }

  lemma OneSettlement(t: Tables, d: Deposit, s: Account)
    requires Consistent(t) && IsSettlement(t, d, s)
    ensures forall r | IsSettlement(t, d, r) :: r == s
  {
    var i :| 0 <= i < |t.accounts| && t.accounts[i] == s;
    forall r | IsSettlement(t, d, r) ensures r == s {
      var j :| 0 <= j < |t.accounts| && t.accounts[j] == r;
    }
  }

  lemma NoUsableWallet(b: Bank, k: nat, newId: string, now: int)
    requires k < |b.deposits| && b.deposits[k].status.Pending?
    requires var d := b.deposits[k];
      d.walletId in b.wallets ==> !b.wallets[d.walletId].status.Active? || b.wallets[d.walletId].currency != d.currency
    ensures var (after, answer) := Settle(b, k, newId, now);
      && answer == Id(b.deposits[k].id) && Fails(b, b.deposits[k], after, after.deposits[k])
      && !after.deposits[k].status.Completed?
  {
    var d, e := b.deposits[k], Settle(b, k, newId, now).0.deposits[k];
    if d.walletId !in b.wallets {
      assert FailsWith(b, d, WalletNotFound, 404) && IsFailure(d, e, WalletNotFound, 404);
    } else if !b.wallets[d.walletId].status.Active? {
      assert FailsWith(b, d, WalletNotActive, 409) && IsFailure(d, e, WalletNotActive, 409);
    } else {
      assert FailsWith(b, d, CurrencyMismatch, 409) && IsFailure(d, e, CurrencyMismatch, 409);
    }
  }

  /** The end of a completion whose wallet is usable, by how its post ends. */
  ghost predicate EndsByPost(b: Bank, d: Deposit, now: int, posted: Posted, after: Bank, e: Deposit, answer: Answer) {
    match posted
    case Raised(constraint) => after == b && answer == Broken(constraint)
    case Caught(error) => answer == Id(d.id) && after.t == b.t && e == MarkFailed(d, FailureOf(error))
    case Journaled(id) => answer == Id(d.id) && e == MarkCompleted(d, id, now)
  }

  lemma SettleByPosted(b: Bank, k: nat, newId: string, now: int, posted: Posted)
    requires k < |b.deposits| && b.deposits[k].walletId in b.wallets
    requires var d, w := b.deposits[k], b.wallets[b.deposits[k].walletId];
      w.status.Active? && w.currency == d.currency && PostedOf(b.t, CompletionPost(b.t.accounts, d, w), newId) == posted
    ensures var (after, answer) := Settle(b, k, newId, now);
      EndsByPost(b, b.deposits[k], now, posted, after, after.deposits[k], answer)
    ensures posted.Raised? ==> Settle(b, k, newId, now).0.deposits[k] == b.deposits[k]
  {
  }

  lemma RejectionIsFailure(b: Bank, d: Deposit, error: Error, after: Bank, e: Deposit)
    requires after.t == b.t && e == MarkFailed(d, FailureOf(error))
    requires FailsWith(b, d, SettlementRejected, StatusCode(error))
    ensures Fails(b, d, after, e)
  {
    assert IsFailure(d, e, SettlementRejected, StatusCode(error));
  }

  lemma PostedEnds(b: Bank, d: Deposit, newId: string, now: int, posted: Posted, after: Bank, e: Deposit, answer: Answer)
    requires Consistent(b.t) && d.walletId in b.wallets && d.status.Pending?
    requires b.wallets[d.walletId].status.Active? && b.wallets[d.walletId].currency == d.currency
    requires FindJournal(b.t.journals, newId).None? <==> NewJournalId(b.t, newId)
    requires (forall s :: !IsSettlement(b.t, d, s)) ==> posted == Caught(Conflict)
    requires forall s | IsSettlement(b.t, d, s) ::
      posted == if !Sendable(d, s.id, b.wallets[d.walletId].ledgerAccountId) then Caught(BadRequest)
                else if !AccountIsActive(b.t, b.wallets[d.walletId].ledgerAccountId) then Caught(Conflict)
                else if !CanBeDebited(b.t, s, d.amount) then Caught(Unprocessable)
                else if FindJournal(b.t.journals, newId).Some? then Raised(PrimaryKey)
                else Journaled(newId)
    requires EndsByPost(b, d, now, posted, after, e, answer) && (posted.Raised? ==> e == d)
    ensures EndsByRows(b, d, newId, now, after, e, answer)
    ensures e.status.Completed? <==> Completable(b, d) && NewJournalId(b.t, newId)
  {
    var account := b.wallets[d.walletId].ledgerAccountId;
    if s :| IsSettlement(b.t, d, s) {
      OneSettlement(b.t, d, s);
      assert Completable(b, d) <==> PostableFrom(b.t, d, s, account);
      if posted.Caught? {
        assert RejectedWith(b.t, d, s, account, StatusCode(posted.error));
        RejectionIsFailure(b, d, posted.error, after, e);
      }
    } else {
      RejectionIsFailure(b, d, Conflict, after, e);
    }
  }
}
