/** The ledger's tables, the sums over them, and the constraints the migration declares. */
module LedgerTables {
  import opened Prelude
  import opened Json
  import opened Money

  datatype Direction = Debit | Credit

  datatype AccountType = Asset | Liability | Equity | Revenue | Expense

  datatype Account = Account(id: string, code: string, name: string, accountType: AccountType,
    normalBalance: Direction, currency: string, unit: string, allowNegative: bool, isActive: bool)

  datatype Journal = Journal(id: string, key: string, requestHash: string, currency: string, unit: string,
    reference: Option<string>, description: Option<string>, correlationId: Option<string>,
    reversalOf: Option<string>, metadata: Value, total: int)

  datatype Line = Line(journalId: string, accountId: string, lineNumber: int, direction: Direction, amount: int,
    currency: string, unit: string)

  /** Rows in the order they were written. */
  datatype Tables = Tables(accounts: seq<Account>, journals: seq<Journal>, lines: seq<Line>)

  const EMPTY := Tables([], [], [])

  function Opposite(d: Direction): Direction {
    if d == Debit then Credit else Debit
  }

  function NormalBalanceFor(accountType: AccountType): Direction {
    if accountType == Asset || accountType == Expense then Debit else Credit
  }

  // -------------------------------------------------------------------------------------------------- look-ups

  function FindAccount(accounts: seq<Account>, id: string): (r: Option<Account>)
    ensures r.Some? <==> exists i :: 0 <= i < |accounts| && accounts[i].id == id
    ensures r.Some? ==> r.value in accounts && r.value.id == id
  {
    if accounts == [] then None
    else if accounts[0].id == id then Some(accounts[0])
    else
      var r := FindAccount(accounts[1..], id);
      assert forall i | 1 <= i < |accounts| :: accounts[i] == accounts[1..][i - 1];
      assert r.Some? ==> exists i :: 0 <= i < |accounts[1..]| && accounts[1..][i].id == id;
      r
  }

  function FindJournal(journals: seq<Journal>, id: string): (r: Option<Journal>)
    ensures r.Some? <==> exists i :: 0 <= i < |journals| && journals[i].id == id
    ensures r.Some? ==> r.value in journals && r.value.id == id
  {
    if journals == [] then None
    else if journals[0].id == id then Some(journals[0])
    else
      var r := FindJournal(journals[1..], id);
      assert forall i | 1 <= i < |journals| :: journals[i] == journals[1..][i - 1];
      r
  }

  function FindKey(journals: seq<Journal>, key: string): (r: Option<Journal>)
    ensures r.Some? <==> exists i :: 0 <= i < |journals| && journals[i].key == key
    ensures r.Some? ==> r.value in journals && r.value.key == key
  {
    if journals == [] then None
    else if journals[0].key == key then Some(journals[0])
    else
      var r := FindKey(journals[1..], key);
      assert forall i | 1 <= i < |journals| :: journals[i] == journals[1..][i - 1];
      r
  }

  predicate IsReversed(journals: seq<Journal>, id: string) {
    exists i :: 0 <= i < |journals| && journals[i].reversalOf == Some(id)
  }

  // ------------------------------------------------------------------------------------------------------ sums

  /** A total over rows, one weight a row; every aggregate of the ledger is one of these. */
  function Sum(lines: seq<Line>, weight: Line -> int): int {
    if lines == [] then 0 else Sum(lines[..|lines| - 1], weight) + weight(lines[|lines| - 1])
  }

  lemma {:induction false} SumAppend(a: seq<Line>, b: seq<Line>, weight: Line -> int)
    ensures Sum(a + b, weight) == Sum(a, weight) + Sum(b, weight)
  {
    if b == [] {
      assert a + b == a;
    } else {
      assert (a + b)[..|a + b| - 1] == a + b[..|b| - 1];
      SumAppend(a, b[..|b| - 1], weight);
    }
  }

  lemma {:induction false} SumSame(lines: seq<Line>, v: Line -> int, w: Line -> int)
    requires forall l | l in lines :: v(l) == w(l)
    ensures Sum(lines, v) == Sum(lines, w)
  {
    if lines != [] {
      var front := lines[..|lines| - 1];
      assert forall l | l in front :: l in lines;
      SumSame(front, v, w);
      assert lines[|lines| - 1] in lines;
    }
  }

  function SignedAmount(direction: Direction, normal: Direction, amount: int): int {
    if direction == normal then amount else -amount
  }

  /** What a row does to the balance of one account. */
  function OnAccount(id: string, normal: Direction): Line -> int {
    (l: Line) => if l.accountId == id then SignedAmount(l.direction, normal, l.amount) else 0
  }

  /** A balance is never stored: it is this sum over all lines. */
  function Balance(lines: seq<Line>, account: Account): int {
    Sum(lines, OnAccount(account.id, account.normalBalance))
  }

  function SideIn(journalId: string, side: Direction): Line -> int {
    (l: Line) => if l.journalId == journalId && l.direction == side then l.amount else 0
  }

  function CountIn(journalId: string): Line -> int {
    (l: Line) => if l.journalId == journalId then 1 else 0
  }

  // ------------------------------------------------------------------------------- the constraints of the database

  /** The trigger's mismatch count is positive. */
  ghost predicate Mismatched(t: Tables, journal: Journal) {
    exists l, a :: l in t.lines && a in t.accounts && l.journalId == journal.id && a.id == l.accountId
      && (l.currency != journal.currency || l.unit != journal.unit
          || a.currency != l.currency || a.unit != l.unit || !a.isActive)
  }

  /** The trigger's negative account count is positive. */
  ghost predicate TouchesOverdrawn(t: Tables, id: string) {
    exists a :: a in t.accounts && !a.allowNegative
      && (exists l :: l in t.lines && l.journalId == id && l.accountId == a.id) && Balance(t.lines, a) < 0
  }

  /** The body of the deferred trigger `assert_ledger_journal_balanced`, as aggregates over the whole tables. */
  ghost predicate TriggerAccepts(t: Tables, id: string) {
    var found := FindJournal(t.journals, id);
    found.Some? &&
    var journal := found.value;
    && Sum(t.lines, CountIn(id)) >= 2
    && Sum(t.lines, SideIn(id, Debit)) == Sum(t.lines, SideIn(id, Credit)) == journal.total
    && !Mismatched(t, journal)
    && !TouchesOverdrawn(t, id)
  }

  ghost predicate DistinctAccounts(accounts: seq<Account>) {
    forall i, j | 0 <= i < j < |accounts| :: accounts[i].id != accounts[j].id
  }

  ghost predicate DistinctCodes(accounts: seq<Account>) {
    forall i, j | 0 <= i < j < |accounts| :: accounts[i].code != accounts[j].code
  }

  ghost predicate DistinctJournals(journals: seq<Journal>) {
    forall i, j | 0 <= i < j < |journals| :: journals[i].id != journals[j].id && journals[i].key != journals[j].key
  }

  /** Foreign keys and check constraints of a row of `ledger_lines`. */
  ghost predicate LineInPlace(t: Tables, l: Line) {
    var journal, account := FindJournal(t.journals, l.journalId), FindAccount(t.accounts, l.accountId);
    && journal.Some? && journal.value.currency == l.currency && journal.value.unit == l.unit
    && account.Some? && account.value.currency == l.currency && account.value.unit == l.unit
    && l.amount > 0
  }

  ghost predicate JournalBalanced(t: Tables, j: Journal) {
    && Sum(t.lines, CountIn(j.id)) >= 2
    && Sum(t.lines, SideIn(j.id, Debit)) == Sum(t.lines, SideIn(j.id, Credit)) == j.total
    && 0 < j.total <= MAX_BIGINT
  }

  /** A reversal names an earlier journal that is not itself a reversal, and no journal is named twice. */
  ghost predicate ReversalsInOrder(journals: seq<Journal>) {
    && (forall i | 0 <= i < |journals| && journals[i].reversalOf.Some? ::
          exists k :: 0 <= k < i && journals[k].id == journals[i].reversalOf.value && journals[k].reversalOf.None?)
    && (forall i, j | 0 <= i < j < |journals| && journals[i].reversalOf.Some? ::
          journals[i].reversalOf != journals[j].reversalOf)
  }

  ghost predicate NoOverdraft(t: Tables) {
    forall a | a in t.accounts && !a.allowNegative :: Balance(t.lines, a) >= 0
  }

  /** The invariant of the ledger. */
  ghost predicate Consistent(t: Tables) {
    && DistinctAccounts(t.accounts) && DistinctCodes(t.accounts)
    && DistinctJournals(t.journals)
    && (forall l | l in t.lines :: LineInPlace(t, l))
    && (forall j | j in t.journals :: JournalBalanced(t, j))
    && ReversalsInOrder(t.journals)
    && NoOverdraft(t)
  }
}
