/** The accounting identity, and balances as sums over journals: exchanging sums over accounts, lines and journals. */
module LedgerIdentity {
  import opened Prelude
  import opened LedgerTables
  import opened LedgerCommands
  import opened LedgerPosting
  import opened LedgerInvariant
  import opened Fingerprint

  // ------------------------------------------------------------------------------------------ sums over accounts

  /** The summed balances of the accounts of one book whose normal balance is on the given side. */
  function SideBalances(accounts: seq<Account>, lines: seq<Line>, side: Direction, currency: string, unit: string): int {
    if accounts == [] then 0
    else
      var a := accounts[0];
      (if a.normalBalance == side && a.currency == currency && a.unit == unit then Balance(lines, a) else 0)
      + SideBalances(accounts[1..], lines, side, currency, unit)
  }

  /** Debits less credits on the rows of one book. */
  function Flow(currency: string, unit: string): Line -> int {
    (l: Line) => if l.currency == currency && l.unit == unit then SignedAmount(l.direction, Debit, l.amount) else 0
  }

  /** What one more row adds to the balances of a side. */
  function SideShare(accounts: seq<Account>, l: Line, side: Direction, currency: string, unit: string): int {
    var found := FindAccount(accounts, l.accountId);
    if found.Some? && found.value.normalBalance == side && found.value.currency == currency && found.value.unit == unit
    then SignedAmount(l.direction, side, l.amount) else 0
  }

  lemma {:induction false} OneMoreRow(accounts: seq<Account>, front: seq<Line>, l: Line, side: Direction,
    currency: string, unit: string)
    requires DistinctAccounts(accounts)
    ensures SideBalances(accounts, front + [l], side, currency, unit) ==
      SideBalances(accounts, front, side, currency, unit) + SideShare(accounts, l, side, currency, unit)
  {
    if accounts != [] {
      var a := accounts[0];
      OneMoreRow(accounts[1..], front, l, side, currency, unit);
      assert (front + [l])[..|front|] == front;
      assert Balance(front + [l], a) == Balance(front, a) + OnAccount(a.id, a.normalBalance)(l);
      if a.id == l.accountId {
        assert forall i | 0 <= i < |accounts[1..]| :: accounts[1..][i] == accounts[i + 1];
        assert FindAccount(accounts[1..], l.accountId).None?;
      }
    }
  }

  lemma {:induction false} NoRowsNoBalance(accounts: seq<Account>, side: Direction, currency: string, unit: string)
    ensures SideBalances(accounts, [], side, currency, unit) == 0
  {
    if accounts != [] { NoRowsNoBalance(accounts[1..], side, currency, unit); }
  }

  ghost predicate InBookOfAccount(accounts: seq<Account>, l: Line) {
    var found := FindAccount(accounts, l.accountId);
    found.Some? && found.value.currency == l.currency && found.value.unit == l.unit
  }

  /** Summing balances over accounts is summing debits less credits over rows. */
  lemma {:induction false} AccountsToRows(accounts: seq<Account>, lines: seq<Line>, currency: string, unit: string)
    requires DistinctAccounts(accounts)
    requires forall l | l in lines :: InBookOfAccount(accounts, l)
    ensures SideBalances(accounts, lines, Debit, currency, unit) - SideBalances(accounts, lines, Credit, currency, unit)
      == Sum(lines, Flow(currency, unit))
  {
    if lines == [] {
      NoRowsNoBalance(accounts, Debit, currency, unit);
      NoRowsNoBalance(accounts, Credit, currency, unit);
    } else {
      var front, l := lines[..|lines| - 1], lines[|lines| - 1];
      assert lines == front + [l];
      assert l in lines && forall k | k in front :: k in lines;
      AccountsToRows(accounts, front, currency, unit);
      OneMoreRow(accounts, front, l, Debit, currency, unit);
      OneMoreRow(accounts, front, l, Credit, currency, unit);
    }
  }

  // ------------------------------------------------------------------------------------------ sums over journals

  function InJournal(id: string, weight: Line -> int): Line -> int {
    (l: Line) => if l.journalId == id then weight(l) else 0
  }

  function JournalSums(journals: seq<Journal>, lines: seq<Line>, weight: Line -> int): int {
    if journals == [] then 0
    else Sum(lines, InJournal(journals[0].id, weight)) + JournalSums(journals[1..], lines, weight)
  }

  lemma {:induction false} OneMoreRowByJournal(journals: seq<Journal>, front: seq<Line>, l: Line, weight: Line -> int)
    requires DistinctJournals(journals)
    ensures JournalSums(journals, front + [l], weight) ==
      JournalSums(journals, front, weight) + (if FindJournal(journals, l.journalId).Some? then weight(l) else 0)
  {
    if journals != [] {
      var j := journals[0];
      OneMoreRowByJournal(journals[1..], front, l, weight);
      assert (front + [l])[..|front|] == front;
      if j.id == l.journalId {
        assert forall i | 0 <= i < |journals[1..]| :: journals[1..][i] == journals[i + 1];
        assert FindJournal(journals[1..], l.journalId).None?;
      }
    }
  }

  lemma {:induction false} NoRowsNoSums(journals: seq<Journal>, weight: Line -> int)
    ensures JournalSums(journals, [], weight) == 0
  {
    if journals != [] { NoRowsNoSums(journals[1..], weight); }
  }

  /** A sum over all rows is the sum over journals of the sums over their rows. */
  lemma {:induction false} RowsToJournals(journals: seq<Journal>, lines: seq<Line>, weight: Line -> int)
    requires DistinctJournals(journals)
    requires forall l | l in lines :: FindJournal(journals, l.journalId).Some?
    ensures Sum(lines, weight) == JournalSums(journals, lines, weight)
  {
    if lines == [] {
      NoRowsNoSums(journals, weight);
    } else {
      var front, l := lines[..|lines| - 1], lines[|lines| - 1];
      assert lines == front + [l];
      assert l in lines && forall k | k in front :: k in lines;
      RowsToJournals(journals, front, weight);
      OneMoreRowByJournal(journals, front, l, weight);
    }
  }

  /** Within one journal, debits less credits is the difference of its two totals. */
  lemma {:induction false} JournalFlow(lines: seq<Line>, j: Journal, currency: string, unit: string)
    requires forall l | l in lines && l.journalId == j.id :: l.currency == j.currency && l.unit == j.unit
    ensures Sum(lines, InJournal(j.id, Flow(currency, unit))) ==
      if j.currency == currency && j.unit == unit then Sum(lines, SideIn(j.id, Debit)) - Sum(lines, SideIn(j.id, Credit))
      else 0
  {
    if lines != [] {
      var front, l := lines[..|lines| - 1], lines[|lines| - 1];
      assert l in lines && forall k | k in front :: k in lines;
      JournalFlow(front, j, currency, unit);
    }
  }

  lemma {:induction false} BalancedJournalsCancel(t: Tables, journals: seq<Journal>, currency: string, unit: string)
    requires Consistent(t) && forall j | j in journals :: j in t.journals
    ensures JournalSums(journals, t.lines, Flow(currency, unit)) == 0
  {
    if journals != [] {
      var j := journals[0];
      assert j in journals && forall k | k in journals[1..] :: k in journals;
      BalancedJournalsCancel(t, journals[1..], currency, unit);
      assert JournalBalanced(t, j);
      forall l | l in t.lines && l.journalId == j.id ensures l.currency == j.currency && l.unit == j.unit {
        assert LineInPlace(t, l);
        JournalIsFound(t.journals, j);
      }
      JournalFlow(t.lines, j, currency, unit);
    }
  }

  /** In every consistent ledger, book by book, debit-normal balances and credit-normal balances have the same sum. */
  lemma AccountingIdentity(t: Tables, currency: string, unit: string)
    requires Consistent(t)
    ensures SideBalances(t.accounts, t.lines, Debit, currency, unit)
         == SideBalances(t.accounts, t.lines, Credit, currency, unit)
  {
    forall l | l in t.lines ensures FindJournal(t.journals, l.journalId).Some? { assert LineInPlace(t, l); }
    forall l | l in t.lines ensures InBookOfAccount(t.accounts, l) { assert LineInPlace(t, l); }
    AccountsToRows(t.accounts, t.lines, currency, unit);
    RowsToJournals(t.journals, t.lines, Flow(currency, unit));
    BalancedJournalsCancel(t, t.journals, currency, unit);
  }

  /** After any sequence of account creations and posts (reversals are posts), with every balance recomputed. */
  lemma IdentityOverEveryRun(ops: seq<Operation>, currency: string, unit: string)
    ensures SideBalances(Run(ops).accounts, Run(ops).lines, Debit, currency, unit)
         == SideBalances(Run(ops).accounts, Run(ops).lines, Credit, currency, unit)
  {
    ReachableIsConsistent(ops);
    AccountingIdentity(Run(ops), currency, unit);
  }

  // ------------------------------------------------------------------------------------ what a journal contains

  /** The entries of one journal, in line order. */
  function EntriesIn(lines: seq<Line>, id: string): seq<Entry> {
    if lines == [] then []
    else
      var l := lines[|lines| - 1];
      EntriesIn(lines[..|lines| - 1], id)
      + (if l.journalId == id then [Entry(l.accountId, l.direction, l.amount)] else [])
  }

  lemma {:induction false} EntriesInAppend(a: seq<Line>, b: seq<Line>, id: string)
    ensures EntriesIn(a + b, id) == EntriesIn(a, id) + EntriesIn(b, id)
  {
    if b == [] {
      assert a + b == a;
    } else {
      assert (a + b)[..|a + b| - 1] == a + b[..|b| - 1];
      EntriesInAppend(a, b[..|b| - 1], id);
    }
  }

  lemma {:induction false} EntriesInOther(lines: seq<Line>, id: string)
    requires forall l | l in lines :: l.journalId != id
    ensures EntriesIn(lines, id) == []
  {
    if lines != [] {
      assert lines[|lines| - 1] in lines && forall k | k in lines[..|lines| - 1] :: k in lines;
      EntriesInOther(lines[..|lines| - 1], id);
    }
  }

  lemma {:induction false} EntriesInWritten(c: Normalized, id: string)
    ensures EntriesIn(LinesFor(c, id), id) == c.entries
    decreases |c.entries|
  {
    if c.entries != [] {
      LinesShorter(c, id);
      EntriesInWritten(Shorter(c), id);
      assert c.entries == c.entries[..|c.entries| - 1] + [c.entries[|c.entries| - 1]];
    }
  }

  /** A written journal holds exactly the entries of its command, and every older journal keeps its own. */
  lemma WriteKeepsEntries(t: Tables, c: Normalized, newId: string, id: string)
    requires Consistent(t) && FindJournal(t.journals, newId).None?
    ensures EntriesIn(WriteJournal(t, c, newId).lines, id) == if id == newId then c.entries else EntriesIn(t.lines, id)
  {
    NoLinesBeforeJournal(t, newId);
    EntriesInAppend(t.lines, LinesFor(c, newId), id);
    if id == newId {
      EntriesInOther(t.lines, id);
      EntriesInWritten(c, id);
    } else {
      EntriesInOther(LinesFor(c, newId), id);
    }
  }

  /** The effect of one journal on one account. */
  function JournalEffect(t: Tables, id: string, account: Account): int {
    EntryEffect(EntriesIn(t.lines, id), account.id, account.normalBalance)
  }

  lemma {:induction false} SumIsEntryEffect(lines: seq<Line>, id: string, accountId: string, normal: Direction)
    ensures Sum(lines, InJournal(id, OnAccount(accountId, normal))) ==
      EntryEffect(EntriesIn(lines, id), accountId, normal)
  {
    if lines != [] {
      var front, l := lines[..|lines| - 1], lines[|lines| - 1];
      var e := Entry(l.accountId, l.direction, l.amount);
      SumIsEntryEffect(front, id, accountId, normal);
      assert OnAccount(accountId, normal)(l) == SingleEffect(e, accountId, normal);
      if l.journalId == id {
        assert EntriesIn(lines, id) == EntriesIn(front, id) + [e];
        EffectAppend(EntriesIn(front, id), [e], accountId, normal);
        assert [e][..0] == [];
        assert EntryEffect([], accountId, normal) == 0;
      } else {
        assert EntriesIn(lines, id) == EntriesIn(front, id);
      }
    }
  }

  function EffectSum(t: Tables, journals: seq<Journal>, account: Account): int {
    if journals == [] then 0 else JournalEffect(t, journals[0].id, account) + EffectSum(t, journals[1..], account)
  }

  lemma {:induction false} EffectSumIsJournalSums(t: Tables, journals: seq<Journal>, a: Account)
    ensures EffectSum(t, journals, a) == JournalSums(journals, t.lines, OnAccount(a.id, a.normalBalance))
  {
    if journals != [] {
      EffectSumIsJournalSums(t, journals[1..], a);
      SumIsEntryEffect(t.lines, journals[0].id, a.id, a.normalBalance);
    }
  }

  /** A balance is the sum of the effects of the posted journals. */
  lemma BalanceByJournal(t: Tables, a: Account)
    requires Consistent(t)
    ensures Balance(t.lines, a) == EffectSum(t, t.journals, a)
  {
    forall l | l in t.lines ensures FindJournal(t.journals, l.journalId).Some? { assert LineInPlace(t, l); }
    RowsToJournals(t.journals, t.lines, OnAccount(a.id, a.normalBalance));
    EffectSumIsJournalSums(t, t.journals, a);
  }
}
