/** Row locks of concurrent posts and deposit operations: the wait-for graph never has a cycle. */
module Locks {
  import opened Order
  import opened LedgerCommands
  import opened LedgerPosting
  import opened LedgerInvariant

  datatype Row = DepositRow(id: string) | WalletRow(id: string) | AccountRow(id: string)

  /** What a transaction is about; its `FOR UPDATE` queries follow from that. */
  datatype Work =
    | PostWork(entries: seq<Entry>)
    | CompleteWork(depositId: string, walletId: string, entries: seq<Entry>)
    | CreateWork(walletId: string)
    | CloseWork(depositId: string)

  function AccountRows(entries: seq<Entry>): seq<Row> {
    var ids := LockOrder(entries);
    seq(|ids|, i requires 0 <= i < |ids| => AccountRow(ids[i]))
  }

  /** The rows in the order in which they are locked: deposit, then wallet, then accounts by id. */
  function PlanOf(work: Work): seq<Row> {
    match work
    case PostWork(entries) => AccountRows(entries)
    case CompleteWork(depositId, walletId, entries) =>
      [DepositRow(depositId), WalletRow(walletId)] + AccountRows(entries)
    case CreateWork(walletId) => [WalletRow(walletId)]
    case CloseWork(depositId) => [DepositRow(depositId)]
  }

  /** A transaction holds the first rows of its plan until it ends, by commit or by rollback at any point. */
  datatype Transaction = Transaction(plan: seq<Row>, got: nat, ended: bool)

  type System = seq<Transaction>

  datatype Step = Begin(work: Work) | Acquire(i: nat) | End(i: nat)

  predicate Holds(x: Transaction, row: Row) {
    !x.ended && exists k :: 0 <= k < x.got && k < |x.plan| && x.plan[k] == row
  }

  predicate Wanting(x: Transaction) {
    !x.ended && x.got < |x.plan|
  }

  function Wanted(x: Transaction): Row
    requires Wanting(x)
  {
    x.plan[x.got]
  }

  predicate Blocked(s: System, i: nat) {
    i < |s| && Wanting(s[i]) && exists j :: 0 <= j < |s| && j != i && Holds(s[j], Wanted(s[i]))
  }

  function Next(s: System, step: Step): System {
    match step
    case Begin(work) => s + [Transaction(PlanOf(work), 0, false)]
    case Acquire(i) =>
      if i < |s| && Wanting(s[i]) && !Blocked(s, i) then s[i := s[i].(got := s[i].got + 1)] else s
    case End(i) => if i < |s| then s[i := s[i].(ended := true)] else s
  }

  function Run(steps: seq<Step>): System {
    if steps == [] then [] else Next(Run(steps[..|steps| - 1]), steps[|steps| - 1])
  }

  // ---------------------------------------------------------------------------------------------------- the order

  predicate Below(a: Row, b: Row) {
    match a
    case DepositRow(id) => b.WalletRow? || b.AccountRow? || Less(id, b.id)
    case WalletRow(id) => b.AccountRow? || (b.WalletRow? && Less(id, b.id))
    case AccountRow(id) => b.AccountRow? && Less(id, b.id)
  }

  lemma BelowIsOrder(a: Row, b: Row, c: Row)
    ensures !Below(a, a)
    ensures Below(a, b) && Below(b, c) ==> Below(a, c)
    ensures Below(a, b) || Below(b, a) || a == b
  {
    LessTotal(a.id, b.id);
    LessTotal(a.id, a.id);
    if Less(a.id, b.id) && Less(b.id, c.id) { LessTransitive(a.id, b.id, c.id); }
  }

  ghost predicate Ascends(plan: seq<Row>) {
    forall i, j | 0 <= i < j < |plan| :: Below(plan[i], plan[j])
  }

  lemma AccountRowsAscend(entries: seq<Entry>)
    ensures Ascends(AccountRows(entries))
    ensures forall i | 0 <= i < |AccountRows(entries)| :: AccountRows(entries)[i].AccountRow?
  {
    LockOrderIsAscending(entries);
  }

  /** Every transaction locks its rows in strictly ascending order. */
  lemma PlanAscends(work: Work)
    ensures Ascends(PlanOf(work))
  {
    match work
    case PostWork(entries) => AccountRowsAscend(entries);
    case CompleteWork(_, _, entries) => AccountRowsAscend(entries);
    case _ =>
  }

  ghost predicate IsTouched(entries: seq<Entry>, row: Row) {
    row.AccountRow? && exists e :: e in entries && e.accountId == row.id
  }

  /** It locks the rows it works on and no others: its deposit, its wallet, every account it touches. */
  lemma PlanLocksExactly(work: Work, row: Row)
    ensures row in PlanOf(work) <==>
      match work
      case PostWork(entries) => IsTouched(entries, row)
      case CompleteWork(depositId, walletId, entries) =>
        row == DepositRow(depositId) || row == WalletRow(walletId) || IsTouched(entries, row)
      case CreateWork(walletId) => row == WalletRow(walletId)
      case CloseWork(depositId) => row == DepositRow(depositId)
  {
    match work
    case PostWork(entries) => AccountRowsExactly(entries, row);
    case CompleteWork(_, _, entries) => AccountRowsExactly(entries, row);
    case _ =>
  }

  lemma AccountRowsExactly(entries: seq<Entry>, row: Row)
    ensures row in AccountRows(entries) <==> IsTouched(entries, row)
  {
    LockOrderIsAscending(entries);
    if IsTouched(entries, row) {
      assert row.id in LockOrder(entries);
      var i :| 0 <= i < |LockOrder(entries)| && LockOrder(entries)[i] == row.id;
      assert AccountRows(entries)[i] == row;
    }
    if row in AccountRows(entries) {
      var i :| 0 <= i < |AccountRows(entries)| && AccountRows(entries)[i] == row;
      assert LockOrder(entries)[i] in LockOrder(entries);
    }
  }

  ghost predicate Orderly(s: System) {
    forall i | 0 <= i < |s| :: Ascends(s[i].plan)
  }

  lemma {:induction false} RunIsOrderly(steps: seq<Step>)
    ensures Orderly(Run(steps))
  {
    if steps != [] {
      RunIsOrderly(steps[..|steps| - 1]);
      NextIsOrderly(Run(steps[..|steps| - 1]), steps[|steps| - 1]);
    }
  }

  lemma NextIsOrderly(s: System, step: Step)
    requires Orderly(s)
    ensures Orderly(Next(s, step))
  {
    if step.Begin? { PlanAscends(step.work); }
  }

  // ----------------------------------------------------------------------------------------------- mutual exclusion

  ghost predicate Exclusive(s: System) {
    forall i, j, row | 0 <= i < |s| && 0 <= j < |s| && Holds(s[i], row) && Holds(s[j], row) :: i == j
  }

  lemma AcquiredRow(x: Transaction, row: Row)
    requires Wanting(x)
    ensures Holds(x.(got := x.got + 1), row) <==> Holds(x, row) || row == Wanted(x)
  {
    var y := x.(got := x.got + 1);
    if Holds(x, row) {
      var k :| 0 <= k < x.got && k < |x.plan| && x.plan[k] == row;
      assert y.plan[k] == row;
    }
    if row == Wanted(x) { assert y.plan[x.got] == row; }
  }

  lemma NextKeepsExclusive(s: System, step: Step)
    requires Exclusive(s)
    ensures Exclusive(Next(s, step))
  {
    var next := Next(s, step);
    forall i, j, row | 0 <= i < |next| && 0 <= j < |next| && Holds(next[i], row) && Holds(next[j], row) ensures i == j {
      if step.Acquire? && step.i < |s| && Wanting(s[step.i]) { AcquiredRow(s[step.i], row); }
    }
  }

  /** No row is ever locked by two transactions. */
  lemma {:induction false} RowsAreExclusive(steps: seq<Step>)
    ensures Exclusive(Run(steps))
  {
    if steps != [] {
      RowsAreExclusive(steps[..|steps| - 1]);
      NextKeepsExclusive(Run(steps[..|steps| - 1]), steps[|steps| - 1]);
    }
  }

  // --------------------------------------------------------------------------------------------- deadlock freedom

  /** Transaction i waits for a row that transaction j holds. */
  predicate WaitsFor(s: System, i: nat, j: nat) {
    i < |s| && j < |s| && i != j && Wanting(s[i]) && Holds(s[j], Wanted(s[i]))
  }

  /** Along an edge of the wait-for graph the wanted row goes up. */
  lemma WantedRises(s: System, i: nat, j: nat)
    requires Orderly(s) && WaitsFor(s, i, j) && Wanting(s[j])
    ensures Below(Wanted(s[i]), Wanted(s[j]))
  {
    assert Ascends(s[j].plan);
  }

  ghost predicate WaitPath(s: System, path: seq<nat>) {
    && (forall k | 0 <= k < |path| - 1 :: WaitsFor(s, path[k], path[k + 1]))
    && (forall k | 0 <= k < |path| :: path[k] < |s| && Wanting(s[path[k]]))
  }

  lemma {:induction false} WantedRisesAlong(s: System, path: seq<nat>)
    requires Orderly(s) && |path| > 1 && WaitPath(s, path)
    ensures Below(Wanted(s[path[0]]), Wanted(s[path[|path| - 1]]))
  {
    var n := |path| - 1;
    assert WaitsFor(s, path[n - 1], path[n - 1 + 1]);
    WantedRises(s, path[n - 1], path[n]);
    if n > 1 {
      var front := path[..n];
      assert forall k | 0 <= k < |front| - 1 :: WaitsFor(s, front[k], front[k + 1]);
      WantedRisesAlong(s, front);
      BelowIsOrder(Wanted(s[path[0]]), Wanted(s[path[n - 1]]), Wanted(s[path[n]]));
    }
  }

  /** No transaction waits, over any number of others, for itself. */
  lemma NoDeadlock(steps: seq<Step>, path: seq<nat>)
    requires |path| > 1 && path[0] == path[|path| - 1]
    ensures !WaitPath(Run(steps), path)
  {
    var s := Run(steps);
    if WaitPath(s, path) {
      RunIsOrderly(steps);
      WantedRisesAlong(s, path);
      BelowIsOrder(Wanted(s[path[0]]), Wanted(s[path[0]]), Wanted(s[path[0]]));
    }
  }

  /** Some row of a nonempty collection has no row above it. */
  lemma {:induction false} HighestRow(rows: seq<Row>) returns (k: nat)
    requires rows != []
    ensures k < |rows| && forall j | 0 <= j < |rows| :: !Below(rows[k], rows[j])
  {
    k := 0;
    BelowIsOrder(rows[0], rows[0], rows[0]);
    if |rows| > 1 {
      var m := HighestRow(rows[1..]);
      var rest := rows[1..];
      assert forall j | 1 <= j < |rows| :: rows[j] == rest[j - 1];
      if Below(rows[0], rest[m]) {
        k := m + 1;
        BelowIsOrder(rows[0], rest[m], rows[0]);
      } else {
        forall j | 1 <= j < |rows| ensures !Below(rows[0], rows[j]) {
          BelowIsOrder(rest[m], rows[0], rest[j - 1]);
        }
      }
    }
  }

  /** The rows wanted by the first n transactions, each with who wants it. */
  function Wants(s: System, n: nat): seq<(nat, Row)>
    requires n <= |s|
  {
    if n == 0 then [] else Wants(s, n - 1) + (if Wanting(s[n - 1]) then [(n - 1, Wanted(s[n - 1]))] else [])
  }

  lemma {:induction false} WantsComplete(s: System, n: nat)
    requires n <= |s|
    ensures forall w | w in Wants(s, n) :: w.0 < n && Wanting(s[w.0]) && w.1 == Wanted(s[w.0])
    ensures forall i | 0 <= i < n && Wanting(s[i]) :: (i, Wanted(s[i])) in Wants(s, n)
  {
    if n > 0 { WantsComplete(s, n - 1); }
  }

  /** As long as some transaction still wants a row, some transaction can go on: it is not blocked, or it has all. */
  lemma SomeoneGoesOn(steps: seq<Step>)
    requires exists i :: 0 <= i < |Run(steps)| && Wanting(Run(steps)[i])
    ensures exists i :: 0 <= i < |Run(steps)| && !Run(steps)[i].ended && !Blocked(Run(steps), i)
  {
    RunIsOrderly(steps);
    GoesOn(Run(steps));
  }

  lemma HighestWaiter(s: System) returns (i: nat)
    requires exists j :: 0 <= j < |s| && Wanting(s[j])
    ensures i < |s| && Wanting(s[i])
    ensures forall j | 0 <= j < |s| && Wanting(s[j]) :: !Below(Wanted(s[i]), Wanted(s[j]))
  {
    var wants := Wants(s, |s|);
    WantsComplete(s, |s|);
    var first :| 0 <= first < |s| && Wanting(s[first]);
    assert (first, Wanted(s[first])) in wants;
    var rows := seq(|wants|, k requires 0 <= k < |wants| => wants[k].1);
    var k := HighestRow(rows);
    i := wants[k].0;
    assert wants[k] in wants;
    forall j | 0 <= j < |s| && Wanting(s[j]) ensures !Below(Wanted(s[i]), Wanted(s[j])) {
      var m :| 0 <= m < |wants| && wants[m] == (j, Wanted(s[j]));
      assert !Below(rows[k], rows[m]);
    }
  }

  lemma GoesOn(s: System)
    requires Orderly(s) && exists i :: 0 <= i < |s| && Wanting(s[i])
    ensures exists i :: 0 <= i < |s| && !s[i].ended && !Blocked(s, i)
  {
    var i := HighestWaiter(s);
    if Blocked(s, i) {
      var j :| 0 <= j < |s| && j != i && Holds(s[j], Wanted(s[i]));
      if Wanting(s[j]) { WantedRises(s, i, j); }
      assert !s[j].ended && !Blocked(s, j);
    }
  }
}
