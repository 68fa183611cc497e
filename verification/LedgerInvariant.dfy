/** Every committed transaction keeps the ledger consistent, and the incremental checks are the deferred trigger's. */
module LedgerInvariant {
  import opened Prelude
  import opened Utf16
  import opened Order
  import opened Money
  import opened LedgerTables
  import opened LedgerCommands
  import opened LedgerPosting
  import opened LedgerService

  // ------------------------------------------------------------------------------------------------ look-ups

  lemma {:induction false} FindJournalAppend(js: seq<Journal>, j: Journal, id: string)
    ensures FindJournal(js + [j], id) ==
      if FindJournal(js, id).Some? then FindJournal(js, id) else if j.id == id then Some(j) else None
  {
    if js == [] {
      assert js + [j] == [j];
    } else {
      assert (js + [j])[1..] == js[1..] + [j];
      FindJournalAppend(js[1..], j, id);
    }
  }

  lemma {:induction false} FindAccountAppend(accounts: seq<Account>, a: Account, id: string)
    ensures FindAccount(accounts + [a], id) ==
      if FindAccount(accounts, id).Some? then FindAccount(accounts, id) else if a.id == id then Some(a) else None
  {
    if accounts == [] {
      assert accounts + [a] == [a];
    } else {
      assert (accounts + [a])[1..] == accounts[1..] + [a];
      FindAccountAppend(accounts[1..], a, id);
    }
  }

  lemma AccountIsFound(accounts: seq<Account>, a: Account)
    requires DistinctAccounts(accounts) && a in accounts
    ensures FindAccount(accounts, a.id) == Some(a)
  {
    var i :| 0 <= i < |accounts| && accounts[i] == a;
    var found := FindAccount(accounts, a.id).value;
    var k :| 0 <= k < |accounts| && accounts[k] == found;
  }

  lemma JournalIsFound(journals: seq<Journal>, j: Journal)
    requires DistinctJournals(journals) && j in journals
    ensures FindJournal(journals, j.id) == Some(j) && FindKey(journals, j.key) == Some(j)
  {
    var i :| 0 <= i < |journals| && journals[i] == j;
    var found, byKey := FindJournal(journals, j.id).value, FindKey(journals, j.key).value;
    var k :| 0 <= k < |journals| && journals[k] == found;
    var m :| 0 <= m < |journals| && journals[m] == byKey;
  }

  // ---------------------------------------------------------------------------------------- accounts to be locked

  lemma {:induction false} DistinctIdsKeepsMembers(ids: seq<string>)
    ensures forall id :: id in DistinctIds(ids) <==> id in ids
    ensures forall i, j | 0 <= i < j < |DistinctIds(ids)| :: DistinctIds(ids)[i] != DistinctIds(ids)[j]
  {
    if ids != [] {
      DistinctIdsKeepsMembers(ids[..|ids| - 1]);
      assert ids == ids[..|ids| - 1] + [ids[|ids| - 1]];
    }
  }

  /** The lock order lists exactly the touched accounts, each once, strictly ascending by UTF-16 code units. */
  lemma LockOrderIsAscending(entries: seq<Entry>)
    ensures forall id :: id in LockOrder(entries) <==> exists e :: e in entries && e.accountId == id
    ensures forall i, j | 0 <= i < j < |LockOrder(entries)| :: Less(LockOrder(entries)[i], LockOrder(entries)[j])
    ensures forall i, j | 0 <= i < j < |LockOrder(entries)| ::
      Before(Units(LockOrder(entries)[i]), Units(LockOrder(entries)[j]))
  {
    var all := seq(|entries|, i requires 0 <= i < |entries| => entries[i].accountId);
    DistinctIdsKeepsMembers(all);
    SortedIdsAscend(DistinctIds(all));
    forall id ensures id in all <==> exists e :: e in entries && e.accountId == id {
      if id in all {
        var k :| 0 <= k < |all| && all[k] == id;
        assert entries[k] in entries;
      }
      if e :| e in entries && e.accountId == id {
        var k :| 0 <= k < |entries| && entries[k] == e;
        assert all[k] == id;
      }
    }
    forall i, j | 0 <= i < j < |LockOrder(entries)|
      ensures Before(Units(LockOrder(entries)[i]), Units(LockOrder(entries)[j]))
    {
      LessIsUnitOrder(LockOrder(entries)[i], LockOrder(entries)[j]);
    }
  }

  lemma SortedIdsAscend(ids: seq<string>)
    requires forall i, j | 0 <= i < j < |ids| :: ids[i] != ids[j]
    ensures var sorted := SortedIds(ids);
      && (forall id :: id in sorted <==> id in ids)
      && (forall i, j | 0 <= i < j < |sorted| :: Less(sorted[i], sorted[j]))
  {
    var filed := FileBy(ids, IdentityKey);
    var sorted := Sort(filed);
    forall i, j | 0 <= i < j < |filed| ensures filed[i].key != filed[j].key {
      assert filed[i].key == IdentityKey(ids[i]) == ids[i] && filed[j].key == IdentityKey(ids[j]) == ids[j];
    }
    SortIsPermutation(filed);
    SortIsStrict(filed);
    forall id ensures id in SortedIds(ids) <==> id in ids { SortedIdsMember(ids, id); }
    forall i, j | 0 <= i < j < |sorted| ensures Less(sorted[i].item, sorted[j].item) {
      SortedItemIsFiled(ids, IdentityKey, i);
      SortedItemIsFiled(ids, IdentityKey, j);
    }
  }

  lemma SortedIdsMember(ids: seq<string>, id: string)
    ensures id in SortedIds(ids) <==> id in ids
  {
    var filed := FileBy(ids, IdentityKey);
    var sorted := Sort(filed);
    SortIsPermutation(filed);
    if id in SortedIds(ids) {
      var i :| 0 <= i < |sorted| && sorted[i].item == id;
      SortedItemIsFiled(ids, IdentityKey, i);
    }
    if id in ids {
      var m :| 0 <= m < |ids| && ids[m] == id;
      assert filed[m] in multiset(sorted);
      var i :| 0 <= i < |sorted| && sorted[i] == filed[m];
      assert SortedIds(ids)[i] == id;
    }
  }

  lemma {:induction false} NoProblems(accounts: seq<Account>, ids: seq<string>, currency: string, unit: string)
    ensures AccountProblems(accounts, ids, currency, unit).None? <==>
      forall id | id in ids :: AccountProblem(accounts, id, currency, unit).None?
  {
    if ids != [] {
      var front, last := ids[..|ids| - 1], ids[|ids| - 1];
      assert ids == front + [last];
      NoProblems(accounts, front, currency, unit);
    }
  }

  /** In terms of the touched accounts themselves. */
  ghost predicate TouchedAccountsFit(accounts: seq<Account>, c: Normalized) {
    forall e | e in c.entries :: AccountProblem(accounts, e.accountId, c.currency, c.unit).None?
  }

  /** The entry touches an account that the command would overdraw. */
  ghost predicate Short(t: Tables, c: Normalized, e: Entry) {
    var found := FindAccount(t.accounts, e.accountId);
    found.Some? && !found.value.allowNegative && Projected(t, c, found.value) < 0
  }

  lemma AccountChecks(t: Tables, c: Normalized)
    ensures AccountProblems(t.accounts, LockOrder(c.entries), c.currency, c.unit).None? <==>
      TouchedAccountsFit(t.accounts, c)
    ensures Overdraws(t, c, LockOrder(c.entries)) <==> exists e :: e in c.entries && Short(t, c, e)
  {
    var ids := LockOrder(c.entries);
    LockOrderIsAscending(c.entries);
    NoProblems(t.accounts, ids, c.currency, c.unit);
    if e :| e in c.entries && Short(t, c, e) {
      assert e.accountId in ids;
      var i :| 0 <= i < |ids| && ids[i] == e.accountId;
      assert Overdraws(t, c, ids);
    }
    if Overdraws(t, c, ids) {
      var i :| 0 <= i < |ids| && FindAccount(t.accounts, ids[i]).Some?
        && !FindAccount(t.accounts, ids[i]).value.allowNegative
        && Projected(t, c, FindAccount(t.accounts, ids[i]).value) < 0;
      assert ids[i] in ids;
    }
  }

  // ------------------------------------------------------------------------------------- sums over written lines

  lemma {:induction false} SumZero(lines: seq<Line>, weight: Line -> int)
    requires forall l | l in lines :: weight(l) == 0
    ensures Sum(lines, weight) == 0
  {
    if lines != [] {
      var front := lines[..|lines| - 1];
      assert forall l | l in front :: l in lines;
      SumZero(front, weight);
      assert lines[|lines| - 1] in lines;
    }
  }

  /** A command reduced to its first entries, for inductions over written lines. */
  function Shorter(c: Normalized): Normalized
    requires c.entries != []
  {
    c.(entries := c.entries[..|c.entries| - 1])
  }

  lemma LinesShorter(c: Normalized, id: string)
    requires c.entries != []
    ensures LinesFor(c, id)[..|LinesFor(c, id)| - 1] == LinesFor(Shorter(c), id)
  {
  }

  lemma {:induction false} WrittenSides(c: Normalized, id: string, side: Direction)
    ensures Sum(LinesFor(c, id), SideIn(id, side)) == SideTotal(c.entries, side)
    decreases |c.entries|
  {
    if c.entries != [] {
      LinesShorter(c, id);
      WrittenSides(Shorter(c), id, side);
    }
  }

  lemma {:induction false} WrittenCount(c: Normalized, id: string)
    ensures Sum(LinesFor(c, id), CountIn(id)) == |c.entries|
    decreases |c.entries|
  {
    if c.entries != [] {
      LinesShorter(c, id);
      WrittenCount(Shorter(c), id);
    }
  }

  /** What a journal does to an account does not depend on the id it was given. */
  lemma {:induction false} WrittenEffect(c: Normalized, a: string, b: string, id: string, normal: Direction)
    ensures Sum(LinesFor(c, a), OnAccount(id, normal)) == Sum(LinesFor(c, b), OnAccount(id, normal))
    decreases |c.entries|
  {
    if c.entries != [] {
      LinesShorter(c, a);
      LinesShorter(c, b);
      WrittenEffect(Shorter(c), a, b, id, normal);
    }
  }

  /** The per-line projection is the balance recomputed after the post. */
  lemma ProjectionIsRecomputedBalance(t: Tables, c: Normalized, newId: string, a: Account)
    ensures Balance(WriteJournal(t, c, newId).lines, a) == Projected(t, c, a)
  {
    SumAppend(t.lines, LinesFor(c, newId), OnAccount(a.id, a.normalBalance));
    WrittenEffect(c, newId, "", a.id, a.normalBalance);
  }

  // -------------------------------------------------------------------------------------------- one more journal

  lemma InsertKeepsOldJournals(t: Tables, c: Normalized, newId: string, j: Journal)
    requires j.id != newId
    ensures JournalBalanced(WriteJournal(t, c, newId), j) <==> JournalBalanced(t, j)
    ensures Sum(WriteJournal(t, c, newId).lines, CountIn(j.id)) == Sum(t.lines, CountIn(j.id))
    ensures forall side :: Sum(WriteJournal(t, c, newId).lines, SideIn(j.id, side)) == Sum(t.lines, SideIn(j.id, side))
  {
    var added := LinesFor(c, newId);
    SumAppend(t.lines, added, CountIn(j.id));
    SumZero(added, CountIn(j.id));
    forall side ensures Sum(t.lines + added, SideIn(j.id, side)) == Sum(t.lines, SideIn(j.id, side)) {
      SumAppend(t.lines, added, SideIn(j.id, side));
      SumZero(added, SideIn(j.id, side));
    }
  }

  lemma InsertedJournalSums(t: Tables, c: Normalized, newId: string)
    requires forall l | l in t.lines :: l.journalId != newId
    ensures Sum(WriteJournal(t, c, newId).lines, CountIn(newId)) == |c.entries|
    ensures forall side :: Sum(WriteJournal(t, c, newId).lines, SideIn(newId, side)) == SideTotal(c.entries, side)
  {
    var added := LinesFor(c, newId);
    SumAppend(t.lines, added, CountIn(newId));
    SumZero(t.lines, CountIn(newId));
    WrittenCount(c, newId);
    forall side ensures Sum(t.lines + added, SideIn(newId, side)) == SideTotal(c.entries, side) {
      SumAppend(t.lines, added, SideIn(newId, side));
      SumZero(t.lines, SideIn(newId, side));
      WrittenSides(c, newId, side);
    }
  }

  lemma NoLinesBeforeJournal(t: Tables, newId: string)
    requires Consistent(t) && FindJournal(t.journals, newId).None?
    ensures forall l | l in t.lines :: l.journalId != newId
  {
    forall l | l in t.lines ensures l.journalId != newId { assert LineInPlace(t, l); }
  }

  lemma InsertKeepsLines(t: Tables, c: Normalized, newId: string)
    requires Consistent(t) && WellPosed(c) && FindJournal(t.journals, newId).None?
    requires TouchedAccountsFit(t.accounts, c)
    ensures forall l | l in WriteJournal(t, c, newId).lines :: LineInPlace(WriteJournal(t, c, newId), l)
  {
    var after := WriteJournal(t, c, newId);
    forall l | l in after.lines ensures LineInPlace(after, l) {
      FindJournalAppend(t.journals, JournalFor(c, newId), l.journalId);
      if l in t.lines {
        assert LineInPlace(t, l);
      } else {
        assert l in LinesFor(c, newId);
        var i :| 0 <= i < |c.entries| && LinesFor(c, newId)[i] == l;
        assert c.entries[i] in c.entries;
      }
    }
  }

  lemma InsertKeepsBalances(t: Tables, c: Normalized, newId: string)
    requires Consistent(t) && TouchedAccountsFit(t.accounts, c) && !Overdraws(t, c, LockOrder(c.entries))
    ensures NoOverdraft(WriteJournal(t, c, newId))
  {
    var after := WriteJournal(t, c, newId);
    AccountChecks(t, c);
    forall a | a in after.accounts && !a.allowNegative ensures Balance(after.lines, a) >= 0 {
      ProjectionIsRecomputedBalance(t, c, newId, a);
      AccountIsFound(t.accounts, a);
      if e :| e in c.entries && e.accountId == a.id {
        assert !Short(t, c, e);
      } else {
        UntouchedProjection(t, c, a);
      }
    }
  }

  lemma UntouchedProjection(t: Tables, c: Normalized, a: Account)
    requires forall e | e in c.entries :: e.accountId != a.id
    ensures Projected(t, c, a) == Balance(t.lines, a)
  {
    forall l | l in LinesFor(c, "") ensures OnAccount(a.id, a.normalBalance)(l) == 0 {
      var i :| 0 <= i < |c.entries| && LinesFor(c, "")[i] == l;
      assert c.entries[i] in c.entries;
    }
    SumZero(LinesFor(c, ""), OnAccount(a.id, a.normalBalance));
  }

  lemma InsertKeepsReversals(t: Tables, c: Normalized, newId: string)
    requires Consistent(t) && ReversalProblem(t, c).None?
    requires c.reversalOf.Some? ==> !IsReversed(t.journals, c.reversalOf.value)
    ensures ReversalsInOrder(WriteJournal(t, c, newId).journals)
  {
    var n, after := |t.journals|, WriteJournal(t, c, newId).journals;
    forall i | 0 <= i < |after| && after[i].reversalOf.Some?
      ensures exists k :: 0 <= k < i && after[k].id == after[i].reversalOf.value && after[k].reversalOf.None?
    {
      if i < n {
        var k :| 0 <= k < i && t.journals[k].id == t.journals[i].reversalOf.value && t.journals[k].reversalOf.None?;
        assert after[k] == t.journals[k];
      } else {
        var original := FindJournal(t.journals, c.reversalOf.value).value;
        var k :| 0 <= k < n && t.journals[k] == original;
        assert after[k] == original;
      }
    }
  }

  lemma InsertKeepsJournals(t: Tables, c: Normalized, newId: string)
    requires Consistent(t) && WellPosed(c)
    requires FindJournal(t.journals, newId).None? && FindKey(t.journals, c.key).None?
    ensures DistinctJournals(WriteJournal(t, c, newId).journals)
    ensures forall j | j in WriteJournal(t, c, newId).journals :: JournalBalanced(WriteJournal(t, c, newId), j)
  {
    var after := WriteJournal(t, c, newId);
    NoLinesBeforeJournal(t, newId);
    InsertedJournalSums(t, c, newId);
    forall j | j in after.journals ensures JournalBalanced(after, j) {
      if j in t.journals { InsertKeepsOldJournals(t, c, newId, j); }
    }
  }

  /** A written journal leaves the ledger consistent. */
  lemma PostKeepsConsistent(t: Tables, c: Normalized, newId: string)
    requires Consistent(t) && WellPosed(c)
    ensures Consistent(PostEffect(t, c, newId))
  {
    if PostOutcome(t, c, newId).Written? {
      AccountChecks(t, c);
      InsertKeepsLines(t, c, newId);
      InsertKeepsBalances(t, c, newId);
      InsertKeepsReversals(t, c, newId);
      InsertKeepsJournals(t, c, newId);
    }
  }

  lemma CreateKeepsConsistent(t: Tables, command: AccountCommand, newId: string)
    requires Consistent(t)
    ensures Consistent(CreateEffect(t, command, newId))
  {
    var r := CreateOutcome(t, command, newId);
    if r.Success? { AccountKeepsConsistent(t, r.value); }
  }

  /** A new account with a new id and a new code has no rows yet. */
  lemma AccountKeepsConsistent(t: Tables, a: Account)
    requires Consistent(t) && FindAccount(t.accounts, a.id).None?
    requires forall i | 0 <= i < |t.accounts| :: t.accounts[i].code != a.code
    ensures Consistent(t.(accounts := t.accounts + [a]))
  {
    var after := t.(accounts := t.accounts + [a]);
    AccountKeepsRows(t, a);
    SumZero(t.lines, OnAccount(a.id, a.normalBalance));
    forall j | j in after.journals ensures JournalBalanced(after, j) { assert JournalBalanced(t, j); }
  }

  lemma AccountKeepsRows(t: Tables, a: Account)
    requires Consistent(t) && FindAccount(t.accounts, a.id).None?
    ensures forall l | l in t.lines :: LineInPlace(t.(accounts := t.accounts + [a]), l) && l.accountId != a.id
  {
    forall l | l in t.lines ensures LineInPlace(t.(accounts := t.accounts + [a]), l) && l.accountId != a.id {
      assert LineInPlace(t, l);
      FindAccountAppend(t.accounts, a, l.accountId);
    }
  }

  // ----------------------------------------------------------------------------------------------- whole runs

  /** What a client may ask of the ledger, with the id the server will draw. */
  datatype Operation =
    | CreateAccount(account: AccountCommand, newId: string)
    | Post(command: Command, newId: string)

  function Perform(t: Tables, op: Operation): Tables {
    match op
    case CreateAccount(account, newId) => CreateEffect(t, account, newId)
    case Post(command, newId) =>
      var c := Normalize(command);
      if c.Success? then PostEffect(t, c.value, newId) else t
  }

  function Run(ops: seq<Operation>): Tables {
    if ops == [] then EMPTY else Perform(Run(ops[..|ops| - 1]), ops[|ops| - 1])
  }

  lemma {:induction false} ReachableIsConsistent(ops: seq<Operation>)
    ensures Consistent(Run(ops))
  {
    if ops != [] {
      var t, op := Run(ops[..|ops| - 1]), ops[|ops| - 1];
      ReachableIsConsistent(ops[..|ops| - 1]);
      match op
      case CreateAccount(account, newId) => CreateKeepsConsistent(t, account, newId);
      case Post(command, newId) =>
        if Normalize(command).Success? {
          NormalizedIsWellPosed(command);
          PostKeepsConsistent(t, Normalize(command).value, newId);
        }
    }
  }

  /** No account that may not be overdrawn is ever overdrawn, whatever was asked in whatever order. */
  lemma NoAccountIsEverOverdrawn(ops: seq<Operation>, a: Account)
    requires a in Run(ops).accounts && !a.allowNegative
    ensures Balance(Run(ops).lines, a) >= 0
  {
    ReachableIsConsistent(ops);
  }

  // ------------------------------------------------------------------------------------ the deferred trigger

  lemma TriggerSeesAccounts(t: Tables, c: Normalized, newId: string)
    requires Consistent(t) && FindJournal(t.journals, newId).None?
    requires forall e | e in c.entries :: FindAccount(t.accounts, e.accountId).Some?
    ensures Mismatched(WriteJournal(t, c, newId), JournalFor(c, newId)) <==> !TouchedAccountsFit(t.accounts, c)
  {
    if Mismatched(WriteJournal(t, c, newId), JournalFor(c, newId)) { MismatchIsSeen(t, c, newId); }
    if e :| e in c.entries && AccountProblem(t.accounts, e.accountId, c.currency, c.unit).Some? {
      UnfitEntryMismatches(t, c, newId, e);
    }
  }

  lemma MismatchIsSeen(t: Tables, c: Normalized, newId: string)
    requires Consistent(t) && FindJournal(t.journals, newId).None?
    requires Mismatched(WriteJournal(t, c, newId), JournalFor(c, newId))
    ensures !TouchedAccountsFit(t.accounts, c)
  {
    var after, journal := WriteJournal(t, c, newId), JournalFor(c, newId);
    NoLinesBeforeJournal(t, newId);
    var l, a :| l in after.lines && a in after.accounts && l.journalId == journal.id && a.id == l.accountId
      && (l.currency != journal.currency || l.unit != journal.unit
          || a.currency != l.currency || a.unit != l.unit || !a.isActive);
    var i :| 0 <= i < |c.entries| && LinesFor(c, newId)[i] == l;
    assert c.entries[i] in c.entries;
    AccountIsFound(t.accounts, a);
  }

  lemma UnfitEntryMismatches(t: Tables, c: Normalized, newId: string, e: Entry)
    requires e in c.entries && FindAccount(t.accounts, e.accountId).Some?
    requires AccountProblem(t.accounts, e.accountId, c.currency, c.unit).Some?
    ensures Mismatched(WriteJournal(t, c, newId), JournalFor(c, newId))
  {
    var after := WriteJournal(t, c, newId);
    var a := FindAccount(t.accounts, e.accountId).value;
    var i :| 0 <= i < |c.entries| && c.entries[i] == e;
    assert LinesFor(c, newId)[i] in after.lines && a in after.accounts;
  }

  lemma TriggerSeesOverdraft(t: Tables, c: Normalized, newId: string)
    requires Consistent(t) && FindJournal(t.journals, newId).None?
    ensures TouchesOverdrawn(WriteJournal(t, c, newId), newId) <==> Overdraws(t, c, LockOrder(c.entries))
  {
    AccountChecks(t, c);
    if e :| e in c.entries && Short(t, c, e) { ShortEntryIsSeen(t, c, newId, e); }
    if TouchesOverdrawn(WriteJournal(t, c, newId), newId) {
      var e := OverdrawnIsShort(t, c, newId);
    }
  }

  lemma ShortEntryIsSeen(t: Tables, c: Normalized, newId: string, e: Entry)
    requires e in c.entries && Short(t, c, e)
    ensures TouchesOverdrawn(WriteJournal(t, c, newId), newId)
  {
    var after := WriteJournal(t, c, newId);
    var a := FindAccount(t.accounts, e.accountId).value;
    var i :| 0 <= i < |c.entries| && c.entries[i] == e;
    var l := LinesFor(c, newId)[i];
    assert l in after.lines && l.journalId == newId && l.accountId == a.id;
    ProjectionIsRecomputedBalance(t, c, newId, a);
    assert a in after.accounts;
  }

  lemma OverdrawnIsShort(t: Tables, c: Normalized, newId: string) returns (e: Entry)
    requires Consistent(t) && FindJournal(t.journals, newId).None?
    requires TouchesOverdrawn(WriteJournal(t, c, newId), newId)
    ensures e in c.entries && Short(t, c, e)
  {
    var after := WriteJournal(t, c, newId);
    var a :| a in after.accounts && !a.allowNegative
      && (exists l :: l in after.lines && l.journalId == newId && l.accountId == a.id) && Balance(after.lines, a) < 0;
    var l :| l in after.lines && l.journalId == newId && l.accountId == a.id;
    e := EntryOfLine(t, c, newId, l);
    AccountIsFound(t.accounts, a);
    ProjectionIsRecomputedBalance(t, c, newId, a);
  }

  lemma EntryOfLine(t: Tables, c: Normalized, newId: string, l: Line) returns (e: Entry)
    requires Consistent(t) && FindJournal(t.journals, newId).None?
    requires l in WriteJournal(t, c, newId).lines && l.journalId == newId
    ensures e in c.entries && e.accountId == l.accountId
  {
    NoLinesBeforeJournal(t, newId);
    var i :| 0 <= i < |c.entries| && LinesFor(c, newId)[i] == l;
    e := c.entries[i];
  }

  /**
   For any lines on existing accounts, of a reversal or not, the trigger's full re-aggregation accepts the written
   journal exactly when there are two lines, debits equal credits and the total, and the incremental checks pass.
   */
  lemma ChecksAreTheTrigger(t: Tables, c: Normalized, newId: string)
    requires Consistent(t) && FindJournal(t.journals, newId).None?
    requires forall e | e in c.entries :: FindAccount(t.accounts, e.accountId).Some?
    ensures TriggerAccepts(WriteJournal(t, c, newId), newId) <==>
      && |c.entries| >= 2 && SideTotal(c.entries, Debit) == SideTotal(c.entries, Credit) == c.total
      && AccountProblems(t.accounts, LockOrder(c.entries), c.currency, c.unit).None?
      && !Overdraws(t, c, LockOrder(c.entries))
  {
    AccountChecks(t, c);
    NoLinesBeforeJournal(t, newId);
    InsertedJournalSums(t, c, newId);
    FindJournalAppend(t.journals, JournalFor(c, newId), newId);
    TriggerSeesAccounts(t, c, newId);
    TriggerSeesOverdraft(t, c, newId);
  }

  /** A transaction that posts several commands, each with the id drawn for it. */
  datatype Posting = Posting(command: Normalized, newId: string)

  function PostAll(t: Tables, postings: seq<Posting>): Tables {
    if postings == [] then t
    else
      var last := postings[|postings| - 1];
      PostEffect(PostAll(t, postings[..|postings| - 1]), last.command, last.newId)
  }

  /** The journal was written by this transaction. */
  ghost predicate NewIn(t: Tables, after: Tables, id: string) {
    FindJournal(t.journals, id).None? && FindJournal(after.journals, id).Some?
  }

  lemma {:induction false} PostAllKeeps(t: Tables, postings: seq<Posting>)
    requires Consistent(t) && forall p | p in postings :: WellPosed(p.command)
    ensures Consistent(PostAll(t, postings)) && PostAll(t, postings).accounts == t.accounts
    ensures forall id | NewIn(t, PostAll(t, postings), id) :: TouchedAreActive(PostAll(t, postings), id)
  {
    if postings != [] {
      var front, last := postings[..|postings| - 1], postings[|postings| - 1];
      assert forall p | p in front :: p in postings;
      assert last in postings;
      PostAllKeeps(t, front);
      var before := PostAll(t, front);
      PostKeepsConsistent(before, last.command, last.newId);
      var after := PostAll(t, postings);
      if PostOutcome(before, last.command, last.newId).Written? {
        forall id | NewIn(t, after, id) ensures TouchedAreActive(after, id) {
          FindJournalAppend(before.journals, JournalFor(last.command, last.newId), id);
          WriteKeepsActive(before, last.command, last.newId, id);
        }
      }
    }
  }

  ghost predicate TouchedAreActive(t: Tables, id: string) {
    forall l, a | l in t.lines && a in t.accounts && l.journalId == id && a.id == l.accountId :: a.isActive
  }

  lemma WriteKeepsActive(t: Tables, c: Normalized, newId: string, id: string)
    requires Consistent(t) && PostOutcome(t, c, newId).Written?
    requires id == newId || TouchedAreActive(t, id)
    ensures TouchedAreActive(WriteJournal(t, c, newId), id)
  {
    var after := WriteJournal(t, c, newId);
    AccountChecks(t, c);
    NoLinesBeforeJournal(t, newId);
    forall l, a | l in after.lines && a in after.accounts && l.journalId == id && a.id == l.accountId
      ensures a.isActive
    {
      if l !in t.lines {
        var i :| 0 <= i < |c.entries| && LinesFor(c, newId)[i] == l;
        assert c.entries[i] in c.entries;
        AccountIsFound(t.accounts, a);
      }
    }
  }

  /** At commit, after any number of posts in one transaction, the trigger accepts every journal they wrote. */
  lemma TriggerAcceptsTransaction(t: Tables, postings: seq<Posting>, id: string)
    requires Consistent(t) && forall p | p in postings :: WellPosed(p.command)
    requires NewIn(t, PostAll(t, postings), id)
    ensures TriggerAccepts(PostAll(t, postings), id)
    ensures FindJournal(PostAll(t, postings).journals, id).value.total > 0
  {
    var after := PostAll(t, postings);
    PostAllKeeps(t, postings);
    var journal := FindJournal(after.journals, id).value;
    assert JournalBalanced(after, journal);
    forall l, a | l in after.lines && a in after.accounts && l.journalId == id && a.id == l.accountId
      ensures l.currency == journal.currency == a.currency && l.unit == journal.unit == a.unit
    {
      assert LineInPlace(after, l);
      AccountIsFound(after.accounts, a);
    }
  }
}
