/** When a post answers an earlier one, when it is written, and what it is refused for, in terms of the rows. */
module LedgerOutcome {
  import opened Prelude
  import opened Utf16
  import opened Order
  import opened LedgerTables
  import opened LedgerCommands
  import opened LedgerPosting
  import opened LedgerInvariant
  import opened Fingerprint
  import opened LedgerClients

  /**
   A key that is taken: the post answers the journal that has it if and only if it asks for what that journal stands
   for, is a conflict otherwise, and writes nothing either way.
   */
  lemma ReplayAnswersExactly(t: Tables, c: Normalized, j: Journal, newId: string)
    requires Consistent(t) && Recorded(t) && Proper(c) && j in t.journals && j.key == c.key
    ensures PostOutcome(t, c, newId) == Existing(j.id) <==> SameRequest(CommandOf(t, j), c)
    ensures PostOutcome(t, c, newId) == Rejected(Conflict) <==> !SameRequest(CommandOf(t, j), c)
    ensures PostEffect(t, c, newId) == t
  {
    JournalIsFound(t.journals, j);
    FingerprintIdentifiesRequest(CommandOf(t, j), c);
  }

  // ------------------------------------------------------------------------------------------------- a new key

  /** The account is there, active, and of the journal's currency and unit. */
  ghost predicate Open(t: Tables, c: Normalized, id: string) {
    exists a :: a in t.accounts && a.id == id && a.isActive && a.currency == c.currency && a.unit == c.unit
  }

  ghost predicate Missing(t: Tables, id: string) {
    forall a | a in t.accounts :: a.id != id
  }

  ghost predicate Touches(c: Normalized, id: string) {
    exists e :: e in c.entries && e.accountId == id
  }

  /** With the journal in place no protected account has a negative balance. */
  ghost predicate Covered(t: Tables, c: Normalized, newId: string) {
    forall a | a in t.accounts && !a.allowNegative :: Balance(WriteJournal(t, c, newId).lines, a) >= 0
  }

  /** What the command names, if anything, is a journal that is not a reversal itself. */
  ghost predicate Reversible(t: Tables, c: Normalized) {
    c.reversalOf.Some? ==> exists j :: j in t.journals && j.id == c.reversalOf.value && j.reversalOf.None?
  }

  ghost predicate NotYetReversed(t: Tables, c: Normalized) {
    c.reversalOf.Some? ==> forall j | j in t.journals :: j.reversalOf != c.reversalOf
  }

  lemma ProblemIsNotOpen(t: Tables, c: Normalized, id: string)
    requires Consistent(t)
    ensures AccountProblem(t.accounts, id, c.currency, c.unit).None? <==> Open(t, c, id)
    ensures AccountProblem(t.accounts, id, c.currency, c.unit) == Some(NotFound) <==> Missing(t, id)
    ensures AccountProblem(t.accounts, id, c.currency, c.unit) in {None, Some(NotFound), Some(Conflict)}
  {
    var found := FindAccount(t.accounts, id);
    if found.Some? { assert found.value in t.accounts && found.value.id == id; }
    forall a | a in t.accounts && a.id == id ensures found == Some(a) { AccountIsFound(t.accounts, a); }
  }

  lemma OverdraftIsUncovered(t: Tables, c: Normalized, newId: string)
    requires Consistent(t)
    ensures Overdraws(t, c, LockOrder(c.entries)) <==> !Covered(t, c, newId)
  {
    AccountChecks(t, c);
    forall a | a in t.accounts
      ensures Balance(WriteJournal(t, c, newId).lines, a) == Projected(t, c, a) && FindAccount(t.accounts, a.id) == Some(a)
    {
      ProjectionIsRecomputedBalance(t, c, newId, a);
      AccountIsFound(t.accounts, a);
    }
    if e :| e in c.entries && Short(t, c, e) {
      assert FindAccount(t.accounts, e.accountId).value in t.accounts;
    }
    if a :| a in t.accounts && !a.allowNegative && Projected(t, c, a) < 0 {
      if forall e | e in c.entries :: e.accountId != a.id {
        UntouchedProjection(t, c, a);
        assert false;
      }
      var e :| e in c.entries && e.accountId == a.id;
      assert Short(t, c, e);
    }
  }

  lemma ReversalIsReversible(t: Tables, c: Normalized)
    requires Consistent(t)
    ensures ReversalProblem(t, c).None? <==> Reversible(t, c)
    ensures ReversalProblem(t, c) == Some(NotFound) <==>
      c.reversalOf.Some? && forall j | j in t.journals :: j.id != c.reversalOf.value
    ensures ReversalProblem(t, c) in {None, Some(NotFound), Some(Conflict)}
  {
    if c.reversalOf.Some? {
      var found := FindJournal(t.journals, c.reversalOf.value);
      forall j | j in t.journals && j.id == c.reversalOf.value ensures found == Some(j) { JournalIsFound(t.journals, j); }
    }
  }

  lemma ReversedIsNamed(t: Tables, id: string)
    ensures IsReversed(t.journals, id) <==> exists j :: j in t.journals && j.reversalOf == Some(id)
  {
    if IsReversed(t.journals, id) {
      var i :| 0 <= i < |t.journals| && t.journals[i].reversalOf == Some(id);
      assert t.journals[i] in t.journals;
    }
    if j :| j in t.journals && j.reversalOf == Some(id) {
      var i :| 0 <= i < |t.journals| && t.journals[i] == j;
    }
  }

  /**
   A new key and a fresh id: the journal is written if and only if every touched account is there, active and in the
   book, no protected account would have a negative balance, and a named original exists, is no reversal and has none.
   */
  lemma WrittenExactly(t: Tables, c: Normalized, newId: string)
    requires Consistent(t)
    requires forall j | j in t.journals :: j.key != c.key && j.id != newId
    ensures PostOutcome(t, c, newId) == Written(newId) <==>
      && (forall e | e in c.entries :: Open(t, c, e.accountId)) && Covered(t, c, newId)
      && Reversible(t, c) && NotYetReversed(t, c)
    ensures PostEffect(t, c, newId) == if PostOutcome(t, c, newId) == Written(newId) then WriteJournal(t, c, newId) else t
  {
    NewKeyOutcome(t, c, newId);
    AccountChecks(t, c);
    forall e | e in c.entries { ProblemIsNotOpen(t, c, e.accountId); }
    OverdraftIsUncovered(t, c, newId);
    ReversalIsReversible(t, c);
    if c.reversalOf.Some? { ReversedIsNamed(t, c.reversalOf.value); }
  }

  lemma NewKeyOutcome(t: Tables, c: Normalized, newId: string)
    requires forall j | j in t.journals :: j.key != c.key && j.id != newId
    ensures FindKey(t.journals, c.key).None? && FindJournal(t.journals, newId).None?
    ensures PostOutcome(t, c, newId).Written? ==> PostOutcome(t, c, newId).id == newId
    ensures PostOutcome(t, c, newId).Written? <==>
      && AccountProblems(t.accounts, LockOrder(c.entries), c.currency, c.unit).None?
      && !Overdraws(t, c, LockOrder(c.entries)) && ReversalProblem(t, c).None?
      && !(c.reversalOf.Some? && IsReversed(t.journals, c.reversalOf.value))
    ensures !PostOutcome(t, c, newId).Existing?
  {
  }

  // ------------------------------------------------------------------------------------------------- what is refused

  lemma {:induction false} FirstProblem(accounts: seq<Account>, ids: seq<string>, currency: string, unit: string)
    returns (k: nat)
    requires AccountProblems(accounts, ids, currency, unit).Some?
    ensures k < |ids| && AccountProblems(accounts, ids, currency, unit) == AccountProblem(accounts, ids[k], currency, unit)
    ensures forall i | 0 <= i < k :: AccountProblem(accounts, ids[i], currency, unit).None?
  {
    var front := ids[..|ids| - 1];
    if AccountProblems(accounts, front, currency, unit).Some? {
      k := FirstProblem(accounts, front, currency, unit);
    } else {
      NoProblems(accounts, front, currency, unit);
      k := |ids| - 1;
      assert forall i | 0 <= i < k :: ids[i] == front[i];
    }
  }

  /** Among the touched accounts that are not open, the first by UTF-16 code units. */
  ghost predicate FirstClosed(t: Tables, c: Normalized, id: string) {
    && Touches(c, id) && !Open(t, c, id)
    && forall other | Touches(c, other) && Before(Units(other), Units(id)) :: Open(t, c, other)
  }

  lemma RefusedAccountIsFirst(t: Tables, c: Normalized) returns (id: string)
    requires Consistent(t) && AccountProblems(t.accounts, LockOrder(c.entries), c.currency, c.unit).Some?
    ensures FirstClosed(t, c, id)
    ensures AccountProblems(t.accounts, LockOrder(c.entries), c.currency, c.unit) ==
      Some(if Missing(t, id) then NotFound else Conflict)
  {
    var ids := LockOrder(c.entries);
    LockOrderIsAscending(c.entries);
    var k := FirstProblem(t.accounts, ids, c.currency, c.unit);
    id := ids[k];
    assert id in ids;
    ProblemIsNotOpen(t, c, id);
    forall other | Touches(c, other) && Before(Units(other), Units(id)) ensures Open(t, c, other) {
      assert other in ids;
      var i :| 0 <= i < |ids| && ids[i] == other;
      LessIsUnitOrder(other, id);
      LessTotal(other, id);
      assert i < k;
      ProblemIsNotOpen(t, c, other);
    }
  }

  /** A new key and a fresh id: the first check that fails decides the error, and nothing is written. */
  lemma RefusedFor(t: Tables, c: Normalized, newId: string)
    requires Consistent(t)
    requires forall j | j in t.journals :: j.key != c.key && j.id != newId
    ensures var outcome := PostOutcome(t, c, newId);
      if exists e :: e in c.entries && !Open(t, c, e.accountId) then
        exists id :: FirstClosed(t, c, id) && outcome == Rejected(if Missing(t, id) then NotFound else Conflict)
      else if !Covered(t, c, newId) then outcome == Rejected(Unprocessable)
      else if !Reversible(t, c) then
        outcome == Rejected(if forall j | j in t.journals :: j.id != c.reversalOf.value then NotFound else Conflict)
      else if !NotYetReversed(t, c) then outcome == Violation(ReversalOf)
      else outcome == Written(newId)
  {
    WrittenExactly(t, c, newId);
    AccountChecks(t, c);
    forall e | e in c.entries { ProblemIsNotOpen(t, c, e.accountId); }
    OverdraftIsUncovered(t, c, newId);
    ReversalIsReversible(t, c);
    if AccountProblems(t.accounts, LockOrder(c.entries), c.currency, c.unit).Some? {
      var id := RefusedAccountIsFirst(t, c);
    }
  }

  // -------------------------------------------------------------------------------------------------- among clients

  lemma StoredIsAnswered(t: Tables, c: Normalized, j: Journal)
    requires Consistent(t) && Recorded(t) && Proper(c)
    requires j in t.journals && j.key == c.key && SameRequest(CommandOf(t, j), c)
    ensures FindKey(t.journals, c.key) == Some(j) && j.requestHash == c.requestHash
  {
    JournalIsFound(t.journals, j);
    FingerprintIdentifiesRequest(CommandOf(t, j), c);
  }

  lemma StoredAnswers(s: System, i: nat, c: Normalized, j: Journal, newId: string)
    requires i < |s.clients| && FindKey(s.t.journals, c.key) == Some(j) && j.requestHash == c.requestHash
    requires s.clients[i].phase.Trying? || s.clients[i].phase.LostRace?
    requires s.clients[i].phase.command == c
    ensures var step := if s.clients[i].phase.Trying? then Attempt(i, Commits(newId)) else Resolve(i);
      Next(s, step).clients[i].phase == Done(j.id, Some(c)) && Next(s, step).t == s.t
  {
  }

  /** Whoever asks again for what is stored under the key is answered with it, also after a lost race. */
  lemma SameRequestSucceeds(s: System, i: nat, c: Normalized, j: Journal, newId: string)
    requires Inv(s) && i < |s.clients| && j in s.t.journals && j.key == c.key && SameRequest(CommandOf(s.t, j), c)
    requires s.clients[i].phase.Trying? || s.clients[i].phase.LostRace?
    requires s.clients[i].phase.command == c
    ensures var step := if s.clients[i].phase.Trying? then Attempt(i, Commits(newId)) else Resolve(i);
      Next(s, step).clients[i].phase == Done(j.id, Some(c)) && Next(s, step).t == s.t
  {
    assert PhaseInv(s.t, s.clients[i].phase);
    StoredIsAnswered(s.t, c, j);
    StoredAnswers(s, i, c, j, newId);
  }
}
