/** What `postJournal` answers, attempt by attempt, in terms of the rows the deciding attempt sees. */
module LedgerReplies {
  import opened Prelude
  import opened LedgerTables
  import opened LedgerCommands
  import opened LedgerPosting
  import opened LedgerService
  import opened LedgerInvariant
  import opened LedgerIdentity
  import opened Fingerprint
  import opened LedgerClients
  import opened LedgerOutcome
  import opened LedgerRetry

  // ------------------------------------------------------------------------------------------- what a journal keeps

  /** A written journal stands for exactly the command it was written for. */
  lemma StoredIsCommand(t: Tables, c: Normalized, newId: string)
    requires Consistent(t) && FindJournal(t.journals, newId).None?
    ensures CommandOf(WriteJournal(t, c, newId), JournalFor(c, newId)) == c
    ensures JournalFor(c, newId).id == newId && WriteJournal(t, c, newId).journals == t.journals + [JournalFor(c, newId)]
  {
    WriteKeepsEntries(t, c, newId, newId);
  }

  /** Its rows are the command's lines in their order, numbered from one, in the journal's book. */
  lemma WrittenRows(t: Tables, c: Normalized, newId: string, i: nat)
    requires i < |c.entries|
    ensures |WriteJournal(t, c, newId).lines| == |t.lines| + |c.entries|
    ensures WriteJournal(t, c, newId).lines[..|t.lines|] == t.lines
    ensures WriteJournal(t, c, newId).lines[|t.lines| + i] ==
      Line(newId, c.entries[i].accountId, i + 1, c.entries[i].direction, c.entries[i].amount, c.currency, c.unit)
  {
  }

  // -------------------------------------------------------------------------------------------------- the attempts

  /** The tables that attempt n sees, all attempts before it having been aborted. */
  function SeenAt(t: Tables, turns: seq<Turn>, n: nat): Tables
    requires n < |turns|
  {
    CommitAll(if n == 0 then t else SeenAt(t, turns, n - 1), turns[n].rivals)
  }

  ghost predicate AbortedBefore(turns: seq<Turn>, n: nat) {
    n <= |turns| && forall i | 0 <= i < n :: turns[i].fate.Aborts?
  }

  lemma {:induction false} AbortsAreRetried(t: Tables, c: Normalized, turns: seq<Turn>, n: nat)
    requires |turns| == 3 && n < 3 && AbortedBefore(turns, n)
    ensures Retried(t, c, turns, 0) == Retried(if n == 0 then t else SeenAt(t, turns, n - 1), c, turns, n)
  {
    if n > 0 { AbortsAreRetried(t, c, turns, n - 1); }
  }

  ghost predicate ProperRivals(rivals: seq<Rival>) {
    forall r | r in rivals && r.Posts? :: Proper(r.command)
  }

  lemma {:induction false} CommitAllKeepsSound(t: Tables, rivals: seq<Rival>)
    requires Consistent(t) && Recorded(t) && ProperRivals(rivals)
    ensures Consistent(CommitAll(t, rivals)) && Recorded(CommitAll(t, rivals))
  {
    if rivals != [] {
      var front, last := rivals[..|rivals| - 1], rivals[|rivals| - 1];
      assert last in rivals && forall r | r in front :: r in rivals;
      CommitAllKeepsSound(t, front);
      match last
      case Posts(command, newId) => CommitKeepsTables(CommitAll(t, front), command, newId);
      case Opens(account, newId) =>
        CreateKeepsConsistent(CommitAll(t, front), account, newId);
        OpenGrows(CommitAll(t, front), account, newId);
    }
  }

  lemma {:induction false} SeenIsSound(t: Tables, turns: seq<Turn>, n: nat)
    requires Consistent(t) && Recorded(t) && n < |turns| && forall k | 0 <= k < |turns| :: ProperRivals(turns[k].rivals)
    ensures Consistent(SeenAt(t, turns, n)) && Recorded(SeenAt(t, turns, n))
  {
    if n > 0 { SeenIsSound(t, turns, n - 1); }
    CommitAllKeepsSound(if n == 0 then t else SeenAt(t, turns, n - 1), turns[n].rivals);
  }

  ghost predicate HasKey(t: Tables, j: Journal, key: string) {
    j in t.journals && j.key == key
  }

  /** A key is answered with the journal that has it when that stands for the same request, else with a conflict. */
  ghost predicate AnswersKey(t: Tables, c: Normalized, reply: Phase) {
    forall j | HasKey(t, j, c.key) ::
      reply == if SameRequest(CommandOf(t, j), c) then Done(j.id, Some(c)) else Refused(Business(Conflict))
  }

  /** The journal can be written: its accounts are open and covered, and what it reverses can be. */
  ghost predicate Writable(t: Tables, c: Normalized, newId: string) {
    && (forall e | e in c.entries :: Open(t, c, e.accountId)) && Covered(t, c, newId)
    && Reversible(t, c) && NotYetReversed(t, c)
  }

  ghost predicate NewTo(t: Tables, c: Normalized, newId: string) {
    forall j | j in t.journals :: j.key != c.key && j.id != newId
  }

  /** The first attempt that is not aborted reaches the end of its transaction. */
  lemma CommittedAttemptAnswers(t: Tables, c: Normalized, turns: seq<Turn>, n: nat, newId: string)
    requires Consistent(t) && Recorded(t) && Proper(c) && |turns| == 3 && n < 3
    requires AbortedBefore(turns, n) && turns[n].fate == Commits(newId)
    requires forall k | 0 <= k < |turns| :: ProperRivals(turns[k].rivals)
    ensures var seen, (after, reply) := SeenAt(t, turns, n), Retried(t, c, turns, 0);
      && AnswersKey(seen, c, reply) && ((exists j :: HasKey(seen, j, c.key)) ==> after == seen)
      && (NewTo(seen, c, newId) ==>
            if Writable(seen, c, newId) then after == WriteJournal(seen, c, newId) && reply == Done(newId, Some(c))
            else after == seen && reply.Refused? && reply.refusal.Business?)
  {
    AbortsAreRetried(t, c, turns, n);
    SeenIsSound(t, turns, n);
    CommitAnswers(SeenAt(t, turns, n), c, newId);
  }

  lemma CommitAnswers(seen: Tables, c: Normalized, newId: string)
    requires Consistent(seen) && Recorded(seen) && Proper(c)
    ensures var after, reply := PostEffect(seen, c, newId), Settled(c, PostOutcome(seen, c, newId));
      && AnswersKey(seen, c, reply) && ((exists j :: HasKey(seen, j, c.key)) ==> after == seen)
      && (NewTo(seen, c, newId) ==>
            if Writable(seen, c, newId) then after == WriteJournal(seen, c, newId) && reply == Done(newId, Some(c))
            else after == seen && reply.Refused? && reply.refusal.Business?)
  {
    forall j | HasKey(seen, j, c.key) { ReplayAnswersExactly(seen, c, j, newId); }
    if NewTo(seen, c, newId) { NewKeyAnswers(seen, c, newId); }
  }

  lemma NewKeyAnswers(seen: Tables, c: Normalized, newId: string)
    requires Consistent(seen) && NewTo(seen, c, newId)
    ensures var after, reply := PostEffect(seen, c, newId), Settled(c, PostOutcome(seen, c, newId));
      if Writable(seen, c, newId) then after == WriteJournal(seen, c, newId) && reply == Done(newId, Some(c))
      else after == seen && reply.Refused? && reply.refusal.Business?
  {
    WrittenExactly(seen, c, newId);
    if !Writable(seen, c, newId) { OthersAreRefused(seen, c, newId); }
  }

  lemma OthersAreRefused(seen: Tables, c: Normalized, newId: string)
    requires NewTo(seen, c, newId) && PostOutcome(seen, c, newId) != Written(newId)
    ensures Settled(c, PostOutcome(seen, c, newId)).Refused?
    ensures Settled(c, PostOutcome(seen, c, newId)).refusal.Business?
  {
    NewKeyOutcome(seen, c, newId);
  }

  /** A lost race is answered from the rows that stand when the winner is looked up. */
  lemma LostAttemptAnswers(t: Tables, c: Normalized, turns: seq<Turn>, n: nat)
    requires Consistent(t) && Recorded(t) && Proper(c) && |turns| == 3 && n < 3
    requires AbortedBefore(turns, n) && turns[n].fate.KeyTaken? && ProperRivals(turns[n].late)
    requires forall k | 0 <= k < |turns| :: ProperRivals(turns[k].rivals)
    ensures var later := CommitAll(SeenAt(t, turns, n), turns[n].late);
      && Retried(t, c, turns, 0).0 == later && AnswersKey(later, c, Retried(t, c, turns, 0).1)
  {
    AbortsAreRetried(t, c, turns, n);
    SeenIsSound(t, turns, n);
    CommitAllKeepsSound(SeenAt(t, turns, n), turns[n].late);
    var later := CommitAll(SeenAt(t, turns, n), turns[n].late);
    assert Retried(t, c, turns, 0) == (later, Resolved(later, c));
    ResolvedAnswers(later, c);
  }

  lemma ResolvedAnswers(t: Tables, c: Normalized)
    requires Consistent(t) && Recorded(t) && Proper(c)
    ensures AnswersKey(t, c, Resolved(t, c))
  {
    forall j | HasKey(t, j, c.key)
      ensures Resolved(t, c) == if SameRequest(CommandOf(t, j), c) then Done(j.id, Some(c)) else Refused(Business(Conflict))
    {
      JournalIsFound(t.journals, j);
      FingerprintIdentifiesRequest(CommandOf(t, j), c);
    }
  }

  /** Three aborts end the loop with the driver's error; a reversal that lost its race is a conflict. */
  lemma FailedAttemptAnswers(t: Tables, c: Normalized, turns: seq<Turn>, n: nat)
    requires |turns| == 3 && n < 3 && AbortedBefore(turns, n)
    ensures turns[n].fate.Aborts? && n == 2 ==> Retried(t, c, turns, 0) == (SeenAt(t, turns, n), Refused(Driver))
    ensures turns[n].fate.ReversalTaken? ==>
      Retried(t, c, turns, 0) == (SeenAt(t, turns, n), Refused(Business(Conflict)))
  {
    AbortsAreRetried(t, c, turns, n);
  }
}
