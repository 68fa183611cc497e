/**
 The retry loop of `postJournal` as it is written, with rivals committing around its attempts, and the proof that a
 client of LedgerClients goes through exactly this loop.
 */
module LedgerRetry {
  import opened Prelude
  import opened LedgerTables
  import opened LedgerCommands
  import opened LedgerPosting
  import opened LedgerService
  import opened LedgerInvariant
  import opened LedgerClients

  /** What another client commits. */
  datatype Rival = Posts(command: Normalized, newId: string) | Opens(account: AccountCommand, newId: string)

  function CommitRival(t: Tables, rival: Rival): Tables {
    match rival
    case Posts(command, newId) => PostEffect(t, command, newId)
    case Opens(account, newId) => CreateEffect(t, account, newId)
  }

  function CommitAll(t: Tables, rivals: seq<Rival>): Tables {
    if rivals == [] then t else CommitRival(CommitAll(t, rivals[..|rivals| - 1]), rivals[|rivals| - 1])
  }

  /**
   What happens around one attempt: rivals commit, the attempt meets its fate, and when it has lost its key more rivals
   commit before the winner is looked up.
   */
  datatype Turn = Turn(rivals: seq<Rival>, fate: Fate, late: seq<Rival>)

  /** The tables and the caller's answer after the attempts that are left. */
  function Retried(t: Tables, c: Normalized, turns: seq<Turn>, attempt: nat): (Tables, Phase)
    requires attempt <= |turns|
    decreases |turns| - attempt
  {
    if attempt == |turns| then (t, Refused(Business(Conflict)))
    else
      var seen := CommitAll(t, turns[attempt].rivals);
      match turns[attempt].fate
      case Commits(newId) => (PostEffect(seen, c, newId), Settled(c, PostOutcome(seen, c, newId)))
      case Aborts =>
        if attempt == LAST_ATTEMPT then (seen, Refused(Driver)) else Retried(seen, c, turns, attempt + 1)
      case KeyTaken =>
        var later := CommitAll(seen, turns[attempt].late);
        (later, Resolved(later, c))
      case ReversalTaken => (seen, Refused(Business(Conflict)))
  }

  method CommitRivals(store: LedgerStore, rivals: seq<Rival>)
    modifies store
    ensures store.Contents() == CommitAll(old(store.Contents()), rivals)
  {
    for i := 0 to |rivals|
      invariant store.Contents() == CommitAll(old(store.Contents()), rivals[..i])
    {
      assert rivals[..i + 1][..i] == rivals[..i];
      match rivals[i] {
        case Posts(command, newId) =>
          var outcome := store.PostWithinTransaction(command, newId);
        case Opens(account, newId) =>
          var opening := store.CreateAccount(account, newId);
      }
    }
    assert rivals[..|rivals|] == rivals;
  }

  /** `postJournal`: the loop over at most three attempts, with rivals committing before each of them. */
  method PostJournal(store: LedgerStore, command: Command, turns: seq<Turn>) returns (reply: Phase)
    requires |turns| == LAST_ATTEMPT + 1
    modifies store
    ensures var c := Normalize(command);
      if c.Success? then (store.Contents(), reply) == Retried(old(store.Contents()), c.value, turns, 0)
      else reply == Refused(Business(c.error)) && store.Contents() == old(store.Contents())
  {
    var normalized := NormalizeJournal(command);
    if normalized.Failure? {
      return Refused(Business(normalized.error));
    }
    var c := normalized.value;
    for attempt := 0 to |turns|
      invariant Retried(old(store.Contents()), c, turns, 0) == Retried(store.Contents(), c, turns, attempt)
    {
      CommitRivals(store, turns[attempt].rivals);
      match turns[attempt].fate {
        case Commits(newId) =>
          var outcome := store.PostWithinTransaction(c, newId);
          return Settled(c, outcome);
        case Aborts =>
          if attempt == LAST_ATTEMPT {
            return Refused(Driver);
          }
        case KeyTaken =>
          CommitRivals(store, turns[attempt].late);
          var existing := FindKey(store.journals, c.key);
          if existing.Some? && existing.value.requestHash == c.requestHash {
            return Done(existing.value.id, Some(c));
          }
          return Refused(Business(Conflict));
        case ReversalTaken =>
          return Refused(Business(Conflict));
      }
    }
    reply := Refused(Business(Conflict));
  }

  // ------------------------------------------------------------------------------------------- what the loop answers

  ghost predicate WellPosedRivals(rivals: seq<Rival>) {
    forall r | r in rivals && r.Posts? :: WellPosed(r.command)
  }

  lemma {:induction false} CommitAllKeepsConsistent(t: Tables, rivals: seq<Rival>)
    requires Consistent(t) && WellPosedRivals(rivals)
    ensures Consistent(CommitAll(t, rivals))
  {
    if rivals != [] {
      var front, last := rivals[..|rivals| - 1], rivals[|rivals| - 1];
      assert last in rivals && forall r | r in front :: r in rivals;
      CommitAllKeepsConsistent(t, front);
      match last
      case Posts(command, newId) => PostKeepsConsistent(CommitAll(t, front), command, newId);
      case Opens(account, newId) => CreateKeepsConsistent(CommitAll(t, front), account, newId);
    }
  }

  ghost predicate SoundReply(u: Tables, c: Normalized, reply: Phase) {
    Consistent(u) && (reply.Done? ==> reply.posted == Some(c) && Answered(u, c, reply.id))
  }

  lemma CommitIsSound(t: Tables, c: Normalized, newId: string)
    requires Consistent(t) && Proper(c)
    ensures SoundReply(PostEffect(t, c, newId), c, Settled(c, PostOutcome(t, c, newId)))
  {
    PostKeepsConsistent(t, c, newId);
    OutcomeAnswers(t, c, newId);
  }

  /** A successful answer of the retry loop names the committed journal with the caller's key and fingerprint. */
  lemma {:induction false} RetriedAnswers(t: Tables, c: Normalized, turns: seq<Turn>, attempt: nat)
    requires Consistent(t) && Proper(c) && attempt <= |turns|
    requires forall k | 0 <= k < |turns| :: WellPosedRivals(turns[k].rivals) && WellPosedRivals(turns[k].late)
    ensures SoundReply(Retried(t, c, turns, attempt).0, c, Retried(t, c, turns, attempt).1)
    decreases |turns| - attempt
  {
    if attempt < |turns| {
      var seen := CommitAll(t, turns[attempt].rivals);
      CommitAllKeepsConsistent(t, turns[attempt].rivals);
      match turns[attempt].fate
      case Commits(newId) => CommitIsSound(seen, c, newId);
      case Aborts => RetriedAnswers(seen, c, turns, attempt + 1);
      case KeyTaken => CommitAllKeepsConsistent(seen, turns[attempt].late);
      case ReversalTaken =>
    }
  }

  // ------------------------------------------------------------------------------- the clients go through this loop

  predicate Finished(phase: Phase) {
    phase.Done? || phase.Refused?
  }

  /** The step at the end of the run, and no earlier one, gives client i its answer. */
  ghost predicate FinishesLast(s: System, i: nat, steps: seq<Step>) {
    && i < |s.clients| && steps != []
    && !Finished(ClientAfter(s, i, steps[..|steps| - 1])) && Finished(ClientAfter(s, i, steps))
  }

  lemma {:induction false} SameClients(s: System, steps: seq<Step>)
    ensures |RunFrom(s, steps).clients| == |s.clients|
  {
    if steps != [] { SameClients(s, steps[..|steps| - 1]); }
  }

  ghost function ClientAfter(s: System, i: nat, steps: seq<Step>): Phase
    requires i < |s.clients|
  {
    SameClients(s, steps);
    RunFrom(s, steps).clients[i].phase
  }

  lemma {:induction false} FirstStepFirst(s: System, steps: seq<Step>)
    requires steps != []
    ensures RunFrom(s, steps) == RunFrom(Next(s, steps[0]), steps[1..])
  {
    if |steps| > 1 {
      var front := steps[..|steps| - 1];
      FirstStepFirst(s, front);
      assert steps[1..][..|steps| - 2] == front[1..] && steps[1..][|steps| - 2] == steps[|steps| - 1];
    } else {
      assert steps[..0] == [] && steps[1..] == [];
      assert RunFrom(s, steps) == Next(RunFrom(s, []), steps[0]);
    }
  }

  lemma FinishedStays(s: System, i: nat, step: Step)
    requires i < |s.clients| && Finished(s.clients[i].phase)
    ensures |Next(s, step).clients| == |s.clients| && Next(s, step).clients[i].phase == s.clients[i].phase
  {
  }

  lemma {:induction false} FinishedForGood(s: System, i: nat, steps: seq<Step>)
    requires i < |s.clients| && Finished(s.clients[i].phase)
    ensures ClientAfter(s, i, steps) == s.clients[i].phase
  {
    if steps != [] {
      FinishedForGood(s, i, steps[..|steps| - 1]);
      SameClients(s, steps[..|steps| - 1]);
      FinishedStays(RunFrom(s, steps[..|steps| - 1]), i, steps[|steps| - 1]);
    }
  }

  /** After the first step the rest of the run still finishes last, and the client is not finished yet. */
  lemma RestFinishesLast(s: System, i: nat, steps: seq<Step>)
    requires FinishesLast(s, i, steps) && |steps| > 1
    ensures FinishesLast(Next(s, steps[0]), i, steps[1..])
    ensures !Finished(Next(s, steps[0]).clients[i].phase)
    ensures RunFrom(Next(s, steps[0]), steps[1..]) == RunFrom(s, steps)
  {
    var front, rest := steps[..|steps| - 1], steps[1..];
    FirstStepFirst(s, steps);
    FirstStepFirst(s, front);
    assert front[1..] == rest[..|rest| - 1];
    if Finished(Next(s, steps[0]).clients[i].phase) { FinishedForGood(Next(s, steps[0]), i, front[1..]); }
  }

  /** What a step commits for others. */
  function RivalsIn(s: System, step: Step): seq<Rival> {
    match step
    case Attempt(k, Commits(newId)) =>
      if k < |s.clients| && s.clients[k].phase.Trying? then [Posts(s.clients[k].phase.command, newId)] else []
    case OpenAccount(account, newId) => [Opens(account, newId)]
    case _ => []
  }

  lemma StepCommits(s: System, step: Step)
    ensures Next(s, step).t == CommitAll(s.t, RivalsIn(s, step))
  {
    var rivals := RivalsIn(s, step);
    if rivals != [] { assert rivals[..0] == [] && CommitAll(s.t, rivals[..0]) == s.t; }
  }

  lemma {:induction false} CommitAllAppend(t: Tables, a: seq<Rival>, b: seq<Rival>)
    ensures CommitAll(t, a + b) == CommitAll(CommitAll(t, a), b)
  {
    if b == [] {
      assert a + b == a;
    } else {
      assert (a + b)[..|a + b| - 1] == a + b[..|b| - 1];
      CommitAllAppend(t, a, b[..|b| - 1]);
    }
  }

  /** The turns before an attempt do not matter to it. */
  lemma {:induction false} PastTurnsDoNotMatter(t: Tables, c: Normalized, a: seq<Turn>, b: seq<Turn>, attempt: nat)
    requires attempt <= |a| == |b| && a[attempt..] == b[attempt..]
    ensures Retried(t, c, a, attempt) == Retried(t, c, b, attempt)
    decreases |a| - attempt
  {
    if attempt < |a| {
      assert a[attempt] == a[attempt..][0] == b[attempt];
      assert a[attempt + 1..] == a[attempt..][1..] && b[attempt + 1..] == b[attempt..][1..];
      PastTurnsDoNotMatter(CommitAll(t, a[attempt].rivals), c, a, b, attempt + 1);
    }
  }

  /** Rivals that commit first are rivals of the next attempt. */
  lemma RivalsFirst(t: Tables, c: Normalized, rivals: seq<Rival>, turns: seq<Turn>, attempt: nat)
    requires attempt < |turns|
    ensures var more := turns[attempt := turns[attempt].(rivals := rivals + turns[attempt].rivals)];
      Retried(t, c, more, attempt) == Retried(CommitAll(t, rivals), c, turns, attempt)
  {
    var more := turns[attempt := turns[attempt].(rivals := rivals + turns[attempt].rivals)];
    CommitAllAppend(t, rivals, turns[attempt].rivals);
    PastTurnsDoNotMatter(CommitAll(t, more[attempt].rivals), c, more, turns, attempt + 1);
  }

  /** From a lost race on: rivals commit, then the winner is looked up. */
  lemma {:induction false} LostRaceSteps(s: System, i: nat, c: Normalized, steps: seq<Step>) returns (late: seq<Rival>)
    requires FinishesLast(s, i, steps) && s.clients[i].phase == LostRace(c)
    ensures RunFrom(s, steps).t == CommitAll(s.t, late)
    ensures ClientAfter(s, i, steps) == Resolved(RunFrom(s, steps).t, c)
    decreases |steps|
  {
    FirstStepFirst(s, steps);
    if |steps| == 1 {
      assert steps[1..] == [] && steps[..0] == [];
      assert RunFrom(s, steps) == Next(s, steps[0]);
      late := [];
    } else {
      RestFinishesLast(s, i, steps);
      var rest := LostRaceSteps(Next(s, steps[0]), i, c, steps[1..]);
      StepCommits(s, steps[0]);
      late := RivalsIn(s, steps[0]) + rest;
      CommitAllAppend(s.t, RivalsIn(s, steps[0]), rest);
    }
  }

  lemma OneStepIsRetried(s: System, i: nat, c: Normalized, attempt: nat, step: Step) returns (turns: seq<Turn>)
    requires i < |s.clients| && s.clients[i].phase == Trying(c, attempt) && attempt <= LAST_ATTEMPT
    requires Finished(Next(s, step).clients[i].phase)
    ensures |turns| == LAST_ATTEMPT + 1
    ensures Retried(s.t, c, turns, attempt) == (Next(s, step).t, Next(s, step).clients[i].phase)
  {
    turns := seq(LAST_ATTEMPT + 1, k => Turn([], step.fate, []));
  }

  /** A step that does not finish a client that is trying. */
  lemma UnfinishedStep(s: System, i: nat, c: Normalized, attempt: nat, step: Step)
    requires i < |s.clients| && s.clients[i].phase == Trying(c, attempt) && attempt <= LAST_ATTEMPT
    requires !Finished(Next(s, step).clients[i].phase)
    ensures var next := Next(s, step);
      || next.clients[i].phase == Trying(c, attempt)
      || (next.clients[i].phase == Trying(c, attempt + 1) && attempt < LAST_ATTEMPT && next.t == s.t)
      || (next.clients[i].phase == LostRace(c) && next.t == s.t)
  {
    if step.Attempt? && step.i == i {
      assert !step.fate.Commits?;
    }
  }

  lemma LostRaceIsRetried(t: Tables, c: Normalized, attempt: nat, late: seq<Rival>) returns (turns: seq<Turn>)
    requires attempt <= LAST_ATTEMPT
    ensures |turns| == LAST_ATTEMPT + 1
    ensures Retried(t, c, turns, attempt) == (CommitAll(t, late), Resolved(CommitAll(t, late), c))
  {
    turns := seq(LAST_ATTEMPT + 1, k => Turn([], KeyTaken, late));
  }

  lemma AbortIsRetried(t: Tables, c: Normalized, attempt: nat, rest: seq<Turn>) returns (turns: seq<Turn>)
    requires attempt < LAST_ATTEMPT && |rest| == LAST_ATTEMPT + 1
    ensures |turns| == LAST_ATTEMPT + 1
    ensures Retried(t, c, turns, attempt) == Retried(t, c, rest, attempt + 1)
  {
    turns := rest[attempt := Turn([], Aborts, [])];
    PastTurnsDoNotMatter(t, c, turns, rest, attempt + 1);
  }

  /**
   A client that has begun to post goes through the retry loop, whatever the others do in between: for any run that
   ends with its answer there are turns with which the loop leaves the same tables and gives the same answer.
   */
  lemma {:induction false} ClientsRunTheLoop(s: System, i: nat, c: Normalized, attempt: nat, steps: seq<Step>)
    returns (turns: seq<Turn>)
    requires FinishesLast(s, i, steps) && s.clients[i].phase == Trying(c, attempt) && attempt <= LAST_ATTEMPT
    ensures |turns| == LAST_ATTEMPT + 1
    ensures Retried(s.t, c, turns, attempt) == (RunFrom(s, steps).t, ClientAfter(s, i, steps))
    decreases |steps|
  {
    var step, next := steps[0], Next(s, steps[0]);
    FirstStepFirst(s, steps);
    if |steps| == 1 {
      assert steps[1..] == [];
      turns := OneStepIsRetried(s, i, c, attempt, step);
      return;
    }
    RestFinishesLast(s, i, steps);
    UnfinishedStep(s, i, c, attempt, step);
    var phase := next.clients[i].phase;
    if phase.LostRace? {
      var late := LostRaceSteps(next, i, c, steps[1..]);
      turns := LostRaceIsRetried(s.t, c, attempt, late);
    } else if phase == Trying(c, attempt) {
      var rest := ClientsRunTheLoop(next, i, c, attempt, steps[1..]);
      StepCommits(s, step);
      turns := rest[attempt := rest[attempt].(rivals := RivalsIn(s, step) + rest[attempt].rivals)];
      RivalsFirst(s.t, c, RivalsIn(s, step), rest, attempt);
    } else {
      var rest := ClientsRunTheLoop(next, i, c, attempt + 1, steps[1..]);
      turns := AbortIsRetried(s.t, c, attempt, rest);
    }
  }
}
