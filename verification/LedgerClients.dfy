/**
 Any number of clients posting and reversing concurrently.

 Under serializable isolation a transaction attempt is one atomic step with one of four fates; every other client may
 step in between.  The three-attempt loop and the resolution of a lost unique-key race are the clients' phases;
 LedgerRetry has the loop itself and shows that they are the same.
 */
module LedgerClients {
  import opened Prelude
  import opened JsText
  import opened Order
  import opened Json
  import opened LedgerTables
  import opened LedgerCommands
  import opened LedgerPosting
  import opened LedgerService
  import opened LedgerInvariant
  import opened LedgerIdentity
  import opened Fingerprint
  import opened Reversal

  datatype Request =
    | PostRequest(command: Command)
    | ReverseRequest(journalId: string, key: string, reason: Option<string>)

  /** A refused caller sees a business exception or the driver's error. */
  datatype Refusal = Business(error: Error) | Driver

  datatype Phase =
    | Idle
    | Trying(command: Normalized, attempt: nat)
    | LostRace(command: Normalized)
    | Done(id: string, posted: Option<Normalized>)
    | Refused(refusal: Refusal)

  datatype Client = Client(request: Request, phase: Phase)

  datatype System = System(t: Tables, clients: seq<Client>)

  /** What the database makes of one attempt; the last two are unique violations raised against a rival's row. */
  datatype Fate = Commits(newId: string) | Aborts | KeyTaken | ReversalTaken

  datatype Step =
    | Begin(i: nat)
    | Attempt(i: nat, fate: Fate)
    | Resolve(i: nat)
    | OpenAccount(account: AccountCommand, newId: string)

  const LAST_ATTEMPT := 2

  function Submit(command: Command): Phase {
    var c := Normalize(command);
    if c.Success? then Trying(c.value, 0) else Refused(Business(c.error))
  }

  function Started(t: Tables, request: Request): Phase {
    match request
    case PostRequest(command) => Submit(command)
    case ReverseRequest(journalId, key, reason) =>
      match PlanReversal(t, journalId, key, reason)
      case AlreadyReversedByKey(id) => Done(id, None)
      case Refuse(error) => Refused(Business(error))
      case Send(command) => Submit(command)
  }

  /** How the caller sees an attempt that was not aborted. */
  function Settled(c: Normalized, outcome: Outcome): Phase {
    match outcome
    case Existing(id) => Done(id, Some(c))
    case Written(id) => Done(id, Some(c))
    case Rejected(error) => Refused(Business(error))
    case Violation(broken) => Refused(if broken.ReversalOf? then Business(Conflict) else Driver)
  }

  /** One turn of the retry loop. */
  function Attempted(t: Tables, c: Normalized, attempt: nat, fate: Fate): Phase {
    match fate
    case Commits(newId) => Settled(c, PostOutcome(t, c, newId))
    case Aborts => if attempt < LAST_ATTEMPT then Trying(c, attempt + 1) else Refused(Driver)
    case KeyTaken => LostRace(c)
    case ReversalTaken => Refused(Business(Conflict))
  }

  /** The winner of a lost race is looked up by key and compared by fingerprint. */
  function Resolved(t: Tables, c: Normalized): Phase {
    var existing := FindKey(t.journals, c.key);
    if existing.Some? && existing.value.requestHash == c.requestHash then Done(existing.value.id, Some(c))
    else Refused(Business(Conflict))
  }

  function SetPhase(s: System, i: nat, phase: Phase): System
    requires i < |s.clients|
  {
    s.(clients := s.clients[i := s.clients[i].(phase := phase)])
  }

  function Next(s: System, step: Step): System {
    match step
    case Begin(i) =>
      if i < |s.clients| && s.clients[i].phase.Idle? then SetPhase(s, i, Started(s.t, s.clients[i].request)) else s
    case Attempt(i, fate) =>
      if i < |s.clients| && s.clients[i].phase.Trying? then
        var c, attempt := s.clients[i].phase.command, s.clients[i].phase.attempt;
        SetPhase(s.(t := if fate.Commits? then PostEffect(s.t, c, fate.newId) else s.t), i,
          Attempted(s.t, c, attempt, fate))
      else s
    case Resolve(i) =>
      if i < |s.clients| && s.clients[i].phase.LostRace? then
        SetPhase(s, i, Resolved(s.t, s.clients[i].phase.command))
      else s
    case OpenAccount(account, newId) => s.(t := CreateEffect(s.t, account, newId))
  }

  function Start(requests: seq<Request>): System {
    System(EMPTY, seq(|requests|, i requires 0 <= i < |requests| => Client(requests[i], Idle)))
  }

  function RunFrom(s: System, steps: seq<Step>): System {
    if steps == [] then s else Next(RunFrom(s, steps[..|steps| - 1]), steps[|steps| - 1])
  }

  function Execute(requests: seq<Request>, steps: seq<Step>): System {
    RunFrom(Start(requests), steps)
  }

  // ----------------------------------------------------------------------------------------------- the invariant

  /** The command a stored journal stands for. */
  function CommandOf(t: Tables, j: Journal): Normalized {
    Normalized(j.key, j.currency, j.unit, j.reference, j.description, j.correlationId, j.metadata, j.reversalOf,
      EntriesIn(t.lines, j.id), j.total, j.requestHash)
  }

  /** Stored fingerprints are fingerprints of what is stored. */
  ghost predicate Recorded(t: Tables) {
    forall j | j in t.journals :: Hashed(CommandOf(t, j))
  }

  ghost predicate Answered(t: Tables, c: Normalized, id: string) {
    var j := FindKey(t.journals, c.key);
    j.Some? && j.value.id == id && j.value.requestHash == c.requestHash
  }

  ghost predicate Proper(c: Normalized) {
    WellPosed(c) && Hashed(c)
  }

  ghost predicate PhaseInv(t: Tables, phase: Phase) {
    match phase
    case Idle => true
    case Trying(c, attempt) => Proper(c) && attempt <= LAST_ATTEMPT
    case LostRace(c) => Proper(c)
    case Done(id, posted) =>
      (posted.Some? ==> Proper(posted.value) && Answered(t, posted.value, id)) && FindJournal(t.journals, id).Some?
    case Refused(_) => true
  }

  ghost predicate SoundRequest(request: Request) {
    request.PostRequest? ==> Valid(request.command.metadata)
  }

  ghost predicate Inv(s: System) {
    && Consistent(s.t) && Recorded(s.t)
    && (forall i | 0 <= i < |s.clients| :: SoundRequest(s.clients[i].request) && PhaseInv(s.t, s.clients[i].phase))
  }

  /** Tables only grow: keys keep their journals and journals keep their entries. */
  ghost predicate Grown(t: Tables, u: Tables) {
    && (forall key | FindKey(t.journals, key).Some? :: FindKey(u.journals, key) == FindKey(t.journals, key))
    && (forall id | FindJournal(t.journals, id).Some? ::
          FindJournal(u.journals, id) == FindJournal(t.journals, id) && EntriesIn(u.lines, id) == EntriesIn(t.lines, id))
  }

  lemma {:induction false} FindKeyAppend(js: seq<Journal>, j: Journal, key: string)
    ensures FindKey(js + [j], key) ==
      if FindKey(js, key).Some? then FindKey(js, key) else if j.key == key then Some(j) else None
  {
    if js == [] {
      assert js + [j] == [j];
    } else {
      assert (js + [j])[1..] == js[1..] + [j];
      FindKeyAppend(js[1..], j, key);
    }
  }

  lemma WriteGrows(t: Tables, c: Normalized, newId: string)
    requires Consistent(t) && FindJournal(t.journals, newId).None?
    ensures Grown(t, WriteJournal(t, c, newId))
  {
    var u := WriteJournal(t, c, newId);
    forall key | FindKey(t.journals, key).Some? ensures FindKey(u.journals, key) == FindKey(t.journals, key) {
      FindKeyAppend(t.journals, JournalFor(c, newId), key);
    }
    forall id | FindJournal(t.journals, id).Some?
      ensures FindJournal(u.journals, id) == FindJournal(t.journals, id)
      ensures EntriesIn(u.lines, id) == EntriesIn(t.lines, id)
    {
      FindJournalAppend(t.journals, JournalFor(c, newId), id);
      WriteKeepsEntries(t, c, newId, id);
    }
  }

  lemma PostGrows(t: Tables, c: Normalized, newId: string)
    requires Consistent(t)
    ensures Grown(t, PostEffect(t, c, newId))
  {
    OutcomeFacts(t, c, newId);
    if PostEffect(t, c, newId) != t { WriteGrows(t, c, newId); }
  }

  lemma PostKeepsRecorded(t: Tables, c: Normalized, newId: string)
    requires Consistent(t) && Recorded(t) && Proper(c)
    ensures Recorded(PostEffect(t, c, newId))
  {
    OutcomeFacts(t, c, newId);
    if PostEffect(t, c, newId) != t { WriteKeepsRecorded(t, c, newId); }
  }

  lemma WriteKeepsRecorded(t: Tables, c: Normalized, newId: string)
    requires Consistent(t) && Recorded(t) && Proper(c) && FindJournal(t.journals, newId).None?
    ensures Recorded(WriteJournal(t, c, newId))
  {
    var u := WriteJournal(t, c, newId);
    forall j | j in u.journals ensures Hashed(CommandOf(u, j)) {
      WriteKeepsEntries(t, c, newId, j.id);
      if j in t.journals {
        JournalIsFound(t.journals, j);
        assert CommandOf(u, j) == CommandOf(t, j);
      } else {
        assert CommandOf(u, j) == c;
      }
    }
  }

  lemma PhaseGrows(t: Tables, u: Tables, phase: Phase)
    requires Grown(t, u) && PhaseInv(t, phase)
    ensures PhaseInv(u, phase)
  {
  }

  lemma NormalizedIsProper(command: Command)
    requires Normalize(command).Success? && Valid(command.metadata)
    ensures Proper(Normalize(command).value)
  {
    NormalizedIsWellPosed(command);
    NormalizedFacts(command);
    NormalizedHash(command);
    assert Valid(Obj([]));
  }

  lemma NormalizedHash(command: Command)
    requires Normalize(command).Success?
    ensures Fingerprinted(Normalize(command).value)
  {
  }

  lemma {:induction false} SetMemberKeepsValid(members: seq<Keyed<Value>>, key: string, value: Value)
    requires Valid(Obj(members)) && Valid(value)
    ensures Valid(Obj(SetMember(members, key, value)))
    ensures forall m | m in SetMember(members, key, value) :: m.key == key || exists k :: k in members && k.key == m.key
  {
    if members != [] && members[0].key != key {
      var rest := members[1..];
      assert forall i | 0 <= i < |rest| :: rest[i] == members[i + 1];
      SetMemberKeepsValid(rest, key, value);
      var r := SetMember(rest, key, value);
      forall i | 0 <= i < |r| ensures r[i].key != members[0].key {
        assert r[i] in r;
        if r[i].key != key {
          var k :| k in rest && k.key == r[i].key;
          var m :| 0 <= m < |rest| && rest[m] == k;
          assert members[m + 1] == k;
        }
      }
    }
  }

  lemma ReversalMetadataValid(t: Tables, journalId: string, key: string, reason: Option<string>)
    requires Recorded(t) && PlanReversal(t, journalId, key, reason).Send?
    ensures Valid(PlanReversal(t, journalId, key, reason).command.metadata)
  {
    PlannedMetadata(t, journalId, key, reason);
    var original := FindJournal(t.journals, journalId).value;
    StoredMetadataIsValid(t, original);
    SpreadIsValid(original.metadata, original.id, reason);
  }

  lemma StoredMetadataIsValid(t: Tables, j: Journal)
    requires Recorded(t) && j in t.journals
    ensures Valid(j.metadata)
  {
    assert Hashed(CommandOf(t, j));
  }

  lemma PlannedMetadata(t: Tables, journalId: string, key: string, reason: Option<string>)
    requires PlanReversal(t, journalId, key, reason).Send?
    ensures FindJournal(t.journals, journalId).Some?
    ensures var original := FindJournal(t.journals, journalId).value;
      PlanReversal(t, journalId, key, reason).command.metadata == ReversalMetadata(original.metadata, original.id, reason)
  {
  }

  lemma SpreadIsValid(metadata: Value, id: string, reason: Option<string>)
    requires Valid(metadata)
    ensures Valid(ReversalMetadata(metadata, id, reason))
  {
    var members := MembersOf(metadata);
    assert Valid(Obj(members));
    SetMemberKeepsValid(members, "reversalOfJournalId", Str(id));
    var more := SetMember(members, "reversalOfJournalId", Str(id));
    SetMemberKeepsValid(more, "reversalReason", ReasonValue(reason));
  }

  lemma StartedInv(t: Tables, request: Request)
    requires Consistent(t) && Recorded(t) && SoundRequest(request)
    ensures PhaseInv(t, Started(t, request))
  {
    match request
    case PostRequest(command) =>
      if Normalize(command).Success? { NormalizedIsProper(command); }
    case ReverseRequest(journalId, key, reason) =>
      var plan := PlanReversal(t, journalId, key, reason);
      if plan.Send? && Normalize(plan.command).Success? {
        ReversalMetadataValid(t, journalId, key, reason);
        NormalizedIsProper(plan.command);
      }
      if plan.AlreadyReversedByKey? { JournalIsFound(t.journals, FindKey(t.journals, Trim(key)).value); }
  }

  lemma AttemptedInv(t: Tables, c: Normalized, attempt: nat, fate: Fate)
    requires Consistent(t) && Proper(c) && attempt <= LAST_ATTEMPT
    ensures PhaseInv(if fate.Commits? then PostEffect(t, c, fate.newId) else t, Attempted(t, c, attempt, fate))
  {
    if fate.Commits? { OutcomeAnswers(t, c, fate.newId); }
  }

  lemma OutcomeAnswers(t: Tables, c: Normalized, newId: string)
    requires Consistent(t) && Proper(c)
    ensures PhaseInv(PostEffect(t, c, newId), Settled(c, PostOutcome(t, c, newId)))
  {
    var outcome := PostOutcome(t, c, newId);
    OutcomeFacts(t, c, newId);
    if outcome.Written? { WrittenIsAnswer(t, c, newId); }
    if outcome.Existing? { JournalIsFound(t.journals, FindKey(t.journals, c.key).value); }
    SettledInv(PostEffect(t, c, newId), c, outcome);
  }

  lemma OutcomeFacts(t: Tables, c: Normalized, newId: string)
    ensures PostOutcome(t, c, newId).Written? ==>
      PostOutcome(t, c, newId).id == newId && FindKey(t.journals, c.key).None? && FindJournal(t.journals, newId).None?
    ensures PostOutcome(t, c, newId).Existing? ==> Answered(t, c, PostOutcome(t, c, newId).id)
  {
  }

  lemma SettledInv(u: Tables, c: Normalized, outcome: Outcome)
    requires Proper(c)
    requires (outcome.Written? || outcome.Existing?) ==>
      Answered(u, c, outcome.id) && FindJournal(u.journals, outcome.id).Some?
    ensures PhaseInv(u, Settled(c, outcome))
  {
  }

  lemma ResolvedInv(t: Tables, c: Normalized)
    requires DistinctJournals(t.journals) && Proper(c)
    ensures PhaseInv(t, Resolved(t, c))
  {
    var existing := FindKey(t.journals, c.key);
    if existing.Some? { JournalIsFound(t.journals, existing.value); }
  }

  lemma WrittenIsAnswer(t: Tables, c: Normalized, newId: string)
    requires FindKey(t.journals, c.key).None? && FindJournal(t.journals, newId).None?
    ensures Answered(WriteJournal(t, c, newId), c, newId)
    ensures FindJournal(WriteJournal(t, c, newId).journals, newId).Some?
  {
    FindKeyAppend(t.journals, JournalFor(c, newId), c.key);
    FindJournalAppend(t.journals, JournalFor(c, newId), newId);
  }

  lemma OpenGrows(t: Tables, account: AccountCommand, newId: string)
    requires Consistent(t)
    ensures Grown(t, CreateEffect(t, account, newId))
    ensures Recorded(t) ==> Recorded(CreateEffect(t, account, newId))
  {
    var u := CreateEffect(t, account, newId);
    assert u.journals == t.journals && u.lines == t.lines;
    assert forall j :: CommandOf(u, j) == CommandOf(t, j);
  }

  /** A step that grows the tables and moves one client to a sound phase. */
  lemma MoveKeepsInv(s: System, u: Tables, i: nat, phase: Phase)
    requires Inv(s) && i < |s.clients|
    requires Consistent(u) && Recorded(u) && Grown(s.t, u) && PhaseInv(u, phase)
    ensures Inv(SetPhase(s.(t := u), i, phase))
  {
    var next := SetPhase(s.(t := u), i, phase);
    forall k | 0 <= k < |next.clients|
      ensures SoundRequest(next.clients[k].request) && PhaseInv(u, next.clients[k].phase)
    {
      PhaseGrows(s.t, u, s.clients[k].phase);
    }
  }

  lemma CommitKeepsTables(t: Tables, c: Normalized, newId: string)
    requires Consistent(t) && Recorded(t) && Proper(c)
    ensures var u := PostEffect(t, c, newId); Consistent(u) && Recorded(u) && Grown(t, u)
  {
    PostKeepsConsistent(t, c, newId);
    PostGrows(t, c, newId);
    PostKeepsRecorded(t, c, newId);
  }

  lemma CommitKeepsInv(s: System, i: nat, newId: string)
    requires Inv(s) && i < |s.clients| && s.clients[i].phase.Trying?
    ensures Inv(Next(s, Attempt(i, Commits(newId)))) && Grown(s.t, Next(s, Attempt(i, Commits(newId))).t)
  {
    var c, attempt := s.clients[i].phase.command, s.clients[i].phase.attempt;
    assert PhaseInv(s.t, s.clients[i].phase);
    CommitKeepsTables(s.t, c, newId);
    AttemptedInv(s.t, c, attempt, Commits(newId));
    MoveKeepsInv(s, PostEffect(s.t, c, newId), i, Attempted(s.t, c, attempt, Commits(newId)));
  }

  lemma AttemptKeepsInv(s: System, i: nat, fate: Fate)
    requires Inv(s) && i < |s.clients| && s.clients[i].phase.Trying?
    ensures Inv(Next(s, Attempt(i, fate))) && Grown(s.t, Next(s, Attempt(i, fate)).t)
  {
    if fate.Commits? {
      CommitKeepsInv(s, i, fate.newId);
    } else {
      var c, attempt := s.clients[i].phase.command, s.clients[i].phase.attempt;
      assert PhaseInv(s.t, s.clients[i].phase);
      AttemptedInv(s.t, c, attempt, fate);
      MoveKeepsInv(s, s.t, i, Attempted(s.t, c, attempt, fate));
    }
  }

  lemma ResolveKeepsInv(s: System, i: nat)
    requires Inv(s) && i < |s.clients| && s.clients[i].phase.LostRace?
    ensures Inv(Next(s, Resolve(i)))
  {
    var c := s.clients[i].phase.command;
    assert PhaseInv(s.t, s.clients[i].phase);
    ResolvedInv(s.t, c);
    MoveKeepsInv(s, s.t, i, Resolved(s.t, c));
  }

  lemma OpenKeepsInv(s: System, account: AccountCommand, newId: string)
    requires Inv(s)
    ensures Inv(Next(s, OpenAccount(account, newId))) && Grown(s.t, Next(s, OpenAccount(account, newId)).t)
  {
    CreateKeepsConsistent(s.t, account, newId);
    OpenGrows(s.t, account, newId);
    forall k | 0 <= k < |s.clients| { PhaseGrows(s.t, CreateEffect(s.t, account, newId), s.clients[k].phase); }
  }

  lemma NextKeepsInv(s: System, step: Step)
    requires Inv(s)
    ensures Inv(Next(s, step)) && Grown(s.t, Next(s, step).t)
  {
    match step
    case Begin(i) =>
      if i < |s.clients| && s.clients[i].phase.Idle? {
        StartedInv(s.t, s.clients[i].request);
        MoveKeepsInv(s, s.t, i, Started(s.t, s.clients[i].request));
      }
    case Attempt(i, fate) =>
      if i < |s.clients| && s.clients[i].phase.Trying? { AttemptKeepsInv(s, i, fate); }
    case Resolve(i) =>
      if i < |s.clients| && s.clients[i].phase.LostRace? { ResolveKeepsInv(s, i); }
    case OpenAccount(account, newId) => OpenKeepsInv(s, account, newId);
  }

  lemma {:induction false} RunKeepsInv(s: System, steps: seq<Step>)
    requires Inv(s)
    ensures Inv(RunFrom(s, steps)) && |RunFrom(s, steps).clients| == |s.clients|
  {
    if steps != [] {
      RunKeepsInv(s, steps[..|steps| - 1]);
      NextKeepsInv(RunFrom(s, steps[..|steps| - 1]), steps[|steps| - 1]);
    }
  }

  lemma ExecutionInv(requests: seq<Request>, steps: seq<Step>)
    requires forall r | r in requests :: SoundRequest(r)
    ensures Inv(Execute(requests, steps))
  {
    RunKeepsInv(Start(requests), steps);
  }

  // ------------------------------------------------------------------------------------------------ exactly once

  ghost predicate Succeeded(s: System, i: nat) {
    i < |s.clients| && s.clients[i].phase.Done? && s.clients[i].phase.posted.Some?
  }

  ghost function PostedBy(s: System, i: nat): Normalized
    requires Succeeded(s, i)
  {
    s.clients[i].phase.posted.value
  }

  /**
   However the steps of any number of clients interleave: all successful callers of a key get the id of the one
   journal that carries it, they all asked for the same thing, and that journal has the effect each of them asked for.
   */
  lemma ExactlyOnce(requests: seq<Request>, steps: seq<Step>, i: nat, k: nat, account: Account)
    requires forall r | r in requests :: SoundRequest(r)
    requires Succeeded(Execute(requests, steps), i) && Succeeded(Execute(requests, steps), k)
    requires PostedBy(Execute(requests, steps), i).key == PostedBy(Execute(requests, steps), k).key
    ensures var s := Execute(requests, steps);
      && s.clients[i].phase.id == s.clients[k].phase.id
      && SameRequest(PostedBy(s, i), PostedBy(s, k))
      && (forall j | j in s.t.journals && j.key == PostedBy(s, i).key :: j.id == s.clients[i].phase.id)
      && JournalEffect(s.t, s.clients[i].phase.id, account) ==
           EntryEffect(PostedBy(s, k).entries, account.id, account.normalBalance)
  {
    var s := Execute(requests, steps);
    ExecutionInv(requests, steps);
    var a, b := PostedBy(s, i), PostedBy(s, k);
    assert PhaseInv(s.t, s.clients[i].phase) && PhaseInv(s.t, s.clients[k].phase);
    FingerprintIdentifiesRequest(a, b);
    var stored := FindKey(s.t.journals, a.key).value;
    assert Hashed(CommandOf(s.t, stored));
    SameFingerprintSameEffect(CommandOf(s.t, stored), b, account.id, account.normalBalance);
    forall j | j in s.t.journals && j.key == a.key ensures j.id == s.clients[i].phase.id {
      JournalIsFound(s.t.journals, j);
    }
  }

  function EffectExcept(t: Tables, journals: seq<Journal>, key: string, account: Account): int {
    if journals == [] then 0
    else (if journals[0].key == key then 0 else JournalEffect(t, journals[0].id, account))
         + EffectExcept(t, journals[1..], key, account)
  }

  lemma {:induction false} SplitOffKey(t: Tables, journals: seq<Journal>, key: string, account: Account)
    requires DistinctJournals(journals)
    ensures EffectSum(t, journals, account) == EffectExcept(t, journals, key, account)
      + (if FindKey(journals, key).Some? then JournalEffect(t, FindKey(journals, key).value.id, account) else 0)
  {
    if journals != [] {
      SplitOffKey(t, journals[1..], key, account);
      if journals[0].key == key {
        assert forall i | 0 <= i < |journals[1..]| :: journals[1..][i] == journals[i + 1];
        assert FindKey(journals[1..], key).None?;
      }
    }
  }

  /** Balances move once for a key, by the effect any of its successful callers asked for. */
  lemma BalancesMoveOnce(requests: seq<Request>, steps: seq<Step>, i: nat, account: Account)
    requires forall r | r in requests :: SoundRequest(r)
    requires Succeeded(Execute(requests, steps), i)
    ensures var s := Execute(requests, steps);
      Balance(s.t.lines, account) ==
        EntryEffect(PostedBy(s, i).entries, account.id, account.normalBalance)
        + EffectExcept(s.t, s.t.journals, PostedBy(s, i).key, account)
  {
    var s := Execute(requests, steps);
    ExecutionInv(requests, steps);
    ExactlyOnce(requests, steps, i, i, account);
    BalanceByJournal(s.t, account);
    SplitOffKey(s.t, s.t.journals, PostedBy(s, i).key, account);
    assert PhaseInv(s.t, s.clients[i].phase);
  }

  /** The key of the command is taken by another request. */
  ghost predicate KeyTakenByOther(t: Tables, c: Normalized) {
    FindKey(t.journals, c.key).Some? && FindKey(t.journals, c.key).value.requestHash != c.requestHash
  }

  ghost predicate RefusedOrAsking(phase: Phase, c: Normalized) {
    phase.Refused? || ((phase.Trying? || phase.LostRace?) && phase.command == c)
  }

  lemma TakenKeyIsConflict(t: Tables, c: Normalized, newId: string)
    requires KeyTakenByOther(t, c)
    ensures PostOutcome(t, c, newId) == Rejected(Conflict) && PostEffect(t, c, newId) == t
  {
  }

  lemma TakenKeyNeverSucceeds(t: Tables, c: Normalized, attempt: nat, fate: Fate)
    requires KeyTakenByOther(t, c)
    ensures RefusedOrAsking(Attempted(t, c, attempt, fate), c) && RefusedOrAsking(Resolved(t, c), c)
  {
    if fate.Commits? { TakenKeyIsConflict(t, c, fate.newId); }
  }

  lemma NextGrows(s: System, step: Step)
    requires Inv(s)
    ensures Grown(s.t, Next(s, step).t)
  {
    NextKeepsInv(s, step);
  }

  lemma TakenSurvives(t: Tables, u: Tables, c: Normalized)
    requires Grown(t, u) && KeyTakenByOther(t, c)
    ensures KeyTakenByOther(u, c)
  {
  }

  /** Client i asks, or was refused, with a key that belongs to another request. */
  ghost predicate Barred(s: System, i: nat, c: Normalized) {
    i < |s.clients| && RefusedOrAsking(s.clients[i].phase, c) && KeyTakenByOther(s.t, c)
  }

  lemma BarredPhase(s: System, i: nat, step: Step, c: Normalized)
    requires Barred(s, i, c)
    ensures i < |Next(s, step).clients| && RefusedOrAsking(Next(s, step).clients[i].phase, c)
  {
    if step.Attempt? && step.i == i && s.clients[i].phase.Trying? {
      TakenKeyNeverSucceeds(s.t, c, s.clients[i].phase.attempt, step.fate);
    }
  }

  lemma BarredStep(s: System, i: nat, step: Step, c: Normalized)
    requires Barred(s, i, c) && Grown(s.t, Next(s, step).t)
    ensures Barred(Next(s, step), i, c)
  {
    BarredPhase(s, i, step, c);
    TakenSurvives(s.t, Next(s, step).t, c);
  }

  lemma RunGrows(s: System, steps: seq<Step>, step: Step)
    requires Inv(s)
    ensures Grown(RunFrom(s, steps).t, Next(RunFrom(s, steps), step).t)
  {
    RunKeepsInv(s, steps);
    NextGrows(RunFrom(s, steps), step);
  }

  /** However the run goes on, a caller whose key is taken by another request never succeeds. */
  lemma {:induction false} DifferentFingerprintIsRefused(s: System, i: nat, c: Normalized, steps: seq<Step>)
    requires Inv(s) && Barred(s, i, c)
    ensures Barred(RunFrom(s, steps), i, c)
  {
    if steps != [] {
      var front := steps[..|steps| - 1];
      DifferentFingerprintIsRefused(s, i, c, front);
      RunGrows(s, front, steps[|steps| - 1]);
      BarredStep(RunFrom(s, front), i, steps[|steps| - 1], c);
    }
  }

  /** How many steps a client can still take: begin, at most three attempts, and one resolution. */
  function StepsLeft(phase: Phase): nat {
    match phase
    case Idle => 5
    case Trying(_, attempt) => if attempt <= LAST_ATTEMPT then 4 - attempt else 1
    case LostRace(_) => 1
    case _ => 0
  }

  ghost predicate ByClient(step: Step, i: nat) {
    match step
    case Begin(k) => k == i
    case Attempt(k, _) => k == i
    case Resolve(k) => k == i
    case OpenAccount(_, _) => false
  }

  /** Every step that changes a client's phase uses up its budget, and no step touches another client's phase. */
  lemma ClientsFinish(s: System, step: Step, i: nat)
    requires Inv(s) && i < |s.clients|
    ensures var before, after := s.clients[i].phase, Next(s, step).clients[i].phase;
      after != before ==> ByClient(step, i) && StepsLeft(after) < StepsLeft(before)
  {
    assert PhaseInv(s.t, s.clients[i].phase);
    if ByClient(step, i) {
      OwnStepIsProgress(s, step, i);
    } else {
      OthersStay(s, step, i);
    }
  }

  lemma OwnStepIsProgress(s: System, step: Step, i: nat)
    requires i < |s.clients| && ByClient(step, i)
    requires s.clients[i].phase.Trying? ==> s.clients[i].phase.attempt <= LAST_ATTEMPT
    ensures var before, after := s.clients[i].phase, Next(s, step).clients[i].phase;
      after != before ==> StepsLeft(after) < StepsLeft(before)
  {
    var phase := s.clients[i].phase;
    if phase.Trying? && step.Attempt? {
      AttemptIsProgress(s.t, phase.command, phase.attempt, step.fate);
    } else if phase.Idle? {
      StartIsProgress(s.t, s.clients[i].request);
    }
  }

  lemma OthersStay(s: System, step: Step, i: nat)
    requires i < |s.clients| && !ByClient(step, i)
    ensures Next(s, step).clients[i] == s.clients[i]
  {
  }

  lemma AttemptIsProgress(t: Tables, c: Normalized, attempt: nat, fate: Fate)
    requires attempt <= LAST_ATTEMPT
    ensures StepsLeft(Attempted(t, c, attempt, fate)) < StepsLeft(Trying(c, attempt))
  {
  }

  lemma StartIsProgress(t: Tables, request: Request)
    ensures StepsLeft(Started(t, request)) < StepsLeft(Idle)
  {
  }

  // ---------------------------------------------------------------------------------- reversals over whole runs

  /** Only `reverseJournal` makes reversals. */
  ghost predicate PlainPosts(requests: seq<Request>) {
    forall r | r in requests :: SoundRequest(r) && (r.PostRequest? ==> r.command.reversalOf.None?)
  }

  ghost predicate CarriesFlip(t: Tables, phase: Phase) {
    (phase.Trying? || phase.LostRace?) && phase.command.reversalOf.Some? ==> Flips(t, phase.command)
  }

  ghost predicate MirrorInv(s: System) {
    && Inv(s) && Mirrored(s.t)
    && (forall i | 0 <= i < |s.clients| :: CarriesFlip(s.t, s.clients[i].phase))
    && (forall i | 0 <= i < |s.clients| && s.clients[i].request.PostRequest? ::
          s.clients[i].request.command.reversalOf.None?)
  }

  lemma StartedCarriesFlip(t: Tables, request: Request)
    requires request.PostRequest? ==> request.command.reversalOf.None?
    ensures CarriesFlip(t, Started(t, request))
  {
    match request
    case PostRequest(command) =>
      if Normalize(command).Success? { NormalizedFacts(command); }
    case ReverseRequest(journalId, key, reason) =>
      var plan := PlanReversal(t, journalId, key, reason);
      if plan.Send? && Normalize(plan.command).Success? { ReversalIsFlipped(t, journalId, key, reason); }
  }

  lemma AttemptMirrors(t: Tables, c: Normalized, newId: string)
    requires Consistent(t) && Mirrored(t) && (c.reversalOf.Some? ==> Flips(t, c))
    ensures Mirrored(PostEffect(t, c, newId))
  {
    OutcomeFacts(t, c, newId);
    if PostEffect(t, c, newId) != t { WriteKeepsMirror(t, c, newId); }
  }

  lemma MoveKeepsMirror(s: System, u: Tables, i: nat, phase: Phase)
    requires MirrorInv(s) && i < |s.clients| && Inv(SetPhase(s.(t := u), i, phase))
    requires Mirrored(u) && Grown(s.t, u) && CarriesFlip(u, phase)
    ensures MirrorInv(SetPhase(s.(t := u), i, phase))
  {
    var next := SetPhase(s.(t := u), i, phase);
    forall k | 0 <= k < |next.clients| ensures CarriesFlip(u, next.clients[k].phase) {
      FlipSurvives(s.t, u, s.clients[k].phase);
    }
  }

  lemma CommitKeepsMirror(s: System, i: nat, newId: string)
    requires MirrorInv(s) && i < |s.clients| && s.clients[i].phase.Trying?
    ensures MirrorInv(Next(s, Attempt(i, Commits(newId))))
  {
    var phase := s.clients[i].phase;
    assert CarriesFlip(s.t, phase);
    AttemptMirrors(s.t, phase.command, newId);
    CommitKeepsInv(s, i, newId);
    MoveKeepsMirror(s, PostEffect(s.t, phase.command, newId), i,
      Attempted(s.t, phase.command, phase.attempt, Commits(newId)));
  }

  lemma OpenKeepsMirror(s: System, account: AccountCommand, newId: string)
    requires MirrorInv(s)
    ensures MirrorInv(Next(s, OpenAccount(account, newId)))
  {
    var u := CreateEffect(s.t, account, newId);
    OpenKeepsInv(s, account, newId);
    assert u.journals == s.t.journals && u.lines == s.t.lines;
    forall k | 0 <= k < |s.clients| { FlipSurvives(s.t, u, s.clients[k].phase); }
  }

  lemma NextKeepsMirror(s: System, step: Step)
    requires MirrorInv(s)
    ensures MirrorInv(Next(s, step))
  {
    match step
    case Begin(i) =>
      if i < |s.clients| && s.clients[i].phase.Idle? {
        NextKeepsInv(s, step);
        StartedCarriesFlip(s.t, s.clients[i].request);
        MoveKeepsMirror(s, s.t, i, Started(s.t, s.clients[i].request));
      }
    case Attempt(i, fate) =>
      if i < |s.clients| && s.clients[i].phase.Trying? {
        if fate.Commits? {
          CommitKeepsMirror(s, i, fate.newId);
        } else {
          AttemptKeepsInv(s, i, fate);
          assert CarriesFlip(s.t, s.clients[i].phase);
          MoveKeepsMirror(s, s.t, i, Attempted(s.t, s.clients[i].phase.command, s.clients[i].phase.attempt, fate));
        }
      }
    case Resolve(i) =>
      if i < |s.clients| && s.clients[i].phase.LostRace? {
        ResolveKeepsInv(s, i);
        MoveKeepsMirror(s, s.t, i, Resolved(s.t, s.clients[i].phase.command));
      }
    case OpenAccount(account, newId) => OpenKeepsMirror(s, account, newId);
  }

  lemma FlipSurvives(t: Tables, u: Tables, phase: Phase)
    requires Grown(t, u) && CarriesFlip(t, phase)
    ensures CarriesFlip(u, phase)
  {
  }

  lemma {:induction false} RunKeepsMirror(s: System, steps: seq<Step>)
    requires MirrorInv(s)
    ensures MirrorInv(RunFrom(s, steps))
  {
    if steps != [] {
      RunKeepsMirror(s, steps[..|steps| - 1]);
      NextKeepsMirror(RunFrom(s, steps[..|steps| - 1]), steps[|steps| - 1]);
    }
  }

  /**
   However posts and reversals interleave, each balance is the sum of the effects of the journals that are neither
   reversals nor reversed; no journal is reversed twice and no reversal is reversed.
   */
  lemma ReversalsCancelOverEveryRun(requests: seq<Request>, steps: seq<Step>, account: Account)
    requires PlainPosts(requests)
    ensures var t := Execute(requests, steps).t;
      && Balance(t.lines, account) == StandingEffect(t, t.journals, t.journals, account)
      && ReversalsInOrder(t.journals)
  {
    RunKeepsMirror(Start(requests), steps);
    ReversalsCancel(Execute(requests, steps).t, account);
  }
}
