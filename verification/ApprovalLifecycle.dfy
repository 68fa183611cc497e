/** The life of an approval over every run of commands: used once, in time, and by consent of somebody else. */
module ApprovalLifecycle {
  import opened Prelude
  import opened JsText
  import opened Approval

  /** One atomic command at a time of the clock; a drawn id is one that no row has. */
  datatype Step =
    | Ask(request: Request, newId: string, at: int)
    | Activate(emergency: Emergency, newId: string, at: int)
    | Do(id: string, act: Act, principal: Principal, at: int)

  function Next(rows: Rows, step: Step): (Rows, Answer) {
    match step
    case Ask(request, newId, at) =>
      if newId in rows then (rows, Malformed)
      else (RowsAfterRequest(rows, request, newId, at), RequestAnswer(request, at))
    case Activate(emergency, newId, at) =>
      if newId in rows then (rows, Malformed)
      else (RowsAfterEmergency(rows, emergency, newId, at), EmergencyAnswer(emergency, at))
    case Do(id, act, p, at) => Applied(rows, id, act, p, at)
  }

  function RunFrom(rows: Rows, steps: seq<Step>): Rows {
    if steps == [] then rows else Next(RunFrom(rows, steps[..|steps| - 1]), steps[|steps| - 1]).0
  }

  function Run(steps: seq<Step>): Rows {
    RunFrom(map[], steps)
  }

  /** The clock never steps back. */
  ghost predicate Forward(steps: seq<Step>) {
    forall i, j | 0 <= i <= j < |steps| :: steps[i].at <= steps[j].at
  }

  // ------------------------------------------------------------------------------------------------- the invariant

  ghost predicate Granted(a: Row, clock: int) {
    && !a.isEmergency && a.approvedBy.Some? && a.approvedBy.value != a.requester
    && a.approvedAt.Some? && a.requestedAt <= a.approvedAt.value <= clock && a.approvedAt.value < a.expiresAt
  }

  ghost predicate RowInv(a: Row, clock: int) {
    && a.requestedAt <= clock && a.requestedAt < a.expiresAt
    && (a.consumedAt.Some? <==> a.status.Consumed?)
    && match a.status
       case Requested => !a.isEmergency && a.approvedBy.None?
       case Approved => Granted(a, clock)
       case Consumed =>
         Granted(a, clock) && a.approvedAt.value <= a.consumedAt.value < a.expiresAt && a.consumedAt.value <= clock
       case EmergencyActive => a.isEmergency
       case EmergencyRevoked => a.isEmergency
       case Rejected => !a.isEmergency
       case Cancelled => !a.isEmergency
       case Expired => true
  }

  ghost predicate Inv(rows: Rows, clock: int) {
    forall key | key in rows :: RowInv(rows[key], clock)
  }

  lemma PerformKeepsRow(a: Row, act: Act, p: Principal, clock: int, now: int)
    requires RowInv(a, clock) && clock <= now
    ensures RowInv(Perform(a, act, p, now).row, now)
  {
  }

  lemma LaterHolds(a: Row, clock: int, now: int)
    requires RowInv(a, clock) && clock <= now
    ensures RowInv(a, now)
  {
  }

  lemma NextKeepsInv(rows: Rows, step: Step, clock: int)
    requires Inv(rows, clock) && clock <= step.at
    ensures Inv(Next(rows, step).0, step.at)
  {
    var next := Next(rows, step).0;
    forall key | key in next ensures RowInv(next[key], step.at) {
      if key in rows { LaterHolds(rows[key], clock, step.at); }
      match step
      case Ask(request, _, at) => if NewRow(request, at).Success? { AskedHolds(request, at); }
      case Activate(emergency, _, at) => if NewEmergency(emergency, at).Success? { ActivatedHolds(emergency, at); }
      case Do(id, act, p, at) => if Find(rows, id).Some? { PerformKeepsRow(Find(rows, id).value, act, p, clock, at); }
    }
  }

  lemma AskedHolds(request: Request, now: int)
    requires NewRow(request, now).Success?
    ensures RowInv(NewRow(request, now).value, now)
  {
  }

  lemma ActivatedHolds(emergency: Emergency, now: int)
    requires NewEmergency(emergency, now).Success?
    ensures RowInv(NewEmergency(emergency, now).value, now)
  {
  }

  lemma {:induction false} RunKeepsInv(steps: seq<Step>)
    requires Forward(steps)
    ensures steps != [] ==> Inv(Run(steps), steps[|steps| - 1].at)
  {
    if steps != [] {
      var front, last := steps[..|steps| - 1], steps[|steps| - 1];
      RunKeepsInv(front);
      if front == [] {
        assert Inv(Run(front), last.at);
        NextKeepsInv(Run(front), last, last.at);
      } else {
        assert front[|front| - 1] == steps[|steps| - 2] && steps[|steps| - 2].at <= last.at;
        NextKeepsInv(Run(front), last, front[|front| - 1].at);
      }
    }
  }

  /**
   Whatever commands are given in whatever order, on a clock that does not step back: a consumed approval was
   requested, then approved by somebody other than the requester, then consumed, all before it expired; and an
   emergency grant is never approved, rejected, cancelled or consumed.
   */
  lemma LifecycleOverEveryRun(steps: seq<Step>, key: string)
    requires Forward(steps) && key in Run(steps)
    ensures var a := Run(steps)[key];
      && (a.status.Consumed? ==>
            && a.approvedBy.Some? && a.approvedBy.value != a.requester && a.approvedAt.Some? && a.consumedAt.Some?
            && a.requestedAt <= a.approvedAt.value <= a.consumedAt.value < a.expiresAt)
      && (a.isEmergency ==> a.status in {EmergencyActive, EmergencyRevoked, Expired})
  {
    RunKeepsInv(steps);
    assert steps != [];
    assert RowInv(Run(steps)[key], steps[|steps| - 1].at);
  }

  // ------------------------------------------------------------------------------------------------- closed states

  predicate Closed(a: Row) {
    a.status in {Rejected, Cancelled, Consumed, Expired, EmergencyRevoked}
  }

  /** A closed row is never changed again, by any command at any time, and never approves anything. */
  lemma ClosedIsFinal(a: Row, act: Act, p: Principal, now: int)
    requires Closed(a)
    ensures Perform(a, act, p, now).row == a
    ensures Perform(a, act, p, now).answer.Decision? && !Perform(a, act, p, now).answer.approved
  {
  }

  lemma {:induction false} ClosedStaysClosed(rows: Rows, steps: seq<Step>, key: string)
    requires key in rows && Closed(rows[key])
    ensures key in RunFrom(rows, steps) && RunFrom(rows, steps)[key] == rows[key]
  {
    if steps != [] {
      var front, last := steps[..|steps| - 1], steps[|steps| - 1];
      ClosedStaysClosed(rows, front, key);
      if last.Do? { ClosedIsFinal(rows[key], last.act, last.principal, last.at); }
    }
  }

  /** The command consumes the row and is told so. */
  predicate Consumes(rows: Rows, step: Step, key: string) {
    step.Do? && step.act.ConsumeAct? && ToLower(step.id) == key
    && Next(rows, step).1 == Decision(true, WasConsumed)
  }

  function Consumptions(steps: seq<Step>, key: string): nat {
    if steps == [] then 0
    else
      var front := steps[..|steps| - 1];
      Consumptions(front, key) + (if Consumes(Run(front), steps[|steps| - 1], key) then 1 else 0)
  }

  predicate IsConsumed(rows: Rows, key: string) {
    key in rows && rows[key].status.Consumed?
  }

  lemma ConsumptionStep(rows: Rows, step: Step, key: string)
    ensures IsConsumed(Next(rows, step).0, key) <==> IsConsumed(rows, key) || Consumes(rows, step, key)
    ensures !(IsConsumed(rows, key) && Consumes(rows, step, key))
  {
    if step.Do? && ToLower(step.id) == key && Find(rows, step.id).Some? {
      TurnConsumes(rows[key], step.act, step.principal, step.at);
    }
    if step.Ask? && NewRow(step.request, step.at).Success? { AskedHolds(step.request, step.at); }
    if step.Activate? && NewEmergency(step.emergency, step.at).Success? { ActivatedHolds(step.emergency, step.at); }
  }

  lemma TurnConsumes(a: Row, act: Act, p: Principal, now: int)
    ensures var turn := Perform(a, act, p, now);
      && (turn.row.status.Consumed? <==>
            a.status.Consumed? || (act.ConsumeAct? && turn.answer == Decision(true, WasConsumed)))
      && !(a.status.Consumed? && turn.answer == Decision(true, WasConsumed))
  {
  }

  /** Each approval is used at most once: the number of successful uses is one exactly when it is consumed. */
  lemma {:induction false} UsedAtMostOnce(steps: seq<Step>, key: string)
    ensures Consumptions(steps, key) == if IsConsumed(Run(steps), key) then 1 else 0
  {
    if steps != [] {
      var front := steps[..|steps| - 1];
      UsedAtMostOnce(front, key);
      ConsumptionStep(Run(front), steps[|steps| - 1], key);
    }
  }

  /** What a successful use takes: an unexpired grant, for exactly this action, resource and fingerprint. */
  predicate Consumable(a: Row, use: Use, p: Principal, now: int) {
    && a.status.Approved? && now < a.expiresAt && (a.approvedBy == Some(p.id) || "privileged:execute" in p.scopes)
    && a.actionType == use.actionType && a.resource == use.resource && Digest(a.fingerprint) == use.fingerprint
  }

  /** A use succeeds exactly on a consumable row, and writes the row exactly when it succeeds or finds it expired. */
  lemma UseNeedsGrant(a: Row, use: Use, p: Principal, now: int)
    ensures Consume(a, use, p, now).answer == Decision(true, WasConsumed) <==> Consumable(a, use, p, now)
    ensures Consume(a, use, p, now).row == a <==> !RequiresExpiry(a, now) && !Consumable(a, use, p, now)
    ensures Consume(a, use, p, now).row != a ==> Closed(Consume(a, use, p, now).row)
    ensures Consume(a, use, p, now).row != a && !Consumable(a, use, p, now) ==>
      Consume(a, use, p, now).row.status.Expired?
  {
  }
}
