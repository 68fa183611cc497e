/** Exactly when each command on approvals works, and where every row of a run comes from. */
module ApprovalProvenance {
  import opened Prelude
  import opened Utf16
  import opened JsText
  import opened Approval
  import opened ApprovalLifecycle

  // ------------------------------------------------------------------------------------------------- the commands

  ghost predicate IsText(text: string, kept: string, most: int) {
    IsTrimmed(text, kept) && 1 <= |Units(kept)| <= most
  }

  lemma TextExactly(text: string, kept: string, most: nat)
    ensures NormalizeText(text, most) == Success(kept) <==> IsText(text, kept, most)
  {
    TrimExactly(text, kept);
    LengthCountsUnits(kept);
    if kept != "" { UnitsOfChar(kept[0]); }
  }

  /** How long a request lives, in seconds. */
  predicate IsLifetime(asked: Option<int>, default: int, least: int, most: int, seconds: int) {
    least <= seconds <= most && seconds == if asked.Some? then asked.value else default
  }

  /** The row carries what was asked for, open, and not yet anybody's decision. */
  ghost predicate RequestedAs(r: Request, now: int, a: Row) {
    && r.denied.None? && r.fingerprint == Digest(a.fingerprint) && a.actionType == r.action
    && a.resource.resourceType == r.resource.resourceType && a.resource.id == r.resource.id
    && a.resource.customerId == (if r.resource.customerId.Some? then r.resource.customerId else r.principal.customerId)
    && IsText(if r.approvalScope.Some? then r.approvalScope.value else "privileged:approve", a.scope, 160)
    && a.needsMfa == r.needsMfa && a.requester == r.principal.id && IsText(r.reason, a.reason, 500)
    && a.requestedAt == now
    && (exists seconds :: IsLifetime(r.expiresInSeconds, 900, 60, 86_400, seconds) && a.expiresAt == now + 1000 * seconds)
    && a.status.Requested? && !a.isEmergency && a.approvedBy.None? && a.approvedAt.None? && a.rejectedAt.None?
    && a.cancelledAt.None? && a.consumedAt.None?
  }

  lemma RequestFields(r: Request, now: int, a: Row)
    ensures NewRow(r, now) == Success(a) <==>
      && r.denied.None? && r.fingerprint == Digest(a.fingerprint)
      && NormalizeText(if r.approvalScope.Some? then r.approvalScope.value else "privileged:approve", 160) == Success(a.scope)
      && NormalizeText(r.reason, 500) == Success(a.reason)
      && (var seconds := if r.expiresInSeconds.Some? then r.expiresInSeconds.value else 900;
          60 <= seconds <= 86_400 && a.expiresAt == now + 1000 * seconds)
      && a == Row(r.action, r.resource.(customerId := a.resource.customerId), a.fingerprint, a.scope, r.needsMfa,
                  r.principal.id, None, a.reason, Requested, false, now, a.expiresAt, None, None, None, None)
      && a.resource.customerId == if r.resource.customerId.Some? then r.resource.customerId else r.principal.customerId
  {
  }

  lemma Lifetime(asked: Option<int>, default: int, least: int, most: int, now: int, end: int)
    ensures (exists seconds :: IsLifetime(asked, default, least, most, seconds) && end == now + 1000 * seconds) <==>
      var seconds := if asked.Some? then asked.value else default;
      least <= seconds <= most && end == now + 1000 * seconds
  {
    var seconds := if asked.Some? then asked.value else default;
    if least <= seconds <= most { assert IsLifetime(asked, default, least, most, seconds); }
  }

  /** A request is taken exactly as what it asks for. */
  lemma RequestedExactly(r: Request, now: int, a: Row)
    ensures NewRow(r, now) == Success(a) <==> RequestedAs(r, now, a)
  {
    RequestFields(r, now, a);
    TextExactly(r.reason, a.reason, 500);
    TextExactly(if r.approvalScope.Some? then r.approvalScope.value else "privileged:approve", a.scope, 160);
    Lifetime(r.expiresInSeconds, 900, 60, 86_400, now, a.expiresAt);
  }

  ghost predicate ActivatedAs(e: Emergency, now: int, a: Row) {
    && e.principal.privileged && e.principal.mfa && "privileged:break-glass" in e.principal.scopes
    && a.actionType == "EMERGENCY_ACCESS" && a.resource == Resource(e.resourceType, e.resourceId, e.principal.customerId)
    && a.fingerprint == EmergencyFingerprint(e) && a.scope == "privileged:break-glass" && a.needsMfa
    && a.requester == e.principal.id && a.approvedBy == Some(e.principal.id) && IsText(e.reason, a.reason, 500)
    && a.requestedAt == now && a.approvedAt == Some(now)
    && (exists seconds :: IsLifetime(e.expiresInSeconds, 300, 60, 900, seconds) && a.expiresAt == now + 1000 * seconds)
    && a.status.EmergencyActive? && a.isEmergency && a.rejectedAt.None? && a.cancelledAt.None? && a.consumedAt.None?
  }

  /** Emergency access is for privileged, strongly authenticated holders of its scope, for at most fifteen minutes. */
  lemma ActivatedExactly(e: Emergency, now: int, a: Row)
    ensures NewEmergency(e, now) == Success(a) <==> ActivatedAs(e, now, a)
  {
    TextExactly(e.reason, a.reason, 500);
    var seconds := if e.expiresInSeconds.Some? then e.expiresInSeconds.value else 300;
    if NewEmergency(e, now) == Success(a) { assert IsLifetime(e.expiresInSeconds, 300, 60, 900, seconds); }
  }

  /** Who may decide a request now: somebody else with its scope, strongly authenticated where that is asked for. */
  predicate MayDecide(a: Row, p: Principal, now: int) {
    && a.status.Requested? && now < a.expiresAt && p.id != a.requester && a.scope in p.scopes && (a.needsMfa ==> p.mfa)
  }

  /** A row past its expiry that was still open is closed by the command. */
  predicate RunsOut(a: Row, now: int) {
    a.expiresAt <= now && (a.status.Requested? || a.status.Approved? || a.status.EmergencyActive?)
  }

  /** Deciding works exactly for those; otherwise it changes a row only to expire it. */
  lemma DecidedExactly(a: Row, approve: bool, p: Principal, now: int)
    ensures var (row, answer) := (Decide(a, approve, p, now).row, Decide(a, approve, p, now).answer);
      && (answer == Decision(true, WasApproved) <==> approve && MayDecide(a, p, now))
      && (approve && MayDecide(a, p, now) ==>
            row == a.(status := Approved, approvedBy := Some(p.id), approvedAt := Some(now), rejectedAt := None))
      && (!approve && MayDecide(a, p, now) ==>
            answer == Decision(false, WasRejected)
            && row == a.(status := Rejected, approvedBy := None, approvedAt := None, rejectedAt := Some(now)))
      && (!MayDecide(a, p, now) ==>
            answer.Decision? && !answer.approved && row == if RunsOut(a, now) then a.(status := Expired) else a)
  {
  }

  /** Only the requester cancels, only a request, also when it is past its expiry. */
  lemma CancelledExactly(a: Row, p: Principal, now: int)
    ensures Cancel(a, p, now).row ==
      if a.status.Requested? && a.requester == p.id then a.(status := Cancelled, cancelledAt := Some(now)) else a
    ensures a.status.Requested? && a.requester == p.id ==> Cancel(a, p, now).answer == Decision(false, WasCancelled)
  {
  }

  /** An emergency grant is revoked by its holder or anybody with the scope for it, while it is active. */
  lemma RevokedExactly(a: Row, p: Principal, now: int)
    ensures RevokeEmergency(a, p, now).row ==
      if a.isEmergency && a.status.EmergencyActive? && (a.requester == p.id || "privileged:break-glass" in p.scopes)
      then a.(status := EmergencyRevoked, cancelledAt := Some(now)) else a
  {
  }

  // ---------------------------------------------------------------------------------------------- where rows come from

  /** What was asked for never changes. */
  predicate SameRequest(a: Row, b: Row) {
    && a.actionType == b.actionType && a.resource == b.resource && a.fingerprint == b.fingerprint && a.scope == b.scope
    && a.needsMfa == b.needsMfa && a.requester == b.requester && a.reason == b.reason
    && a.isEmergency == b.isEmergency && a.requestedAt == b.requestedAt && a.expiresAt == b.expiresAt
  }

  lemma PerformKeepsRequest(a: Row, act: Act, p: Principal, now: int)
    ensures SameRequest(a, Perform(a, act, p, now).row)
  {
  }

  ghost predicate AskedAt(step: Step, key: string, a: Row) {
    match step
    case Ask(request, newId, at) => newId == key && exists first :: RequestedAs(request, at, first) && SameRequest(first, a)
    case Activate(emergency, newId, at) =>
      newId == key && exists first :: ActivatedAs(emergency, at, first) && SameRequest(first, a)
    case Do(_, _, _, _) => false
  }

  /** The command that approved the row, by somebody who was allowed to. */
  ghost predicate ApprovedAt(step: Step, key: string, a: Row) {
    && step.Do? && ToLower(step.id) == key && step.act == DecideAct(true)
    && a.approvedBy == Some(step.principal.id) && a.approvedAt == Some(step.at)
    && step.principal.id != a.requester && a.scope in step.principal.scopes && (a.needsMfa ==> step.principal.mfa)
    && step.at < a.expiresAt
  }

  /** The command that used it, for exactly what it had been asked for. */
  ghost predicate UsedAt(step: Step, key: string, a: Row) {
    && step.Do? && ToLower(step.id) == key && step.act.ConsumeAct? && a.consumedAt == Some(step.at)
    && step.act.use == Use(a.actionType, a.resource, Digest(a.fingerprint))
    && (a.approvedBy == Some(step.principal.id) || "privileged:execute" in step.principal.scopes)
    && step.at < a.expiresAt
  }

  ghost predicate WasAsked(steps: seq<Step>, key: string, a: Row) {
    exists i :: 0 <= i < |steps| && AskedAt(steps[i], key, a)
  }

  ghost predicate AfterApproval(steps: seq<Step>, key: string, a: Row) {
    exists i :: 0 <= i < |steps| && ApprovedAt(steps[i], key, a)
  }

  ghost predicate AfterUse(steps: seq<Step>, key: string, a: Row) {
    exists i, j :: 0 <= i < j < |steps| && ApprovedAt(steps[i], key, a) && UsedAt(steps[j], key, a)
  }

  ghost predicate Traced(steps: seq<Step>, key: string, a: Row) {
    && WasAsked(steps, key, a)
    && (a.status.Approved? ==> AfterApproval(steps, key, a))
    && (a.status.Consumed? ==> AfterUse(steps, key, a))
  }

  lemma TracedLater(steps: seq<Step>, step: Step, key: string, a: Row)
    requires Traced(steps, key, a)
    ensures Traced(steps + [step], key, a)
  {
    var more := steps + [step];
    assert forall i | 0 <= i < |steps| :: more[i] == steps[i];
  }

  lemma AskedStaysAsked(steps: seq<Step>, key: string, a: Row, b: Row)
    requires WasAsked(steps, key, a) && SameRequest(a, b)
    ensures WasAsked(steps, key, b)
  {
    var i :| 0 <= i < |steps| && AskedAt(steps[i], key, a);
    match steps[i]
    case Ask(request, _, at) =>
      var first :| RequestedAs(request, at, first) && SameRequest(first, a);
      assert AskedAt(steps[i], key, b);
    case Activate(emergency, _, at) =>
      var first :| ActivatedAs(emergency, at, first) && SameRequest(first, a);
      assert AskedAt(steps[i], key, b);
  }

  /** One more command on a row of the run. */
  lemma PerformedIsTraced(steps: seq<Step>, step: Step, key: string, a: Row)
    requires Traced(steps, key, a) && step.Do? && ToLower(step.id) == key
    ensures Traced(steps + [step], key, Perform(a, step.act, step.principal, step.at).row)
  {
    var b := Perform(a, step.act, step.principal, step.at).row;
    var more := steps + [step];
    TracedLater(steps, step, key, a);
    PerformKeepsRequest(a, step.act, step.principal, step.at);
    AskedStaysAsked(more, key, a, b);
    assert more[|steps|] == step;
    if b.status.Approved? && !a.status.Approved? {
      ApprovalIsDecision(a, step, key);
      assert ApprovedAt(more[|steps|], key, b);
    }
    if b.status.Consumed? && !a.status.Consumed? {
      UseIsConsumption(a, step, key);
      var i :| 0 <= i < |steps| && ApprovedAt(steps[i], key, a);
      assert more[i] == steps[i] && ApprovedAt(more[i], key, b) && UsedAt(more[|steps|], key, b);
    }
    if b != a && b.status == a.status { StatusMoves(a, step.act, step.principal, step.at); }
  }

  lemma ApprovalIsDecision(a: Row, step: Step, key: string)
    requires step.Do? && ToLower(step.id) == key && !a.status.Approved?
    requires Perform(a, step.act, step.principal, step.at).row.status.Approved?
    ensures ApprovedAt(step, key, Perform(a, step.act, step.principal, step.at).row)
  {
  }

  lemma UseIsConsumption(a: Row, step: Step, key: string)
    requires step.Do? && ToLower(step.id) == key && !a.status.Consumed?
    requires Perform(a, step.act, step.principal, step.at).row.status.Consumed?
    ensures a.status.Approved? && UsedAt(step, key, Perform(a, step.act, step.principal, step.at).row)
    ensures var b := Perform(a, step.act, step.principal, step.at).row;
      b.approvedBy == a.approvedBy && b.approvedAt == a.approvedAt
  {
  }

  lemma StatusMoves(a: Row, act: Act, p: Principal, now: int)
    ensures Perform(a, act, p, now).row == a || Perform(a, act, p, now).row.status != a.status
  {
  }

  lemma NewRowIsTraced(steps: seq<Step>, step: Step, rows: Rows, key: string)
    requires !step.Do? && key !in rows && key in Next(rows, step).0
    ensures Traced(steps + [step], key, Next(rows, step).0[key])
  {
    var a := Next(rows, step).0[key];
    assert (steps + [step])[|steps|] == step;
    match step
    case Ask(request, _, at) =>
      RequestedExactly(request, at, a);
      assert SameRequest(a, a) && AskedAt(step, key, a);
    case Activate(emergency, _, at) =>
      ActivatedExactly(emergency, at, a);
      assert SameRequest(a, a) && AskedAt(step, key, a);
  }

  lemma OtherStepsKeepRow(rows: Rows, step: Step, key: string)
    requires key in rows && !(step.Do? && ToLower(step.id) == key && IsUuid(step.id))
    ensures key in Next(rows, step).0 && Next(rows, step).0[key] == rows[key]
  {
  }

  lemma OwnStepPerforms(rows: Rows, step: Step, key: string)
    requires key in rows && step.Do? && ToLower(step.id) == key && IsUuid(step.id)
    ensures key in Next(rows, step).0
    ensures Next(rows, step).0[key] == Perform(rows[key], step.act, step.principal, step.at).row
  {
  }

  lemma OnlyNewIdsAppear(rows: Rows, step: Step, key: string)
    requires key !in rows && key in Next(rows, step).0
    ensures !step.Do?
  {
  }

  /**
   Over every run, whatever the clock does: every row goes back to one request and still says what was asked for; an
   approved row to the decision of somebody else who had the scope and, where asked for, strong authentication; a
   consumed row moreover to a later use for exactly its action, resource and fingerprint.
   */
  lemma {:induction false} EveryRowIsTraced(steps: seq<Step>, key: string)
    requires key in Run(steps)
    ensures Traced(steps, key, Run(steps)[key])
  {
    var front, step := steps[..|steps| - 1], steps[|steps| - 1];
    assert steps == front + [step];
    if key !in Run(front) {
      OnlyNewIdsAppear(Run(front), step, key);
      NewRowIsTraced(front, step, Run(front), key);
    } else {
      EveryRowIsTraced(front, key);
      if step.Do? && ToLower(step.id) == key && IsUuid(step.id) {
        OwnStepPerforms(Run(front), step, key);
        PerformedIsTraced(front, step, key, Run(front)[key]);
      } else {
        OtherStepsKeepRow(Run(front), step, key);
        TracedLater(front, step, key, Run(front)[key]);
      }
    }
  }
}
