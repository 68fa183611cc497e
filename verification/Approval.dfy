/** Maker/checker approvals: the commands on one row, and the row's life over whole runs. */
module Approval {
  import opened Prelude
  import opened JsText
  import opened Order
  import opened Json
  import opened LedgerCommands

  datatype Status =
    | Requested | Approved | Rejected | Cancelled | Consumed | Expired | EmergencyActive | EmergencyRevoked

  datatype Principal = Principal(id: string, privileged: bool, mfa: bool, scopes: set<string>, roles: set<string>,
    customerId: Option<string>)

  /** A fingerprint argument: the hex digest of a text, in any letter case, or something that is not one. */
  datatype Fingerprint = Digest(text: string) | NotHex

  datatype Resource = Resource(resourceType: string, id: Option<string>, customerId: Option<string>)

  /** Times are in milliseconds; a stored fingerprint is represented by the text it is the digest of. */
  datatype Row = Row(actionType: string, resource: Resource, fingerprint: string, scope: string, needsMfa: bool,
    requester: string, approvedBy: Option<string>, reason: string, status: Status, isEmergency: bool,
    requestedAt: int, expiresAt: int, approvedAt: Option<int>, rejectedAt: Option<int>, cancelledAt: Option<int>,
    consumedAt: Option<int>)

  /** The reason given with a decision. */
  datatype Reason =
    | Missing | WasRequested | WasApproved | WasRejected | WasCancelled | WasConsumed | WasExpired
    | ScopeMissing | SelfApproval | MfaRequired | ResourceMismatch | FingerprintMismatch | InvalidEmergencyAccess
    | NotAuthorized(why: string)

  datatype Answer = Decision(approved: bool, reason: Reason) | Malformed

  datatype Turn = Turn(row: Row, answer: Answer)

  const MIN_APPROVAL_TTL_SECONDS := 60
  const MAX_APPROVAL_TTL_SECONDS := 86_400
  const DEFAULT_APPROVAL_TTL := 900
  const MIN_EMERGENCY_TTL_SECONDS := 60
  const MAX_EMERGENCY_TTL_SECONDS := 900
  const DEFAULT_EMERGENCY_TTL := 300

  // --------------------------------------------------------------------------------------------------- the commands

  /** What is asked for; `denied` is the reason for which the authorization policy refuses it, if it does. */
  datatype Request = Request(principal: Principal, denied: Option<string>, action: string, resource: Resource,
    fingerprint: Fingerprint, reason: string, approvalScope: Option<string>, needsMfa: bool,
    expiresInSeconds: Option<int>)

  datatype Emergency = Emergency(principal: Principal, resourceType: string, resourceId: Option<string>,
    reason: string, expiresInSeconds: Option<int>)

  /** What an approval is used for. */
  datatype Use = Use(actionType: string, resource: Resource, fingerprint: Fingerprint)

  function NormalizeText(value: string, max: nat): Result<string, Error> {
    var normalized := Trim(value);
    if normalized == "" || Length(normalized) > max then Failure(BadRequest) else Success(normalized)
  }

  function NormalizeTtl(ttl: Option<int>, default: int, min: int, max: int): Result<int, Error> {
    var seconds := if ttl.Some? then ttl.value else default;
    if min <= seconds <= max then Success(seconds) else Failure(BadRequest)
  }

  function NewRow(r: Request, now: int): Result<Row, Answer> {
    var reason, scope := NormalizeText(r.reason, 500),
      NormalizeText(if r.approvalScope.Some? then r.approvalScope.value else "privileged:approve", 160);
    if r.fingerprint.NotHex? || reason.Failure? || scope.Failure? then Failure(Malformed)
    else if r.denied.Some? then Failure(Decision(false, NotAuthorized(r.denied.value)))
    else
      var ttl := NormalizeTtl(r.expiresInSeconds, DEFAULT_APPROVAL_TTL, MIN_APPROVAL_TTL_SECONDS,
                              MAX_APPROVAL_TTL_SECONDS);
      if ttl.Failure? then Failure(Malformed)
      else
        var customer := if r.resource.customerId.Some? then r.resource.customerId else r.principal.customerId;
        Success(Row(r.action, r.resource.(customerId := customer), r.fingerprint.text, scope.value, r.needsMfa,
          r.principal.id, None, reason.value, Requested, false, now, now + ttl.value * 1000, None, None, None, None))
  }

  function EmergencyFingerprint(e: Emergency): string {
    Stringify(Obj([Keyed("action", Str("EMERGENCY_ACCESS")), Keyed("resourceType", Str(e.resourceType)),
                   Keyed("resourceId", OptionalValue(e.resourceId))]))
  }

  function NewEmergency(e: Emergency, now: int): Result<Row, Answer> {
    if !e.principal.privileged || !e.principal.mfa || "privileged:break-glass" !in e.principal.scopes then
      Failure(Decision(false, InvalidEmergencyAccess))
    else
      var reason := NormalizeText(e.reason, 500);
      var ttl := NormalizeTtl(e.expiresInSeconds, DEFAULT_EMERGENCY_TTL, MIN_EMERGENCY_TTL_SECONDS,
                              MAX_EMERGENCY_TTL_SECONDS);
      if reason.Failure? || ttl.Failure? then Failure(Malformed)
      else
        Success(Row("EMERGENCY_ACCESS", Resource(e.resourceType, e.resourceId, e.principal.customerId),
          EmergencyFingerprint(e), "privileged:break-glass", true, e.principal.id, Some(e.principal.id), reason.value,
          EmergencyActive, true, now, now + ttl.value * 1000, Some(now), None, None, None))
  }

  predicate RequiresExpiry(a: Row, now: int) {
    a.expiresAt <= now && a.status in {Requested, Approved, EmergencyActive}
  }

  function StatusReason(status: Status): Reason {
    match status
    case Approved => WasApproved
    case Rejected => WasRejected
    case Cancelled => WasCancelled
    case EmergencyRevoked => WasCancelled
    case Consumed => WasConsumed
    case Expired => WasExpired
    case Requested => WasRequested
    case EmergencyActive => WasRequested
  }

  function Refuse(a: Row, reason: Reason): Turn {
    Turn(a, Decision(false, reason))
  }

  function Decide(a: Row, approve: bool, p: Principal, now: int): Turn {
    if RequiresExpiry(a, now) then Refuse(a.(status := Expired), WasExpired)
    else if a.status != Requested then Refuse(a, StatusReason(a.status))
    else if a.requester == p.id then Refuse(a, SelfApproval)
    else if a.scope !in p.scopes then Refuse(a, ScopeMissing)
    else if a.needsMfa && !p.mfa then Refuse(a, MfaRequired)
    else if approve then
      Turn(a.(status := Approved, approvedBy := Some(p.id), approvedAt := Some(now), rejectedAt := None),
        Decision(true, WasApproved))
    else
      Turn(a.(status := Rejected, approvedBy := None, approvedAt := None, rejectedAt := Some(now)),
        Decision(false, WasRejected))
  }

  /** Only the requester cancels; a request past its expiry can still be cancelled. */
  function Cancel(a: Row, p: Principal, now: int): Turn {
    if a.requester != p.id then Refuse(a, ScopeMissing)
    else if a.status != Requested then Refuse(a, StatusReason(a.status))
    else Turn(a.(status := Cancelled, cancelledAt := Some(now)), Decision(false, WasCancelled))
  }

  function Consume(a: Row, use: Use, p: Principal, now: int): Turn {
    if RequiresExpiry(a, now) then Refuse(a.(status := Expired), WasExpired)
    else if a.status != Approved then Refuse(a, StatusReason(a.status))
    else if a.approvedBy != Some(p.id) && "privileged:execute" !in p.scopes then Refuse(a, ScopeMissing)
    else if a.actionType != use.actionType || a.resource != use.resource then Refuse(a, ResourceMismatch)
    else if use.fingerprint.NotHex? then Turn(a, Malformed)
    else if a.fingerprint != use.fingerprint.text then Refuse(a, FingerprintMismatch)
    else Turn(a.(status := Consumed, consumedAt := Some(now)), Decision(true, WasConsumed))
  }

  function RevokeEmergency(a: Row, p: Principal, now: int): Turn {
    if !a.isEmergency then Refuse(a, Missing)
    else if a.requester != p.id && "privileged:break-glass" !in p.scopes then Refuse(a, ScopeMissing)
    else if a.status != EmergencyActive then Refuse(a, StatusReason(a.status))
    else Turn(a.(status := EmergencyRevoked, cancelledAt := Some(now)), Decision(false, WasCancelled))
  }

  // ---------------------------------------------------------------------------------------------------- the service

  type Rows = map<string, Row>

  /** Ids are UUIDs, which the database compares without regard to letter case. */
  function Find(rows: Rows, id: string): Option<Row> {
    if IsUuid(id) && ToLower(id) in rows then Some(rows[ToLower(id)]) else None
  }

  function Save(rows: Rows, id: string, row: Row): Rows {
    rows[ToLower(id) := row]
  }

  ghost predicate SameElsewhere(before: Rows, after: Rows, key: string) {
    forall other | other != key ::
      (other in after <==> other in before) && (other in before ==> after[other] == before[other])
  }

  class ApprovalStore {
    var rows: Rows

    constructor ()
      ensures rows == map[]
    {
      rows := map[];
    }

    method RequestApproval(request: Request, newId: string, now: int) returns (answer: Answer)
      requires newId !in rows
      modifies this
      ensures answer == RequestAnswer(request, now)
      ensures rows == RowsAfterRequest(old(rows), request, newId, now)
      ensures SameElsewhere(old(rows), rows, newId) && answer != Decision(true, WasApproved)
      ensures answer == Decision(false, WasRequested) <==> newId in rows
      ensures newId in rows ==>
        var a := rows[newId];
        && a.status.Requested? && a.requester == request.principal.id && !a.isEmergency && a.approvedBy.None?
        && now + MIN_APPROVAL_TTL_SECONDS * 1000 <= a.expiresAt <= now + MAX_APPROVAL_TTL_SECONDS * 1000
    {
      var row := NewRow(request, now);
      if row.Failure? {
        return row.error;
      }
      rows := rows[newId := row.value];
      answer := Decision(false, WasRequested);
    }

    method DecideApproval(id: string, approve: bool, p: Principal, now: int) returns (answer: Answer)
      modifies this
      ensures (rows, answer) == Applied(old(rows), id, DecideAct(approve), p, now)
      ensures SameElsewhere(old(rows), rows, ToLower(id))
      ensures answer.Decision? && answer.approved ==>
        && approve && Find(old(rows), id).Some? && Find(rows, id).Some?
        && var a := Find(old(rows), id).value;
        && a.status.Requested? && now < a.expiresAt && a.requester != p.id && a.scope in p.scopes
        && Find(rows, id).value.status.Approved? && Find(rows, id).value.approvedBy == Some(p.id)
    {
      var found := Find(rows, id);
      if found.None? {
        return Decision(false, Missing);
      }
      var a := found.value;
      if RequiresExpiry(a, now) {
        rows := Save(rows, id, a.(status := Expired));
        return Decision(false, WasExpired);
      }
      if a.status != Requested {
        return Decision(false, StatusReason(a.status));
      }
      if a.requester == p.id {
        return Decision(false, SelfApproval);
      }
      if a.scope !in p.scopes {
        return Decision(false, ScopeMissing);
      }
      if a.needsMfa && !p.mfa {
        return Decision(false, MfaRequired);
      }
      a := a.(status := if approve then Approved else Rejected);
      a := a.(approvedBy := if approve then Some(p.id) else None);
      a := a.(approvedAt := if approve then Some(now) else None);
      a := a.(rejectedAt := if approve then None else Some(now));
      rows := Save(rows, id, a);
      answer := Decision(approve, if approve then WasApproved else WasRejected);
    }

    method CancelApproval(id: string, p: Principal, now: int) returns (answer: Answer)
      modifies this
      ensures (rows, answer) == Applied(old(rows), id, CancelAct, p, now)
      ensures SameElsewhere(old(rows), rows, ToLower(id))
      ensures rows != old(rows) ==>
        && Find(old(rows), id).Some? && Find(rows, id).Some? && Find(rows, id).value.status.Cancelled?
        && Find(old(rows), id).value.status.Requested? && Find(old(rows), id).value.requester == p.id
    {
      var found := Find(rows, id);
      if found.None? {
        return Decision(false, Missing);
      }
      var a := found.value;
      if a.requester != p.id {
        return Decision(false, ScopeMissing);
      }
      if a.status != Requested {
        return Decision(false, StatusReason(a.status));
      }
      a := a.(status := Cancelled, cancelledAt := Some(now));
      rows := Save(rows, id, a);
      answer := Decision(false, WasCancelled);
    }

    method ConsumeInTransaction(id: string, use: Use, p: Principal, now: int) returns (answer: Answer)
      modifies this
      ensures (rows, answer) == Applied(old(rows), id, ConsumeAct(use), p, now)
      ensures SameElsewhere(old(rows), rows, ToLower(id))
      ensures answer.Decision? && answer.approved ==>
        && Find(old(rows), id).Some? && Find(rows, id).Some?
        && var a := Find(old(rows), id).value;
        && a.status.Approved? && now < a.expiresAt && Digest(a.fingerprint) == use.fingerprint
        && Find(rows, id).value.status.Consumed? && Find(rows, id).value.consumedAt == Some(now)
    {
      var found := Find(rows, id);
      if found.None? {
        return Decision(false, Missing);
      }
      var a := found.value;
      if RequiresExpiry(a, now) {
        rows := Save(rows, id, a.(status := Expired));
        return Decision(false, WasExpired);
      }
      if a.status != Approved {
        return Decision(false, StatusReason(a.status));
      }
      if a.approvedBy != Some(p.id) && "privileged:execute" !in p.scopes {
        return Decision(false, ScopeMissing);
      }
      if a.actionType != use.actionType || a.resource != use.resource {
        return Decision(false, ResourceMismatch);
      }
      if use.fingerprint.NotHex? {
        return Malformed;
      }
      if a.fingerprint != use.fingerprint.text {
        return Decision(false, FingerprintMismatch);
      }
      a := a.(status := Consumed, consumedAt := Some(now));
      rows := Save(rows, id, a);
      answer := Decision(true, WasConsumed);
    }

    method ActivateEmergencyAccess(e: Emergency, newId: string, now: int) returns (answer: Answer)
      requires newId !in rows
      modifies this
      ensures answer == EmergencyAnswer(e, now)
      ensures rows == RowsAfterEmergency(old(rows), e, newId, now)
      ensures SameElsewhere(old(rows), rows, newId)
      ensures answer == Decision(true, WasApproved) <==> newId in rows
      ensures newId in rows ==>
        var a := rows[newId];
        && a.status.EmergencyActive? && a.isEmergency && a.requester == e.principal.id
        && e.principal.privileged && e.principal.mfa && "privileged:break-glass" in e.principal.scopes
        && now + MIN_EMERGENCY_TTL_SECONDS * 1000 <= a.expiresAt <= now + MAX_EMERGENCY_TTL_SECONDS * 1000
    {
      var row := NewEmergency(e, now);
      if row.Failure? {
        return row.error;
      }
      rows := rows[newId := row.value];
      answer := Decision(true, WasApproved);
    }

    method RevokeEmergencyAccess(id: string, p: Principal, now: int) returns (answer: Answer)
      modifies this
      ensures (rows, answer) == Applied(old(rows), id, RevokeAct, p, now)
      ensures SameElsewhere(old(rows), rows, ToLower(id))
      ensures rows != old(rows) ==>
        && Find(old(rows), id).Some? && Find(rows, id).Some? && Find(rows, id).value.status.EmergencyRevoked?
        && Find(old(rows), id).value.status.EmergencyActive? && Find(old(rows), id).value.isEmergency
    {
      var found := Find(rows, id);
      if found.None? || !found.value.isEmergency {
        return Decision(false, Missing);
      }
      var a := found.value;
      if a.requester != p.id && "privileged:break-glass" !in p.scopes {
        return Decision(false, ScopeMissing);
      }
      if a.status != EmergencyActive {
        return Decision(false, StatusReason(a.status));
      }
      a := a.(status := EmergencyRevoked, cancelledAt := Some(now));
      rows := Save(rows, id, a);
      answer := Decision(false, WasCancelled);
    }
  }

  // ------------------------------------------------------------------------------------------------------ whole runs

  /** The commands on an existing row. */
  datatype Act = DecideAct(approve: bool) | CancelAct | ConsumeAct(use: Use) | RevokeAct

  function Perform(a: Row, act: Act, p: Principal, now: int): Turn {
    match act
    case DecideAct(approve) => Decide(a, approve, p, now)
    case CancelAct => Cancel(a, p, now)
    case ConsumeAct(use) => Consume(a, use, p, now)
    case RevokeAct => RevokeEmergency(a, p, now)
  }

  function Applied(rows: Rows, id: string, act: Act, p: Principal, now: int): (Rows, Answer) {
    var found := Find(rows, id);
    if found.None? then (rows, Decision(false, Missing))
    else
      var turn := Perform(found.value, act, p, now);
      (if turn.row == found.value then rows else Save(rows, id, turn.row), turn.answer)
  }

  function RequestAnswer(r: Request, now: int): Answer {
    if NewRow(r, now).Success? then Decision(false, WasRequested) else NewRow(r, now).error
  }

  function RowsAfterRequest(rows: Rows, r: Request, newId: string, now: int): Rows {
    if NewRow(r, now).Success? then rows[newId := NewRow(r, now).value] else rows
  }

  function EmergencyAnswer(e: Emergency, now: int): Answer {
    if NewEmergency(e, now).Success? then Decision(true, WasApproved) else NewEmergency(e, now).error
  }

  function RowsAfterEmergency(rows: Rows, e: Emergency, newId: string, now: int): Rows {
    if NewEmergency(e, now).Success? then rows[newId := NewEmergency(e, now).value] else rows
  }
}
