/** Finance role administration: collecting a quorum of approvals for exactly one change. */
module Quorum {
  import opened Prelude
  import opened JsText
  import opened Order
  import opened Json
  import opened LedgerCommands
  import opened LedgerPosting
  import opened Approval

  datatype Action = RoleAssign | RoleRevoke

  datatype Role = Role(key: string, scopes: seq<string>, enabled: bool)

  datatype Rule = Rule(action: Action, initiatingRoles: set<string>, minimumApprovals: int,
    selfApprovalProhibited: bool)

  datatype Config = Config(roles: seq<Role>, rules: seq<Rule>, environment: string)

  /** A date that does not parse is None; instants are in milliseconds. */
  datatype Change = Change(principal: Principal, target: string, roleKey: string, effectiveFrom: Option<int>,
    effectiveTo: Option<int>, expectedVersion: Option<int>, approvalIds: seq<string>)

  datatype AssignmentStatus = ActiveAssignment | RevokedAssignment

  datatype Assignment = Assignment(reference: string, principalId: string, roleKey: string, scopes: seq<string>,
    status: AssignmentStatus, effectiveFrom: Option<int>, effectiveTo: Option<int>, assignedBy: string, assignedAt: int,
    revokedBy: Option<string>, revokedAt: Option<int>, approvalIds: seq<string>)

  /** The committed rows of both tables. */
  datatype Desk = Desk(rows: Rows, assignments: seq<Assignment>)

  datatype Refusal = Forbidden | ConflictingState

  /** A done change reports the approvals it used up and who gave them; an initial assignment needs none. */
  datatype Verdict = Done(initial: bool, used: set<string>, approvers: set<string>) | Refused(refusal: Refusal)

  const FINANCE_ADMIN := "FINANCE_ADMIN"
  const INITIAL_BOOTSTRAP_ASSIGNABLE_ROLES := {"FINANCE_PREPARER", "FINANCE_CONTROLLER", "FINANCE_AUDITOR"}

  function FindRole(roles: seq<Role>, key: string): Option<Role> {
    if roles == [] then None else if roles[0].key == key then Some(roles[0]) else FindRole(roles[1..], key)
  }

  predicate RoleEnabled(roles: seq<Role>, key: string) {
    exists i :: 0 <= i < |roles| && roles[i].key == key && roles[i].enabled
  }

  function FindRule(rules: seq<Rule>, action: Action): Option<Rule> {
    if rules == [] then None else if rules[0].action == action then Some(rules[0]) else FindRule(rules[1..], action)
  }

  function ScopesOf(config: Config, roleKey: string): seq<string> {
    var role := FindRole(config.roles, roleKey);
    if role.Some? then role.value.scopes else []
  }

  // ---------------------------------------------------------------------------------------------- the fingerprint

  function ActionText(action: Action): string {
    if action.RoleAssign? then "FINANCE_ROLE_ASSIGN" else "FINANCE_ROLE_REVOKE"
  }

  /** A digest is represented by its text, and so is the first half of a digest inside a reference. */
  function Reference(config: Config, target: string, roleKey: string): string {
    "a2-fin-role-" + Print(Workforce, ReferenceValue(config, target, roleKey))
  }

  function ReferenceValue(config: Config, target: string, roleKey: string): Value {
    Obj([Keyed("principalId", Str(target)), Keyed("roleKey", Str(roleKey)),
         Keyed("environment", Str(config.environment))])
  }

  function Texts(s: seq<string>): seq<Value> {
    seq(|s|, i requires 0 <= i < |s| => Str(s[i]))
  }

  /** `toISOString`, represented by the decimal text of the instant. */
  function InstantValue(instant: Option<int>): Value {
    if instant.Some? then Str(AmountText(instant.value)) else Undefined
  }

  function VersionValue(version: Option<int>): Value {
    if version.Some? then Number(AmountText(version.value)) else Null
  }

  function ChangeValue(operation: string, reference: string, scopes: seq<string>, environment: string, c: Change): Value {
    Obj([Keyed("operation", Str(operation)), Keyed("assignmentReference", Str(reference)),
         Keyed("targetPrincipalId", Str(c.target)), Keyed("roleKey", Str(c.roleKey)),
         Keyed("scopes", Arr(Texts(scopes))),
         Keyed("effectiveFrom", InstantValue(c.effectiveFrom)), Keyed("effectiveTo", InstantValue(c.effectiveTo)),
         Keyed("expectedVersion", VersionValue(c.expectedVersion)), Keyed("environment", Str(environment))])
  }

  function ChangeText(config: Config, action: Action, c: Change): string {
    Print(Workforce, ChangeValue(ActionText(action), Reference(config, c.target, c.roleKey),
      ScopesOf(config, c.roleKey), config.environment, c))
  }

  /** What the approvals of a change have to be for. */
  function UseFor(config: Config, action: Action, c: Change): Use {
    Use(ActionText(action), Resource("A2_FINANCE_ROLE_ASSIGNMENT", Some(Reference(config, c.target, c.roleKey)), None),
      Digest(ChangeText(config, action, c)))
  }

  // ------------------------------------------------------------------------------------------ collecting approvals

  /** Who approved, when the id is an approval that can be used now. */
  function Approver(rows: Rows, id: string, use: Use, p: Principal, now: int): Option<string> {
    var answer := Applied(rows, id, ConsumeAct(use), p, now).1;
    if answer == Decision(true, WasConsumed) && Find(rows, id).Some? then Find(rows, id).value.approvedBy else None
  }

  /** The loop over the ids: each is consumed in a transaction of its own, and the first refusal stops it. */
  function Collected(rows: Rows, ids: seq<string>, use: Use, p: Principal, now: int): (Rows, Option<set<string>>) {
    if ids == [] then (rows, Some({}))
    else
      var (front, approvers) := Collected(rows, ids[..|ids| - 1], use, p, now);
      var id := ids[|ids| - 1];
      if approvers.None? then (front, None)
      else
        var giver := Approver(front, id, use, p, now);
        (Applied(front, id, ConsumeAct(use), p, now).0,
         if giver.Some? then Some(approvers.value + {giver.value}) else None)
  }

  /** The approval rows an id list stands for. */
  function Keys(ids: seq<string>): set<string> {
    set i | 0 <= i < |ids| :: ToLower(ids[i])
  }

  /** The rows afterwards, and the approvers or None when the change is forbidden. */
  function Gathered(rule: Option<Rule>, rows: Rows, ids: seq<string>, use: Use, p: Principal, now: int)
    : (Rows, Option<set<string>>)
  {
    if rule.None? || |ids| < rule.value.minimumApprovals then (rows, None)
    else
      var (after, approvers) := Collected(rows, ids, use, p, now);
      if approvers.None? || |approvers.value| < rule.value.minimumApprovals
         || (rule.value.selfApprovalProhibited && p.id in approvers.value)
      then (after, None)
      else (after, approvers)
  }

  // ---------------------------------------------------------------------------------------------------- the changes

  function Validate(config: Config, c: Change): Option<Refusal> {
    if c.roleKey == FINANCE_ADMIN || !RoleEnabled(config.roles, c.roleKey) then Some(Forbidden)
    else if c.effectiveFrom.None? || c.effectiveTo.None? || c.effectiveTo.value <= c.effectiveFrom.value then
      Some(ConflictingState)
    else None
  }

  predicate RoleHeld(assignments: seq<Assignment>, roleKey: string) {
    exists i :: 0 <= i < |assignments| && assignments[i].roleKey == roleKey && assignments[i].status.ActiveAssignment?
  }

  function FindActive(assignments: seq<Assignment>, reference: string): (k: nat)
    ensures k <= |assignments|
    ensures k < |assignments| ==> assignments[k].reference == reference && assignments[k].status.ActiveAssignment?
    ensures forall i | 0 <= i < k :: assignments[i].reference != reference || assignments[i].status.RevokedAssignment?
  {
    if assignments == [] then 0
    else if assignments[0].reference == reference && assignments[0].status.ActiveAssignment? then 0
    else 1 + FindActive(assignments[1..], reference)
  }

  function NewAssignment(reference: string, scopes: seq<string>, c: Change, now: int): Assignment {
    Assignment(reference, c.target, c.roleKey, scopes, ActiveAssignment, c.effectiveFrom, c.effectiveTo,
      c.principal.id, now, None, None, c.approvalIds)
  }

  function Withdrawn(a: Assignment, c: Change, now: int): Assignment {
    a.(status := RevokedAssignment, revokedBy := Some(c.principal.id), revokedAt := Some(now))
  }

  function Persist(reference: string, scopes: seq<string>, desk: Desk, c: Change, now: int, done: Verdict)
    : (Desk, Verdict)
  {
    if FindActive(desk.assignments, reference) < |desk.assignments| then (desk, Refused(ConflictingState))
    else (desk.(assignments := desk.assignments + [NewAssignment(reference, scopes, c, now)]), done)
  }

  /** The rest of an assignment, once the approvals have been asked for. */
  function AssignWith(reference: string, scopes: seq<string>, desk: Desk, c: Change, now: int,
    gathered: (Rows, Option<set<string>>)): (Desk, Verdict)
  {
    var after := desk.(rows := gathered.0);
    if gathered.1.None? then (after, Refused(Forbidden))
    else Persist(reference, scopes, after, c, now, Done(false, Keys(c.approvalIds), gathered.1.value))
  }

  /** The rest of a revocation, once the approvals have been asked for. */
  function RevokeWith(reference: string, desk: Desk, c: Change, now: int, gathered: (Rows, Option<set<string>>))
    : (Desk, Verdict)
  {
    var after := desk.(rows := gathered.0);
    if gathered.1.None? then (after, Refused(Forbidden))
    else
      var k := FindActive(desk.assignments, reference);
      if k == |desk.assignments| then (after, Refused(ConflictingState))
      else
        (Desk(gathered.0, desk.assignments[k := Withdrawn(desk.assignments[k], c, now)]),
         Done(false, Keys(c.approvalIds), gathered.1.value))
  }

  /** What the configuration makes of a change. */
  datatype Terms = Terms(invalid: Option<Refusal>, rule: Option<Rule>, reference: string, scopes: seq<string>, use: Use)

  function TermsOf(config: Config, action: Action, c: Change): Terms {
    Terms(Validate(config, c), FindRule(config.rules, action), Reference(config, c.target, c.roleKey),
      ScopesOf(config, c.roleKey), UseFor(config, action, c))
  }

  function AssignGuard(invalid: Option<Refusal>, c: Change): Option<Refusal> {
    if invalid.Some? then invalid
    else if c.principal.id == c.target || !c.principal.mfa then Some(Forbidden)
    else None
  }

  function ConsumeApprovals(terms: Terms, rows: Rows, c: Change, now: int): (Rows, Option<set<string>>) {
    Gathered(terms.rule, rows, DistinctIds(c.approvalIds), terms.use, c.principal, now)
  }

  function Assign(terms: Terms, desk: Desk, c: Change, now: int): (Desk, Verdict) {
    if AssignGuard(terms.invalid, c).Some? then (desk, Refused(AssignGuard(terms.invalid, c).value))
    else if !RoleHeld(desk.assignments, c.roleKey) then
      if FINANCE_ADMIN !in c.principal.roles || c.roleKey !in INITIAL_BOOTSTRAP_ASSIGNABLE_ROLES
      then (desk, Refused(Forbidden))
      else Persist(terms.reference, terms.scopes, desk, c, now, Done(true, {}, {}))
    else if terms.rule.None? || terms.rule.value.initiatingRoles !! c.principal.roles then (desk, Refused(Forbidden))
    else AssignWith(terms.reference, terms.scopes, desk, c, now, ConsumeApprovals(terms, desk.rows, c, now))
  }

  function Revoke(terms: Terms, desk: Desk, c: Change, now: int): (Desk, Verdict) {
    if terms.invalid.Some? then (desk, Refused(terms.invalid.value))
    else if c.principal.id == c.target then (desk, Refused(Forbidden))
    else RevokeWith(terms.reference, desk, c, now, ConsumeApprovals(terms, desk.rows, c, now))
  }

  /** One active assignment of the role to its target is new, and there was no active one before. */
  predicate OneMore(before: seq<Assignment>, after: seq<Assignment>, reference: string, c: Change) {
    && |after| == |before| + 1 && after[..|before|] == before
    && (forall i | 0 <= i < |before| && before[i].status.ActiveAssignment? :: before[i].reference != reference)
    && after[|before|].status.ActiveAssignment? && after[|before|].reference == reference
    && after[|before|].principalId == c.target && after[|before|].roleKey == c.roleKey
    && after[|before|].assignedBy == c.principal.id
  }

  /** One active assignment of the role is revoked, and nothing else changes. */
  predicate OneWithdrawn(before: seq<Assignment>, after: seq<Assignment>, reference: string, c: Change) {
    && |after| == |before|
    && exists k | 0 <= k < |before| ::
         && before[k].status.ActiveAssignment? && before[k].reference == reference
         && after[k].status.RevokedAssignment? && after[k].revokedBy == Some(c.principal.id)
         && after == before[k := after[k]]
  }

  class RoleAdministration {
    const config: Config
    const approvals: ApprovalStore
    var assignments: seq<Assignment>

    constructor (config: Config, approvals: ApprovalStore)
      ensures this.config == config && this.approvals == approvals && assignments == []
    {
      this.config, this.approvals, assignments := config, approvals, [];
    }

    function Contents(): Desk
      reads this, approvals
    {
      Desk(approvals.rows, assignments)
    }

    /** The loop that consumes the approvals one by one and collects who gave them. */
    method CollectApprovers(ids: seq<string>, use: Use, p: Principal, now: int)
      returns (approvers: Option<set<string>>)
      modifies approvals
      ensures (approvals.rows, approvers) == Collected(old(approvals.rows), ids, use, p, now)
    {
      var found: set<string> := {};
      for i := 0 to |ids|
        invariant (approvals.rows, Some(found)) == Collected(old(approvals.rows), ids[..i], use, p, now)
      {
        assert ids[..i + 1][..i] == ids[..i];
        ghost var before := approvals.rows;
        var approval := Find(approvals.rows, ids[i]);
        var answer := approvals.ConsumeInTransaction(ids[i], use, p, now);
        if answer != Decision(true, WasConsumed) || approval.None? || approval.value.approvedBy.None? {
          assert Approver(before, ids[i], use, p, now) == None;
          StopsThere(old(approvals.rows), ids, i + 1, use, p, now);
          return None;
        }
        found := found + {approval.value.approvedBy.value};
      }
      assert ids[..|ids|] == ids;
      approvers := Some(found);
    }

    method ConsumeApprovalsOf(action: Action, c: Change, now: int) returns (approvers: Option<set<string>>)
      modifies approvals
      ensures (approvals.rows, approvers) ==
        ConsumeApprovals(TermsOf(config, action, c), old(approvals.rows), c, now)
    {
      var rule := FindRule(config.rules, action);
      if rule.None? {
        return None;
      }
      var ids := DistinctIds(c.approvalIds);
      if |ids| < rule.value.minimumApprovals {
        return None;
      }
      var found := CollectApprovers(ids, UseFor(config, action, c), c.principal, now);
      if found.None? || |found.value| < rule.value.minimumApprovals {
        return None;
      }
      if rule.value.selfApprovalProhibited && c.principal.id in found.value {
        return None;
      }
      approvers := found;
    }

    method PersistAssignment(c: Change, now: int, done: Verdict) returns (verdict: Verdict)
      modifies this
      ensures (Contents(), verdict) ==
        Persist(Reference(config, c.target, c.roleKey), ScopesOf(config, c.roleKey), old(Contents()), c, now, done)
      ensures verdict != done ==> verdict == Refused(ConflictingState) && assignments == old(assignments)
      ensures assignments != old(assignments) ==>
        OneMore(old(assignments), assignments, Reference(config, c.target, c.roleKey), c)
    {
      var reference := Reference(config, c.target, c.roleKey);
      if FindActive(assignments, reference) < |assignments| {
        return Refused(ConflictingState);
      }
      assignments := assignments + [NewAssignment(reference, ScopesOf(config, c.roleKey), c, now)];
      verdict := done;
    }

    method AssignRole(c: Change, now: int) returns (verdict: Verdict)
      modifies this, approvals
      ensures (Contents(), verdict) == Assign(TermsOf(config, RoleAssign, c), old(Contents()), c, now)
      ensures if verdict.Refused? then assignments == old(assignments)
        else
          && c.principal.id != c.target && c.principal.mfa && c.roleKey != FINANCE_ADMIN
          && OneMore(old(assignments), assignments, Reference(config, c.target, c.roleKey), c)
    {
      var guard := AssignGuard(Validate(config, c), c);
      if guard.Some? {
        return Refused(guard.value);
      }
      if !RoleHeld(assignments, c.roleKey) {
        if FINANCE_ADMIN !in c.principal.roles || c.roleKey !in INITIAL_BOOTSTRAP_ASSIGNABLE_ROLES {
          return Refused(Forbidden);
        }
        verdict := PersistAssignment(c, now, Done(true, {}, {}));
      } else {
        var rule := FindRule(config.rules, RoleAssign);
        if rule.None? || rule.value.initiatingRoles !! c.principal.roles {
          return Refused(Forbidden);
        }
        var approvers := ConsumeApprovalsOf(RoleAssign, c, now);
        if approvers.None? {
          return Refused(Forbidden);
        }
        verdict := PersistAssignment(c, now, Done(false, Keys(c.approvalIds), approvers.value));
      }
    }

    method RevokeRole(c: Change, now: int) returns (verdict: Verdict)
      modifies this, approvals
      ensures (Contents(), verdict) == Revoke(TermsOf(config, RoleRevoke, c), old(Contents()), c, now)
      ensures if verdict.Refused? then assignments == old(assignments)
        else
          && c.principal.id != c.target
          && OneWithdrawn(old(assignments), assignments, Reference(config, c.target, c.roleKey), c)
    {
      var invalid := Validate(config, c);
      if invalid.Some? {
        return Refused(invalid.value);
      }
      if c.principal.id == c.target {
        return Refused(Forbidden);
      }
      var approvers := ConsumeApprovalsOf(RoleRevoke, c, now);
      if approvers.None? {
        return Refused(Forbidden);
      }
      var k := FindActive(assignments, Reference(config, c.target, c.roleKey));
      if k == |assignments| {
        return Refused(ConflictingState);
      }
      assignments := assignments[k := Withdrawn(assignments[k], c, now)];
      verdict := Done(false, Keys(c.approvalIds), approvers.value);
    }
  }

  /** Once the loop has been refused it takes no further approval. */
  lemma {:induction false} StopsThere(rows: Rows, ids: seq<string>, k: nat, use: Use, p: Principal, now: int)
    requires k <= |ids| && Collected(rows, ids[..k], use, p, now).1.None?
    ensures Collected(rows, ids, use, p, now) == Collected(rows, ids[..k], use, p, now)
  {
    if k < |ids| {
      var front := ids[..|ids| - 1];
      assert front[..k] == ids[..k];
      StopsThere(rows, front, k, use, p, now);
    } else {
      assert ids[..k] == ids;
    }
  }
}
