/** Exactly when a role change goes through, in terms of the rows it finds. */
module QuorumExact {
  import opened Prelude
  import opened JsText
  import opened LedgerPosting
  import opened LedgerInvariant
  import opened Approval
  import opened ApprovalLifecycle
  import opened Quorum
  import opened QuorumProperties

  // ----------------------------------------------------------------------------------------------- the approvals

  /** The id stands for a grant that this principal can use for exactly this now. */
  predicate Ready(rows: Rows, id: string, use: Use, p: Principal, now: int) {
    var key := ToLower(id);
    && IsUuid(id) && key in rows && rows[key].status.Approved? && now < rows[key].expiresAt
    && rows[key].approvedBy.Some? && (rows[key].approvedBy.value == p.id || "privileged:execute" in p.scopes)
    && rows[key].actionType == use.actionType && rows[key].resource == use.resource
    && Digest(rows[key].fingerprint) == use.fingerprint
  }

  predicate AllReady(rows: Rows, ids: seq<string>, use: Use, p: Principal, now: int) {
    forall i | 0 <= i < |ids| :: Ready(rows, ids[i], use, p, now)
  }

  lemma ApproverExactly(rows: Rows, id: string, use: Use, p: Principal, now: int)
    ensures Approver(rows, id, use, p, now).Some? <==> Ready(rows, id, use, p, now)
  {
    if Find(rows, id).Some? { UseNeedsGrant(Find(rows, id).value, use, p, now); }
  }

  lemma {:induction false} KeysAtMost(ids: seq<string>)
    ensures |Keys(ids)| <= |ids|
  {
    if ids == [] {
      assert Keys(ids) == {};
    } else {
      KeysAtMost(ids[..|ids| - 1]);
      LastKey(ids);
    }
  }

  /** The rows that the ids before the last leave: the last id's is as it was, unless one of them stands for it too. */
  lemma LastIsReady(rows: Rows, after: Rows, keys: set<string>, id: string, use: Use, p: Principal, now: int)
    requires UsedUp(rows, after, keys, use, now)
    ensures Ready(after, id, use, p, now) <==> ToLower(id) !in keys && Ready(rows, id, use, p, now)
  {
  }

  lemma AllReadyLast(rows: Rows, ids: seq<string>, use: Use, p: Principal, now: int)
    requires ids != []
    ensures AllReady(rows, ids, use, p, now) <==>
      AllReady(rows, ids[..|ids| - 1], use, p, now) && Ready(rows, ids[|ids| - 1], use, p, now)
  {
    var front := ids[..|ids| - 1];
    assert forall i | 0 <= i < |front| :: front[i] == ids[i];
    if AllReady(rows, front, use, p, now) && Ready(rows, ids[|ids| - 1], use, p, now) {
      forall i | 0 <= i < |ids| ensures Ready(rows, ids[i], use, p, now) {
        if i < |front| { assert Ready(rows, front[i], use, p, now); }
      }
    }
  }

  /** The loop gets through if and only if no approval is named twice and each is ready. */
  lemma {:induction false} CollectedExactly(rows: Rows, ids: seq<string>, use: Use, p: Principal, now: int)
    ensures Collected(rows, ids, use, p, now).1.Some? <==> |Keys(ids)| == |ids| && AllReady(rows, ids, use, p, now)
  {
    if ids == [] {
      assert Keys(ids) == {};
    } else {
      var front, id := ids[..|ids| - 1], ids[|ids| - 1];
      var before := Collected(rows, front, use, p, now).0;
      CollectedExactly(rows, front, use, p, now);
      LastKey(ids);
      KeysAtMost(front);
      AllReadyLast(rows, ids, use, p, now);
      if Collected(rows, front, use, p, now).1.Some? {
        CollectedFacts(rows, front, use, p, now);
        ApproverExactly(before, id, use, p, now);
        LastIsReady(rows, before, Keys(front), id, use, p, now);
      }
    }
  }

  /** Who gave the approvals that the ids stand for. */
  function ApproversOf(rows: Rows, ids: seq<string>): set<string> {
    set key | key in Keys(ids) && key in rows && rows[key].approvedBy.Some? :: rows[key].approvedBy.value
  }

  ghost predicate HasQuorum(rule: Rule, rows: Rows, ids: seq<string>, use: Use, p: Principal, now: int) {
    && rule.minimumApprovals <= |ids| && |Keys(ids)| == |ids| && AllReady(rows, ids, use, p, now)
    && rule.minimumApprovals <= |ApproversOf(rows, ids)|
    && (rule.selfApprovalProhibited ==> p.id !in ApproversOf(rows, ids))
  }

  /** The approvals suffice if and only if they are a quorum of different, ready approvals. */
  lemma GatheredExactly(rule: Option<Rule>, rows: Rows, ids: seq<string>, use: Use, p: Principal, now: int)
    ensures Gathered(rule, rows, ids, use, p, now).1.Some? <==> rule.Some? && HasQuorum(rule.value, rows, ids, use, p, now)
    ensures Gathered(rule, rows, ids, use, p, now).1.Some? ==>
      Gathered(rule, rows, ids, use, p, now).1.value == ApproversOf(rows, ids)
  {
    CollectedExactly(rows, ids, use, p, now);
    if Collected(rows, ids, use, p, now).1.Some? {
      CollectedFacts(rows, ids, use, p, now);
      var approvers := Collected(rows, ids, use, p, now).1.value;
      forall giver ensures giver in approvers <==> giver in ApproversOf(rows, ids) {
        assert giver in approvers <==> Some(giver) in Givers(rows, Keys(ids));
      }
      assert approvers == ApproversOf(rows, ids);
    }
  }

  // ------------------------------------------------------------------------------------------------------ the changes

  /** A role that is configured, enabled and not the administrator's, for a time that does not end before it begins. */
  predicate Eligible(config: Config, c: Change) {
    && c.roleKey != "FINANCE_ADMIN" && (exists r :: r in config.roles && r.key == c.roleKey && r.enabled)
    && c.effectiveFrom.Some? && c.effectiveTo.Some? && c.effectiveFrom.value < c.effectiveTo.value
  }

  lemma ValidExactly(config: Config, c: Change)
    ensures Validate(config, c).None? <==> Eligible(config, c)
    ensures Validate(config, c) == Some(Forbidden) <==>
      c.roleKey == "FINANCE_ADMIN" || forall r | r in config.roles && r.key == c.roleKey :: !r.enabled
  {
    if RoleEnabled(config.roles, c.roleKey) {
      var i :| 0 <= i < |config.roles| && config.roles[i].key == c.roleKey && config.roles[i].enabled;
      assert config.roles[i] in config.roles;
    }
  }

  ghost predicate SomebodyHolds(desk: Desk, roleKey: string) {
    exists a :: a in desk.assignments && a.roleKey == roleKey && a.status.ActiveAssignment?
  }

  ghost predicate HasActive(desk: Desk, reference: string) {
    exists a :: a in desk.assignments && a.reference == reference && a.status.ActiveAssignment?
  }

  /** The first holder of one of the bootstrap roles, appointed by the administrator without approvals. */
  predicate IsInitial(c: Change) {
    && "FINANCE_ADMIN" in c.principal.roles
    && (c.roleKey == "FINANCE_PREPARER" || c.roleKey == "FINANCE_CONTROLLER" || c.roleKey == "FINANCE_AUDITOR")
  }

  ghost predicate MayInitiate(rule: Rule, p: Principal) {
    exists role :: role in rule.initiatingRoles && role in p.roles
  }

  ghost predicate Approved(config: Config, action: Action, desk: Desk, c: Change, now: int) {
    var terms := TermsOf(config, action, c);
    terms.rule.Some?
    && HasQuorum(terms.rule.value, desk.rows, DistinctIds(c.approvalIds), terms.use, c.principal, now)
  }

  lemma HoldersAreFound(desk: Desk, roleKey: string, reference: string)
    ensures RoleHeld(desk.assignments, roleKey) <==> SomebodyHolds(desk, roleKey)
    ensures FindActive(desk.assignments, reference) < |desk.assignments| <==> HasActive(desk, reference)
  {
    if RoleHeld(desk.assignments, roleKey) {
      var i :| 0 <= i < |desk.assignments| && desk.assignments[i].roleKey == roleKey
        && desk.assignments[i].status.ActiveAssignment?;
      assert desk.assignments[i] in desk.assignments;
    }
    var k := FindActive(desk.assignments, reference);
    if k < |desk.assignments| { assert desk.assignments[k] in desk.assignments; }
    if a :| a in desk.assignments && a.reference == reference && a.status.ActiveAssignment? {
      var i :| 0 <= i < |desk.assignments| && desk.assignments[i] == a;
    }
  }

  lemma InitialExactly(c: Change)
    ensures IsInitial(c) <==> FINANCE_ADMIN in c.principal.roles && c.roleKey in INITIAL_BOOTSTRAP_ASSIGNABLE_ROLES
  {
  }

  lemma RolesMeet(rule: Rule, p: Principal)
    ensures rule.initiatingRoles !! p.roles <==> !MayInitiate(rule, p)
  {
  }

  lemma AssignVerdict(terms: Terms, desk: Desk, c: Change, now: int)
    ensures var verdict := Assign(terms, desk, c, now).1;
      && (verdict.Done? ==> (verdict.initial <==> !RoleHeld(desk.assignments, c.roleKey)))
      && (verdict.Done? <==>
            && terms.invalid.None? && c.principal.id != c.target && c.principal.mfa
            && FindActive(desk.assignments, terms.reference) == |desk.assignments|
            && if !RoleHeld(desk.assignments, c.roleKey)
               then FINANCE_ADMIN in c.principal.roles && c.roleKey in INITIAL_BOOTSTRAP_ASSIGNABLE_ROLES
               else terms.rule.Some? && !(terms.rule.value.initiatingRoles !! c.principal.roles)
                    && ConsumeApprovals(terms, desk.rows, c, now).1.Some?)
  {
  }

  lemma AssignedByTerms(terms: Terms, desk: Desk, c: Change, now: int)
    ensures Assign(terms, desk, c, now).1.Done? <==>
      && terms.invalid.None? && c.principal.id != c.target && c.principal.mfa && !HasActive(desk, terms.reference)
      && if !SomebodyHolds(desk, c.roleKey) then IsInitial(c)
         else
           && terms.rule.Some? && MayInitiate(terms.rule.value, c.principal)
           && HasQuorum(terms.rule.value, desk.rows, DistinctIds(c.approvalIds), terms.use, c.principal, now)
  {
    AssignVerdict(terms, desk, c, now);
    InitialExactly(c);
    if terms.rule.Some? { RolesMeet(terms.rule.value, c.principal); }
    HoldersAreFound(desk, c.roleKey, terms.reference);
    GatheredExactly(terms.rule, desk.rows, DistinctIds(c.approvalIds), terms.use, c.principal, now);
  }

  /**
   An assignment is made if and only if it is eligible, for somebody else, with strong authentication, nobody actively
   holds it for the target, and it is either the role's first and appointed by the administrator, or initiated under
   the rule with its quorum of approvals.
   */
  lemma AssignedExactly(config: Config, desk: Desk, c: Change, now: int)
    ensures var verdict := Assign(TermsOf(config, RoleAssign, c), desk, c, now).1;
      verdict.Done? <==>
        && Eligible(config, c) && c.principal.id != c.target && c.principal.mfa
        && !HasActive(desk, Reference(config, c.target, c.roleKey))
        && if !SomebodyHolds(desk, c.roleKey) then IsInitial(c)
           else FindRule(config.rules, RoleAssign).Some? && Approved(config, RoleAssign, desk, c, now)
                && MayInitiate(FindRule(config.rules, RoleAssign).value, c.principal)
    ensures var verdict := Assign(TermsOf(config, RoleAssign, c), desk, c, now).1;
      verdict.Done? ==> (verdict.initial <==> !SomebodyHolds(desk, c.roleKey))
  {
    var terms := TermsOf(config, RoleAssign, c);
    AssignVerdict(terms, desk, c, now);
    AssignedByTerms(terms, desk, c, now);
    HoldersAreFound(desk, c.roleKey, terms.reference);
    ValidExactly(config, c);
  }

  lemma AssignAppends(terms: Terms, desk: Desk, c: Change, now: int)
    requires Assign(terms, desk, c, now).1.Done?
    ensures Assign(terms, desk, c, now).0.assignments ==
      desk.assignments + [NewAssignment(terms.reference, terms.scopes, c, now)]
  {
  }

  /** The row of a made assignment says what was asked for, with the role's scopes, by whom and when. */
  lemma AssignedRowIsAsked(config: Config, desk: Desk, c: Change, now: int)
    requires Assign(TermsOf(config, RoleAssign, c), desk, c, now).1.Done?
    ensures Assign(TermsOf(config, RoleAssign, c), desk, c, now).0.assignments == desk.assignments
      + [Assignment(Reference(config, c.target, c.roleKey), c.target, c.roleKey, ScopesOf(config, c.roleKey),
                    ActiveAssignment, c.effectiveFrom, c.effectiveTo, c.principal.id, now, None, None, c.approvalIds)]
  {
    AssignAppends(TermsOf(config, RoleAssign, c), desk, c, now);
  }

  /** A made revocation changes one active assignment of the role, and only to say by whom and when it was revoked. */
  lemma RevokedRowIsAsked(config: Config, desk: Desk, c: Change, now: int)
    requires Revoke(TermsOf(config, RoleRevoke, c), desk, c, now).1.Done?
    ensures exists k | 0 <= k < |desk.assignments| ::
      var a := desk.assignments[k];
      && a.reference == Reference(config, c.target, c.roleKey) && a.status.ActiveAssignment?
      && Revoke(TermsOf(config, RoleRevoke, c), desk, c, now).0.assignments ==
           desk.assignments[k := a.(status := RevokedAssignment, revokedBy := Some(c.principal.id), revokedAt := Some(now))]
  {
    var k := FindActive(desk.assignments, Reference(config, c.target, c.roleKey));
    assert k < |desk.assignments|;
  }

  /** A revocation is made if and only if it is eligible, by somebody else, with its quorum, and there is one to revoke. */
  lemma RevokedExactly(config: Config, desk: Desk, c: Change, now: int)
    ensures Revoke(TermsOf(config, RoleRevoke, c), desk, c, now).1.Done? <==>
      && Eligible(config, c) && c.principal.id != c.target && Approved(config, RoleRevoke, desk, c, now)
      && HasActive(desk, Reference(config, c.target, c.roleKey))
  {
    var terms := TermsOf(config, RoleRevoke, c);
    ValidExactly(config, c);
    HoldersAreFound(desk, c.roleKey, terms.reference);
    GatheredExactly(terms.rule, desk.rows, DistinctIds(c.approvalIds), terms.use, c.principal, now);
  }

  /** An approval is ready for one change only. */
  lemma ReadyForOneChange(config: Config, rows: Rows, id: string, a: Action, c: Change, p: Principal, b: Action, d: Change,
    q: Principal, now: int, later: int)
    requires Ready(rows, id, UseFor(config, a, c), p, now) && Ready(rows, id, UseFor(config, b, d), q, later)
    ensures a == b && SameTerms(c, d)
  {
    FingerprintIdentifiesChange(config, a, c, b, d);
  }
}
