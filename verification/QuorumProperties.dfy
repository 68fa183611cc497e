/** What a finished role change proves about the approvals behind it, over every run. */
module QuorumProperties {
  import opened Prelude
  import opened JsText
  import opened Order
  import opened Json
  import opened CanonicalForm
  import opened Money
  import opened LedgerCommands
  import opened LedgerPosting
  import opened LedgerInvariant
  import opened Fingerprint
  import opened Approval
  import opened ApprovalLifecycle
  import opened Quorum

  // ------------------------------------------------------------------------------------------ collecting approvals

  /** The row can be used for this at this time: granted, in time, for the same action, resource and fingerprint. */
  ghost predicate Usable(rows: Rows, key: string, use: Use, now: int) {
    && key in rows && rows[key].status.Approved? && now < rows[key].expiresAt && rows[key].approvedBy.Some?
    && rows[key].actionType == use.actionType && rows[key].resource == use.resource
    && Digest(rows[key].fingerprint) == use.fingerprint
  }

  lemma UsedRow(rows: Rows, id: string, use: Use, p: Principal, now: int)
    requires Approver(rows, id, use, p, now).Some?
    ensures var key, after := ToLower(id), Applied(rows, id, ConsumeAct(use), p, now).0;
      && Usable(rows, key, use, now) && rows[key].approvedBy == Approver(rows, id, use, p, now)
      && after == rows[key := rows[key].(status := Consumed, consumedAt := Some(now))]
  {
  }

  ghost predicate UsedUp(rows: Rows, after: Rows, keys: set<string>, use: Use, now: int) {
    && after.Keys == rows.Keys
    && (forall key | key in keys :: Usable(rows, key, use, now)
          && after[key] == rows[key].(status := Consumed, consumedAt := Some(now)))
    && (forall key | key in rows && key !in keys :: after[key] == rows[key])
  }

  lemma LastKey(ids: seq<string>)
    requires ids != []
    ensures Keys(ids) == Keys(ids[..|ids| - 1]) + {ToLower(ids[|ids| - 1])}
  {
    var front := ids[..|ids| - 1];
    forall key ensures key in Keys(ids) <==> key in Keys(front) + {ToLower(ids[|ids| - 1])} {
      if key in Keys(ids) {
        var i :| 0 <= i < |ids| && ToLower(ids[i]) == key;
        assert i < |front| ==> front[i] == ids[i];
      }
      if key in Keys(front) {
        var i :| 0 <= i < |front| && ToLower(front[i]) == key;
        assert ids[i] == front[i];
      }
    }
  }

  ghost function Givers(rows: Rows, keys: set<string>): set<Option<string>>
    requires forall key | key in keys :: key in rows
  {
    set key | key in keys :: rows[key].approvedBy
  }

  /**
   When the loop gets through, the ids stand for as many different rows; each of them was usable for exactly this
   change and is now consumed, no other row was touched, and the approvers are those of these rows.
   */
  lemma {:induction false} CollectedFacts(rows: Rows, ids: seq<string>, use: Use, p: Principal, now: int)
    requires Collected(rows, ids, use, p, now).1.Some?
    ensures var (after, approvers) := Collected(rows, ids, use, p, now);
      && UsedUp(rows, after, Keys(ids), use, now) && |Keys(ids)| == |ids|
      && (forall giver :: giver in approvers.value <==> Some(giver) in Givers(rows, Keys(ids)))
  {
    if ids == [] {
      assert Keys(ids) == {};
    } else {
      var front, id := ids[..|ids| - 1], ids[|ids| - 1];
      CollectedFacts(rows, front, use, p, now);
      LastKey(ids);
      OneMoreUsed(rows, Collected(rows, front, use, p, now).0, Keys(front), id, use, p, now);
    }
  }

  lemma OneMoreUsed(rows: Rows, before: Rows, keys: set<string>, id: string, use: Use, p: Principal, now: int)
    requires UsedUp(rows, before, keys, use, now) && Approver(before, id, use, p, now).Some?
    ensures ToLower(id) !in keys
    ensures UsedUp(rows, Applied(before, id, ConsumeAct(use), p, now).0, keys + {ToLower(id)}, use, now)
    ensures Givers(rows, keys + {ToLower(id)}) == Givers(rows, keys) + {Approver(before, id, use, p, now)}
  {
    UsedRow(before, id, use, p, now);
  }

  lemma {:induction false} DistinctIdsHaveSameKeys(ids: seq<string>)
    ensures Keys(DistinctIds(ids)) == Keys(ids)
  {
    DistinctIdsKeepsMembers(ids);
    forall key ensures key in Keys(DistinctIds(ids)) <==> key in Keys(ids) {
      if key in Keys(ids) {
        var i :| 0 <= i < |ids| && ToLower(ids[i]) == key;
        assert ids[i] in DistinctIds(ids);
        var j :| 0 <= j < |DistinctIds(ids)| && DistinctIds(ids)[j] == ids[i];
      }
      if key in Keys(DistinctIds(ids)) {
        var j :| 0 <= j < |DistinctIds(ids)| && ToLower(DistinctIds(ids)[j]) == key;
        assert DistinctIds(ids)[j] in ids;
        var i :| 0 <= i < |ids| && ids[i] == DistinctIds(ids)[j];
      }
    }
  }

  /** The approvals behind a change, seen from the rows before it. */
  ghost predicate QuorumMet(rule: Option<Rule>, rows: Rows, c: Change, use: Use, now: int, approvers: set<string>) {
    && rule.Some? && |approvers| >= rule.value.minimumApprovals
    && (rule.value.selfApprovalProhibited ==> c.principal.id !in approvers)
    && (forall key | key in Keys(c.approvalIds) :: Usable(rows, key, use, now))
    && (forall giver | giver in approvers :: exists key :: key in Keys(c.approvalIds) && rows[key].approvedBy == Some(giver))
  }

  lemma GatheredQuorum(rule: Option<Rule>, rows: Rows, c: Change, use: Use, now: int)
    requires Gathered(rule, rows, DistinctIds(c.approvalIds), use, c.principal, now).1.Some?
    ensures var (after, approvers) := Gathered(rule, rows, DistinctIds(c.approvalIds), use, c.principal, now);
      && QuorumMet(rule, rows, c, use, now, approvers.value)
      && UsedUp(rows, after, Keys(c.approvalIds), use, now)
  {
    var ids := DistinctIds(c.approvalIds);
    CollectedFacts(rows, ids, use, c.principal, now);
    DistinctIdsHaveSameKeys(c.approvalIds);
    var approvers := Gathered(rule, rows, ids, use, c.principal, now).1.value;
    forall giver | giver in approvers
      ensures exists key :: key in Keys(c.approvalIds) && rows[key].approvedBy == Some(giver)
    {
      assert Some(giver) in Givers(rows, Keys(ids));
    }
  }

  /** A refused change leaves the assignments as they were. */
  lemma RefusalKeepsAssignments(terms: Terms, desk: Desk, c: Change, now: int)
    ensures Assign(terms, desk, c, now).1.Refused? ==> Assign(terms, desk, c, now).0.assignments == desk.assignments
    ensures Revoke(terms, desk, c, now).1.Refused? ==> Revoke(terms, desk, c, now).0.assignments == desk.assignments
  {
  }

  ghost predicate FallsShort(rule: Rule, approvers: set<string>, p: Principal) {
    |approvers| < rule.minimumApprovals || (rule.selfApprovalProhibited && p.id in approvers)
  }

  /**
   But not the approvals.  Once the loop has got through they are all used up, whatever comes after it; and the change
   is then still forbidden exactly when the approvers are too few or include who asks for it.
   */
  lemma LateRefusalBurnsApprovals(rule: Option<Rule>, rows: Rows, c: Change, use: Use, now: int)
    requires rule.Some? && |DistinctIds(c.approvalIds)| >= rule.value.minimumApprovals
    requires Collected(rows, DistinctIds(c.approvalIds), use, c.principal, now).1.Some?
    ensures var (after, gathered) := Gathered(rule, rows, DistinctIds(c.approvalIds), use, c.principal, now);
      var approvers := Collected(rows, DistinctIds(c.approvalIds), use, c.principal, now).1.value;
      && (forall key | key in Keys(c.approvalIds) :: key in after && after[key].status.Consumed?)
      && (gathered.None? <==> FallsShort(rule.value, approvers, c.principal))
  {
    CollectedFacts(rows, DistinctIds(c.approvalIds), use, c.principal, now);
    DistinctIdsHaveSameKeys(c.approvalIds);
  }

  // ------------------------------------------------------------------------------------------------------ whole runs

  /**
   Approval commands and role changes, in any order.  A change comes with what the configuration of its time makes of
   it (TermsOf); nothing below depends on the configuration staying the same.
   */
  datatype Deed =
    | OnApprovals(step: Step)
    | AssignDeed(terms: Terms, change: Change, when: int)
    | RevokeDeed(terms: Terms, change: Change, when: int)

  function TimeOf(deed: Deed): int {
    match deed
    case OnApprovals(step) => step.at
    case AssignDeed(_, _, when) => when
    case RevokeDeed(_, _, when) => when
  }

  /** The desk after a role change, and the verdict. */
  function Changed(desk: Desk, deed: Deed): (Desk, Verdict)
    requires !deed.OnApprovals?
  {
    if deed.AssignDeed? then Assign(deed.terms, desk, deed.change, deed.when)
    else Revoke(deed.terms, desk, deed.change, deed.when)
  }

  function Carry(desk: Desk, deed: Deed): Desk {
    match deed
    case OnApprovals(step) => desk.(rows := Next(desk.rows, step).0)
    case _ => Changed(desk, deed).0
  }

  /** None for an approval command. */
  function VerdictOf(desk: Desk, deed: Deed): Option<Verdict> {
    match deed
    case OnApprovals(_) => None
    case _ => Some(Changed(desk, deed).1)
  }

  function DeskAfter(desk: Desk, deeds: seq<Deed>): Desk {
    if deeds == [] then desk
    else Carry(DeskAfter(desk, deeds[..|deeds| - 1]), deeds[|deeds| - 1])
  }

  /** The verdict on the i-th deed of a run. */
  function VerdictAt(desk: Desk, deeds: seq<Deed>, i: nat): Option<Verdict>
    requires i < |deeds|
  {
    VerdictOf(DeskAfter(desk, deeds[..i]), deeds[i])
  }

  lemma AppliedKeepsClosed(rows: Rows, id: string, act: Act, p: Principal, now: int, key: string)
    requires key in rows && Closed(rows[key])
    ensures var after := Applied(rows, id, act, p, now).0; key in after && after[key] == rows[key]
  {
    ClosedIsFinal(rows[key], act, p, now);
  }

  lemma {:induction false} CollectedKeepsClosed(rows: Rows, ids: seq<string>, use: Use, p: Principal, now: int, key: string)
    requires key in rows && Closed(rows[key])
    ensures var after := Collected(rows, ids, use, p, now).0; key in after && after[key] == rows[key]
  {
    if ids != [] {
      var front := ids[..|ids| - 1];
      CollectedKeepsClosed(rows, front, use, p, now, key);
      AppliedKeepsClosed(Collected(rows, front, use, p, now).0, ids[|ids| - 1], ConsumeAct(use), p, now, key);
    }
  }

  /** The change gets as far as its approvals, and sends enough of them, at least one. */
  predicate AsksApprovals(desk: Desk, deed: Deed)
    requires !deed.OnApprovals?
  {
    var c := deed.change;
    && deed.terms.invalid.None? && c.principal.id != c.target && c.approvalIds != []
    && deed.terms.rule.Some? && |DistinctIds(c.approvalIds)| >= deed.terms.rule.value.minimumApprovals
    && (deed.AssignDeed? ==>
          c.principal.mfa && RoleHeld(desk.assignments, c.roleKey)
          && !(deed.terms.rule.value.initiatingRoles !! c.principal.roles))
  }

  lemma RowsWhenAsked(desk: Desk, deed: Deed)
    requires !deed.OnApprovals?
    ensures Changed(desk, deed).0.rows ==
      if AsksApprovals(desk, deed)
      then Collected(desk.rows, DistinctIds(deed.change.approvalIds), deed.terms.use, deed.change.principal, deed.when).0
      else desk.rows
  {
    if deed.change.approvalIds == [] {
      assert Collected(desk.rows, [], deed.terms.use, deed.change.principal, deed.when).0 == desk.rows;
    }
  }

  lemma ChangeKeepsClosed(desk: Desk, deed: Deed, key: string)
    requires !deed.OnApprovals? && key in desk.rows && Closed(desk.rows[key])
    ensures var after := Changed(desk, deed).0.rows; key in after && after[key] == desk.rows[key]
  {
    RowsWhenAsked(desk, deed);
    CollectedKeepsClosed(desk.rows, DistinctIds(deed.change.approvalIds), deed.terms.use, deed.change.principal,
      deed.when, key);
  }

  lemma CarryKeepsClosed(desk: Desk, deed: Deed, key: string)
    requires key in desk.rows && Closed(desk.rows[key])
    ensures var after := Carry(desk, deed).rows; key in after && after[key] == desk.rows[key]
  {
    match deed
    case OnApprovals(step) => if step.Do? { AppliedKeepsClosed(desk.rows, step.id, step.act, step.principal, step.at, key); }
    case _ => ChangeKeepsClosed(desk, deed, key);
  }

  /** A closed row at one point of a run is the same row at every later point. */
  lemma {:induction false} ClosedLater(desk: Desk, deeds: seq<Deed>, i: nat, j: nat, key: string)
    requires i <= j <= |deeds|
    requires key in DeskAfter(desk, deeds[..i]).rows && Closed(DeskAfter(desk, deeds[..i]).rows[key])
    ensures key in DeskAfter(desk, deeds[..j]).rows
    ensures DeskAfter(desk, deeds[..j]).rows[key] == DeskAfter(desk, deeds[..i]).rows[key]
  {
    if i < j {
      ClosedLater(desk, deeds, i, j - 1, key);
      assert deeds[..j][..j - 1] == deeds[..j - 1];
      CarryKeepsClosed(DeskAfter(desk, deeds[..j - 1]), deeds[j - 1], key);
    }
  }

  /** What a done change used was usable before it and is closed after it. */
  lemma DoneUses(desk: Desk, deed: Deed)
    requires !deed.OnApprovals? && Changed(desk, deed).1.Done?
    ensures var (after, done) := Changed(desk, deed);
      forall key | key in done.used ::
        && key in desk.rows && desk.rows[key].status.Approved? && key in after.rows && after.rows[key].status.Consumed?
  {
    DoneHasApprovers(desk, deed);
    if !Changed(desk, deed).1.initial {
      GatheredQuorum(deed.terms.rule, desk.rows, deed.change, deed.terms.use, deed.when);
    }
  }

  lemma DoneHasApprovers(desk: Desk, deed: Deed)
    requires !deed.OnApprovals? && Changed(desk, deed).1.Done?
    ensures var (after, done) := Changed(desk, deed);
      if done.initial then done.used == {}
      else
        var (rows, approvers) := ConsumeApprovals(deed.terms, desk.rows, deed.change, deed.when);
        approvers == Some(done.approvers) && done.used == Keys(deed.change.approvalIds) && after.rows == rows
  {
  }

  ghost predicate DoneAt(desk: Desk, deeds: seq<Deed>, i: nat) {
    i < |deeds| && VerdictAt(desk, deeds, i).Some? && VerdictAt(desk, deeds, i).value.Done?
  }

  ghost predicate HasStatus(rows: Rows, key: string, status: Status) {
    key in rows && rows[key].status == status
  }

  lemma UsedRowsOpenThenClosed(desk: Desk, deeds: seq<Deed>, i: nat)
    requires DoneAt(desk, deeds, i)
    ensures forall key | key in VerdictAt(desk, deeds, i).value.used ::
      && HasStatus(DeskAfter(desk, deeds[..i]).rows, key, Approved)
      && HasStatus(DeskAfter(desk, deeds[..i + 1]).rows, key, Consumed)
  {
    DoneUses(DeskAfter(desk, deeds[..i]), deeds[i]);
    assert deeds[..i + 1][..i] == deeds[..i];
  }

  /** No approval stands behind two changes: what different done changes of a run used is disjoint. */
  lemma ApprovalSetsAreDisjoint(desk: Desk, deeds: seq<Deed>, i: nat, j: nat)
    requires i < j && DoneAt(desk, deeds, i) && DoneAt(desk, deeds, j)
    ensures VerdictAt(desk, deeds, i).value.used !! VerdictAt(desk, deeds, j).value.used
  {
    UsedRowsOpenThenClosed(desk, deeds, i);
    UsedRowsOpenThenClosed(desk, deeds, j);
    forall key | key in VerdictAt(desk, deeds, i).value.used
      ensures key !in VerdictAt(desk, deeds, j).value.used
    {
      ClosedLater(desk, deeds, i + 1, j, key);
    }
  }

  // --------------------------------------------------------------------------------- approvals spent by a change

  /** Some approval that could be used before is used up after. */
  ghost predicate Spent(rows: Rows, after: Rows) {
    exists key :: HasStatus(rows, key, Approved) && HasStatus(after, key, Consumed)
  }

  /** The first id is an approval this change can use. */
  predicate FirstUsable(rows: Rows, id: string, use: Use, p: Principal, now: int) {
    Find(rows, id).Some? && Consumable(Find(rows, id).value, use, p, now)
  }

  /** The first id is an approval this change can use, or one that has run out. */
  predicate FirstWritten(rows: Rows, id: string, use: Use, p: Principal, now: int) {
    Find(rows, id).Some? && (RequiresExpiry(Find(rows, id).value, now) || Consumable(Find(rows, id).value, use, p, now))
  }

  lemma FirstConsumed(rows: Rows, id: string, use: Use, p: Principal, now: int)
    ensures var after := Applied(rows, id, ConsumeAct(use), p, now).0;
      if FirstWritten(rows, id, use, p, now) then
        && ToLower(id) in rows && after.Keys == rows.Keys && SameElsewhere(rows, after, ToLower(id))
        && Closed(after[ToLower(id)]) && after[ToLower(id)] != rows[ToLower(id)]
        && (FirstUsable(rows, id, use, p, now) <==> after[ToLower(id)].status.Consumed?)
        && (FirstUsable(rows, id, use, p, now) ==> rows[ToLower(id)].status.Approved?)
      else after == rows
    ensures Approver(rows, id, use, p, now).Some? ==> FirstUsable(rows, id, use, p, now)
  {
    if Find(rows, id).Some? { UseNeedsGrant(Find(rows, id).value, use, p, now); }
  }

  lemma FirstSpends(rows: Rows, id: string, use: Use, p: Principal, now: int)
    ensures Spent(rows, Applied(rows, id, ConsumeAct(use), p, now).0) <==> FirstUsable(rows, id, use, p, now)
  {
    var after := Applied(rows, id, ConsumeAct(use), p, now).0;
    FirstConsumed(rows, id, use, p, now);
    if FirstUsable(rows, id, use, p, now) {
      assert HasStatus(rows, ToLower(id), Approved) && HasStatus(after, ToLower(id), Consumed);
    }
  }

  /** What the first id's transaction closed stays closed to the end of the loop. */
  lemma {:induction false} FirstStaysClosed(rows: Rows, ids: seq<string>, use: Use, p: Principal, now: int, key: string)
    requires ids != []
    requires var first := Applied(rows, ids[0], ConsumeAct(use), p, now).0; key in first && Closed(first[key])
    ensures var after := Collected(rows, ids, use, p, now).0;
      key in after && after[key] == Applied(rows, ids[0], ConsumeAct(use), p, now).0[key]
  {
    var front := ids[..|ids| - 1];
    if |ids| == 1 {
      assert Collected(rows, front, use, p, now) == (rows, Some({}));
    } else {
      assert front[0] == ids[0];
      FirstStaysClosed(rows, front, use, p, now, key);
      AppliedKeepsClosed(Collected(rows, front, use, p, now).0, ids[|ids| - 1], ConsumeAct(use), p, now, key);
    }
  }

  lemma UnusableFirstStops(rows: Rows, ids: seq<string>, use: Use, p: Principal, now: int)
    requires ids != [] && !FirstUsable(rows, ids[0], use, p, now)
    ensures Collected(rows, ids, use, p, now).0 == Applied(rows, ids[0], ConsumeAct(use), p, now).0
  {
    FirstConsumed(rows, ids[0], use, p, now);
    assert ids[..1][..0] == [] && ids[..1][0] == ids[0];
    assert Collected(rows, ids[..1][..0], use, p, now) == (rows, Some({}));
    StopsThere(rows, ids, 1, use, p, now);
  }

  /** The loop leaves the approvals alone, or unspent, exactly when its first id does. */
  lemma FirstDecides(rows: Rows, ids: seq<string>, use: Use, p: Principal, now: int)
    requires ids != []
    ensures Collected(rows, ids, use, p, now).0 == rows <==> !FirstWritten(rows, ids[0], use, p, now)
    ensures Spent(rows, Collected(rows, ids, use, p, now).0) <==> FirstUsable(rows, ids[0], use, p, now)
  {
    FirstConsumed(rows, ids[0], use, p, now);
    FirstSpends(rows, ids[0], use, p, now);
    if FirstUsable(rows, ids[0], use, p, now) {
      FirstStaysClosed(rows, ids, use, p, now, ToLower(ids[0]));
      assert HasStatus(rows, ToLower(ids[0]), Approved);
      assert HasStatus(Collected(rows, ids, use, p, now).0, ToLower(ids[0]), Consumed);
    } else {
      UnusableFirstStops(rows, ids, use, p, now);
    }
  }

  lemma {:induction false} DistinctIdsFirst(ids: seq<string>)
    requires ids != []
    ensures DistinctIds(ids) != [] && DistinctIds(ids)[0] == ids[0]
  {
    if |ids| > 1 { DistinctIdsFirst(ids[..|ids| - 1]); }
  }

  /**
   When a role change uses approvals up, whatever its verdict: exactly when it gets as far as its approvals and the
   first one sent is usable for it.  So a refused change leaves every approval usable if and only if it was refused
   before the loop or at the loop's first id; stopped at a later id, or refused after the loop, it has spent some.
   */
  lemma ChangeSpendsExactly(desk: Desk, deed: Deed)
    requires !deed.OnApprovals?
    ensures Spent(desk.rows, Changed(desk, deed).0.rows) <==>
      && AsksApprovals(desk, deed)
      && FirstUsable(desk.rows, deed.change.approvalIds[0], deed.terms.use, deed.change.principal, deed.when)
    ensures Changed(desk, deed).0.rows != desk.rows <==>
      && AsksApprovals(desk, deed)
      && FirstWritten(desk.rows, deed.change.approvalIds[0], deed.terms.use, deed.change.principal, deed.when)
  {
    RowsWhenAsked(desk, deed);
    if AsksApprovals(desk, deed) {
      DistinctIdsFirst(deed.change.approvalIds);
      FirstDecides(desk.rows, DistinctIds(deed.change.approvalIds), deed.terms.use, deed.change.principal, deed.when);
    }
  }

  // ---------------------------------------------------------------------------------------- one active assignment

  ghost predicate OneActive(assignments: seq<Assignment>) {
    forall i, j | 0 <= i < j < |assignments| && assignments[i].status.ActiveAssignment?
      && assignments[j].status.ActiveAssignment? :: assignments[i].reference != assignments[j].reference
  }

  lemma ChangeKeepsOneActive(desk: Desk, deed: Deed)
    requires !deed.OnApprovals? && OneActive(desk.assignments)
    ensures OneActive(Changed(desk, deed).0.assignments)
  {
  }

  /** No run ever has two active assignments of the same role to the same principal. */
  lemma {:induction false} OneActiveOverEveryRun(desk: Desk, deeds: seq<Deed>)
    requires OneActive(desk.assignments)
    ensures OneActive(DeskAfter(desk, deeds).assignments)
  {
    if deeds != [] {
      var front, last := deeds[..|deeds| - 1], deeds[|deeds| - 1];
      OneActiveOverEveryRun(desk, front);
      if !last.OnApprovals? {
        ChangeKeepsOneActive(DeskAfter(desk, front), last);
      }
    }
  }

  // ------------------------------------------------------------------------------------------------------ the quorum

  ghost predicate ForwardDeeds(deeds: seq<Deed>) {
    forall i, j | 0 <= i <= j < |deeds| :: TimeOf(deeds[i]) <= TimeOf(deeds[j])
  }

  lemma AppliedKeepsInv(rows: Rows, id: string, act: Act, p: Principal, clock: int, now: int)
    requires Inv(rows, clock) && clock <= now
    ensures Inv(Applied(rows, id, act, p, now).0, now)
  {
    NextKeepsInv(rows, Do(id, act, p, now), clock);
  }

  lemma {:induction false} CollectedKeepsInv(rows: Rows, ids: seq<string>, use: Use, p: Principal, clock: int, now: int)
    requires Inv(rows, clock) && clock <= now
    ensures Inv(Collected(rows, ids, use, p, now).0, now)
  {
    if ids == [] {
      forall key | key in rows { LaterHolds(rows[key], clock, now); }
    } else {
      var front := ids[..|ids| - 1];
      CollectedKeepsInv(rows, front, use, p, clock, now);
      AppliedKeepsInv(Collected(rows, front, use, p, now).0, ids[|ids| - 1], ConsumeAct(use), p, now, now);
    }
  }

  lemma ChangeKeepsInv(desk: Desk, deed: Deed, clock: int)
    requires !deed.OnApprovals? && Inv(desk.rows, clock) && clock <= deed.when
    ensures Inv(Changed(desk, deed).0.rows, deed.when)
  {
    forall key | key in desk.rows ensures RowInv(desk.rows[key], deed.when) {
      LaterHolds(desk.rows[key], clock, deed.when);
    }
    RowsWhenAsked(desk, deed);
    CollectedKeepsInv(desk.rows, DistinctIds(deed.change.approvalIds), deed.terms.use, deed.change.principal,
      clock, deed.when);
  }

  lemma CarryKeepsInv(desk: Desk, deed: Deed, clock: int)
    requires Inv(desk.rows, clock) && clock <= TimeOf(deed)
    ensures Inv(Carry(desk, deed).rows, TimeOf(deed))
  {
    match deed
    case OnApprovals(step) => NextKeepsInv(desk.rows, step, clock);
    case _ => ChangeKeepsInv(desk, deed, clock);
  }

  lemma {:induction false} RowsStayInvariant(assignments: seq<Assignment>, deeds: seq<Deed>, i: nat,
    now: int)
    requires ForwardDeeds(deeds) && i <= |deeds| && (i > 0 ==> TimeOf(deeds[i - 1]) <= now)
    ensures Inv(DeskAfter(Desk(map[], assignments), deeds[..i]).rows, now)
  {
    if i > 0 {
      assert deeds[..i][..i - 1] == deeds[..i - 1];
      assert i > 1 ==> TimeOf(deeds[i - 2]) <= TimeOf(deeds[i - 1]);
      RowsStayInvariant(assignments, deeds, i - 1, TimeOf(deeds[i - 1]));
      CarryKeepsInv(DeskAfter(Desk(map[], assignments), deeds[..i - 1]), deeds[i - 1], TimeOf(deeds[i - 1]));
      var rows := DeskAfter(Desk(map[], assignments), deeds[..i]).rows;
      forall key | key in rows ensures RowInv(rows[key], now) { LaterHolds(rows[key], TimeOf(deeds[i - 1]), now); }
    }
  }

  /**
   In any run from an empty approval table and any assignments, on a clock that does not step back: every done change
   that is not an initial assignment had its quorum, from approvers none of whom had asked for the approval they gave.
   */
  lemma QuorumOverEveryRun(assignments: seq<Assignment>, deeds: seq<Deed>, i: nat)
    requires ForwardDeeds(deeds) && DoneAt(Desk(map[], assignments), deeds, i)
    requires !VerdictAt(Desk(map[], assignments), deeds, i).value.initial
    ensures var rows := DeskAfter(Desk(map[], assignments), deeds[..i]).rows;
      var done := VerdictAt(Desk(map[], assignments), deeds, i).value;
      var terms := deeds[i].terms;
      && done.used == Keys(deeds[i].change.approvalIds)
      && QuorumMet(terms.rule, rows, deeds[i].change, terms.use, deeds[i].when, done.approvers)
      && (forall key | key in done.used :: Granted(rows[key], deeds[i].when))
  {
    var desk := DeskAfter(Desk(map[], assignments), deeds[..i]);
    assert i > 0 ==> TimeOf(deeds[i - 1]) <= TimeOf(deeds[i]);
    RowsStayInvariant(assignments, deeds, i, TimeOf(deeds[i]));
    DoneHadQuorum(desk, deeds[i]);
  }

  lemma DoneHadQuorum(desk: Desk, deed: Deed)
    requires !deed.OnApprovals? && Inv(desk.rows, deed.when)
    requires Changed(desk, deed).1.Done? && !Changed(desk, deed).1.initial
    ensures var done := Changed(desk, deed).1;
      && done.used == Keys(deed.change.approvalIds)
      && QuorumMet(deed.terms.rule, desk.rows, deed.change, deed.terms.use, deed.when, done.approvers)
      && (forall key | key in done.used :: Granted(desk.rows[key], deed.when))
  {
    DoneHasApprovers(desk, deed);
    GatheredQuorum(deed.terms.rule, desk.rows, deed.change, deed.terms.use, deed.when);
    forall key | key in Keys(deed.change.approvalIds) ensures Granted(desk.rows[key], deed.when) {
      assert Usable(desk.rows, key, deed.terms.use, deed.when);
      assert RowInv(desk.rows[key], deed.when);
    }
  }

  // ------------------------------------------------------------------------------------- bound to the exact change

  /** Everything about two changes is the same but who carries them out and with which approvals. */
  ghost predicate SameTerms(c: Change, d: Change) {
    && c.target == d.target && c.roleKey == d.roleKey && c.effectiveFrom == d.effectiveFrom
    && c.effectiveTo == d.effectiveTo && c.expectedVersion == d.expectedVersion
  }

  const CHANGE_KEYS := ["operation", "assignmentReference", "targetPrincipalId", "roleKey", "scopes", "effectiveFrom",
                        "effectiveTo", "expectedVersion", "environment"]

  ghost predicate ChangeFields(s: seq<Keyed<Value>>, operation: string, c: Change) {
    && |s| == 9 && (forall i | 0 <= i < 9 :: s[i].key == CHANGE_KEYS[i])
    && s[0].item == Str(operation) && s[1].item.Str? && s[2].item == Str(c.target) && s[3].item == Str(c.roleKey)
    && Valid(s[4].item) && s[5].item == InstantValue(c.effectiveFrom) && s[6].item == InstantValue(c.effectiveTo)
    && s[7].item == VersionValue(c.expectedVersion) && s[8].item.Str?
  }

  lemma ChangeHasFields(operation: string, reference: string, scopes: seq<string>, environment: string, c: Change)
    ensures var v := ChangeValue(operation, reference, scopes, environment, c);
      v.Obj? && ChangeFields(v.members, operation, c)
  {
  }

  lemma KeysDiffer(m: seq<Keyed<Value>>)
    requires |m| == 9 && forall i | 0 <= i < 9 :: m[i].key == CHANGE_KEYS[i]
    ensures DistinctKeys(m)
  {
    assert |m[0].key| == 9 && |m[1].key| == 19 && |m[2].key| == 17 && |m[3].key| == 7 && |m[4].key| == 6;
    assert |m[5].key| == 13 && |m[6].key| == 11 && |m[7].key| == 15 && |m[8].key| == 11;
    assert m[6].key[1] != m[8].key[1];
  }

  lemma FieldsAreValid(s: seq<Keyed<Value>>, operation: string, c: Change)
    requires ChangeFields(s, operation, c)
    ensures DistinctKeys(s) && Valid(Obj(s))
  {
    KeysDiffer(s);
    VersionIsValid(c.expectedVersion);
  }

  lemma VersionIsValid(version: Option<int>)
    ensures Valid(VersionValue(version))
  {
    if version.Some? { AmountIsLexeme(version.value); }
  }

  lemma AmountIsLexeme(n: int)
    ensures IsNumberLexeme(AmountText(n))
  {
    var digits := ToDecimal(if n >= 0 then n else -n);
    ToDecimalIsNumeral(if n >= 0 then n else -n);
    assert IsDigit(digits[0]);
    forall c | c in AmountText(n) ensures IsDigit(c) || c == '-' {
      assert c in digits || c == '-';
    }
  }

  lemma EqualChangeTexts(s: seq<Keyed<Value>>, t: seq<Keyed<Value>>, o: string, c: Change, p: string, d: Change)
    requires ChangeFields(s, o, c) && ChangeFields(t, p, d) && Print(Workforce, Obj(s)) == Print(Workforce, Obj(t))
    ensures o == p && SameTerms(c, d)
  {
    FieldsAreValid(s, o, c);
    FieldsAreValid(t, p, d);
    AlignedTexts(Workforce, s, t);
    NineFields(s, t, o, c, p, d);
  }

  lemma EqualTextsOf(o: string, r: string, x: seq<string>, e: string, c: Change,
    p: string, q: string, y: seq<string>, f: string, d: Change)
    requires Print(Workforce, ChangeValue(o, r, x, e, c)) == Print(Workforce, ChangeValue(p, q, y, f, d))
    ensures o == p && SameTerms(c, d)
  {
    ChangeHasFields(o, r, x, e, c);
    ChangeHasFields(p, q, y, f, d);
    EqualChangeTexts(ChangeValue(o, r, x, e, c).members, ChangeValue(p, q, y, f, d).members, o, c, p, d);
  }

  /** An approval's fingerprint names one change: two changes with the same fingerprint are the same change. */
  lemma FingerprintIdentifiesChange(config: Config, a: Action, c: Change, b: Action, d: Change)
    ensures ChangeText(config, a, c) == ChangeText(config, b, d) <==> a == b && SameTerms(c, d)
  {
    if ChangeText(config, a, c) == ChangeText(config, b, d) {
      EqualTextsOf(ActionText(a), Reference(config, c.target, c.roleKey), ScopesOf(config, c.roleKey),
        config.environment, c, ActionText(b), Reference(config, d.target, d.roleKey), ScopesOf(config, d.roleKey),
        config.environment, d);
      ActionTextInjective(a, b);
    } else {
      SameTermsSameText(config, a, c, d);
    }
  }

  lemma ActionTextInjective(a: Action, b: Action)
    requires ActionText(a) == ActionText(b)
    ensures a == b
  {
    assert "FINANCE_ROLE_ASSIGN"[13] != "FINANCE_ROLE_REVOKE"[13];
  }

  lemma SameTermsSameText(config: Config, a: Action, c: Change, d: Change)
    ensures SameTerms(c, d) ==> ChangeText(config, a, c) == ChangeText(config, a, d)
  {
    if SameTerms(c, d) {
      var reference, scopes := Reference(config, c.target, c.roleKey), ScopesOf(config, c.roleKey);
      assert ChangeValue(ActionText(a), reference, scopes, config.environment, c)
          == ChangeValue(ActionText(a), reference, scopes, config.environment, d);
    }
  }

  lemma NineFields(s: seq<Keyed<Value>>, t: seq<Keyed<Value>>, o: string, c: Change, p: string, d: Change)
    requires |s| == |t| == 9 && forall i | 0 <= i < 9 :: MeaningOf(Workforce, s[i].item) == MeaningOf(Workforce, t[i].item)
    requires s[0].item == Str(o) && t[0].item == Str(p)
    requires s[2].item == Str(c.target) && t[2].item == Str(d.target)
    requires s[3].item == Str(c.roleKey) && t[3].item == Str(d.roleKey)
    requires s[5].item == InstantValue(c.effectiveFrom) && t[5].item == InstantValue(d.effectiveFrom)
    requires s[6].item == InstantValue(c.effectiveTo) && t[6].item == InstantValue(d.effectiveTo)
    requires s[7].item == VersionValue(c.expectedVersion) && t[7].item == VersionValue(d.expectedVersion)
    ensures o == p && SameTerms(c, d)
  {
    TextMeaning(Workforce, o, p);
    TextMeaning(Workforce, c.target, d.target);
    TextMeaning(Workforce, c.roleKey, d.roleKey);
    assert MeaningOf(Workforce, s[0].item) == MeaningOf(Workforce, t[0].item);
    assert MeaningOf(Workforce, s[2].item) == MeaningOf(Workforce, t[2].item);
    assert MeaningOf(Workforce, s[3].item) == MeaningOf(Workforce, t[3].item);
    assert MeaningOf(Workforce, s[5].item) == MeaningOf(Workforce, t[5].item);
    assert MeaningOf(Workforce, s[6].item) == MeaningOf(Workforce, t[6].item);
    assert MeaningOf(Workforce, s[7].item) == MeaningOf(Workforce, t[7].item);
    InstantMeaning(c.effectiveFrom, d.effectiveFrom);
    InstantMeaning(c.effectiveTo, d.effectiveTo);
    VersionMeaning(c.expectedVersion, d.expectedVersion);
  }

  lemma InstantMeaning(x: Option<int>, y: Option<int>)
    requires MeaningOf(Workforce, InstantValue(x)) == MeaningOf(Workforce, InstantValue(y))
    ensures x == y
  {
    if x.Some? && y.Some? { SignedDecimalInjective(x.value, y.value); }
  }

  lemma VersionMeaning(x: Option<int>, y: Option<int>)
    requires MeaningOf(Workforce, VersionValue(x)) == MeaningOf(Workforce, VersionValue(y))
    ensures x == y
  {
    if x.Some? && y.Some? { SignedDecimalInjective(x.value, y.value); }
  }
}
