/** Who moves a deposit on, by its row; and over every run: a completion's command is never malformed. */
module DepositCommands {
  import opened Prelude
  import opened Utf16
  import opened JsText
  import opened Order
  import opened Json
  import opened Money
  import opened LedgerTables
  import opened LedgerCommands
  import opened LedgerPosting
  import opened LedgerService
  import opened LedgerRequests
  import opened Deposit
  import opened DepositInvariant
  import opened DepositConservation
  import opened DepositOutcome
  import opened DepositRequests

  // -------------------------------------------------------------------------------------------- moving a deposit on

  /** The place of the deposit with this id, whatever the letter case of the id. */
  ghost predicate IsAt(b: Bank, id: string, k: nat) {
    IsUuid(id) && k < |b.deposits| && b.deposits[k].id == ToLower(id)
  }

  lemma PlaceIsFound(b: Bank, id: string, k: nat)
    requires DistinctDeposits(b.deposits) && IsAt(b, id, k)
    ensures IndexBy(b.deposits, IdOf, ToLower(id)) == k
  {
    var found := IndexBy(b.deposits, IdOf, ToLower(id));
    assert IdOf(b.deposits[k]) == ToLower(id);
    assert found <= k && IdOf(b.deposits[found]) == ToLower(id);
  }

  /** The answer to a request that finds no pending deposit: the deposit itself when it is already where it should go. */
  ghost predicate AnswersWithoutMoving(b: Bank, id: string, target: Status, answer: Answer) {
    if !IsUuid(id) then answer == Thrown(BadRequest)
    else if forall k: nat :: !IsAt(b, id, k) then answer == Thrown(NotFound)
    else exists k: nat :: IsAt(b, id, k) && AnswersClosed(b.deposits[k], target, answer)
  }

  predicate AnswersClosed(d: Deposit, target: Status, answer: Answer) {
    answer == if d.status == target then Id(d.id) else Thrown(Conflict)
  }

  ghost predicate PendingAt(b: Bank, id: string, k: nat) {
    IsAt(b, id, k) && b.deposits[k].status.Pending?
  }

  lemma GuardByRows(b: Bank, id: string, target: Status)
    requires DistinctDeposits(b.deposits) && !target.Pending?
    ensures forall k: nat | PendingAt(b, id, k) :: Guard(b, id, target) == Success(k)
    ensures (forall k: nat :: !PendingAt(b, id, k)) ==>
      Guard(b, id, target).Failure? && AnswersWithoutMoving(b, id, target, Guard(b, id, target).error)
  {
    forall k: nat | PendingAt(b, id, k) ensures Guard(b, id, target) == Success(k) { PlaceIsFound(b, id, k); }
    var found := IndexBy(b.deposits, IdOf, ToLower(id));
    if IsUuid(id) {
      if found < |b.deposits| {
        assert IdOf(b.deposits[found]) == ToLower(id) && IsAt(b, id, found);
        assert b.deposits[found].status.Pending? ==> PendingAt(b, id, found);
      } else {
        forall k: nat ensures !IsAt(b, id, k) { assert k < |b.deposits| ==> IdOf(b.deposits[k]) != ToLower(id); }
      }
    }
  }

  /** Everything but the outcome stays, and so does every other deposit. */
  ghost predicate OnlyMoves(b: Bank, after: Bank, k: nat) {
    && k < |b.deposits| == |after.deposits| && after == b.(deposits := b.deposits[k := after.deposits[k]])
    && AsksSame(b.deposits[k], after.deposits[k])
  }

  ghost predicate FailedAs(b: Bank, k: nat, reason: Option<string>, after: Bank, answer: Answer) {
    && OnlyMoves(b, after, k) && answer == Id(b.deposits[k].id)
    && IsFailure(b.deposits[k], after.deposits[k], SettlementRejected, 422)
    && after.deposits[k].note == Some(Said(ReasonOr(reason, "Deposit failed")))
  }

  ghost predicate CancelledAs(b: Bank, k: nat, reason: Option<string>, after: Bank, answer: Answer) {
    && OnlyMoves(b, after, k) && answer == Id(b.deposits[k].id) && after.deposits[k].status.Cancelled?
    && after.deposits[k].note == if ReasonOr(reason, "") == "" then None else Some(Said(ReasonOr(reason, "")))
  }

  ghost predicate TooLong(reason: Option<string>) {
    reason.Some? && !Fits(reason.value, 255)
  }

  lemma ReasonIsMessage(reason: Option<string>)
    requires OptionalText(reason).Success?
    ensures RequestedFailure(reason) ==
      FailureDetails(SettlementRejected, 422, Said(ReasonOr(reason, "Deposit failed")))
  {
    ReasonIsKept(reason, "Deposit failed");
  }

  lemma MarkedFailed(b: Bank, k: nat, failure: FailureDetails)
    requires k < |b.deposits|
    ensures var after := b.(deposits := b.deposits[k := MarkFailed(b.deposits[k], failure)]);
      && OnlyMoves(b, after, k) && IsFailure(b.deposits[k], after.deposits[k], failure.code, failure.status)
      && after.deposits[k].note == Some(failure.note)
  {
  }

  lemma PendingFails(b: Bank, id: string, reason: Option<string>, k: nat)
    requires Guard(b, id, Failed) == Success(k)
    ensures var (after, answer) := Fail(b, id, reason);
      if TooLong(reason) then after == b && answer == Thrown(BadRequest) else FailedAs(b, k, reason, after, answer)
  {
    ReasonIsKept(reason, "");
    if OptionalText(reason).Success? {
      ReasonIsMessage(reason);
      MarkedFailed(b, k, RequestedFailure(reason));
    }
  }

  lemma PendingCancels(b: Bank, id: string, reason: Option<string>, k: nat)
    requires Guard(b, id, Cancelled) == Success(k)
    ensures var (after, answer) := Cancel(b, id, reason);
      if TooLong(reason) then after == b && answer == Thrown(BadRequest) else CancelledAs(b, k, reason, after, answer)
  {
    ReasonIsKept(reason, "");
  }

  /** Failing: only a pending deposit, with a reason that is not too long, and with the reason as its message. */
  lemma FailsExactly(b: Bank, id: string, reason: Option<string>)
    requires DistinctDeposits(b.deposits)
    ensures var (after, answer) := Fail(b, id, reason);
      && ((forall k: nat :: !PendingAt(b, id, k)) ==> after == b && AnswersWithoutMoving(b, id, Failed, answer))
      && forall k: nat | PendingAt(b, id, k) ::
           if TooLong(reason) then after == b && answer == Thrown(BadRequest) else FailedAs(b, k, reason, after, answer)
  {
    GuardByRows(b, id, Failed);
    if k: nat :| PendingAt(b, id, k) { PendingFails(b, id, reason, k); }
  }

  /** Cancelling: likewise. */
  lemma CancelsExactly(b: Bank, id: string, reason: Option<string>)
    requires DistinctDeposits(b.deposits)
    ensures var (after, answer) := Cancel(b, id, reason);
      && ((forall k: nat :: !PendingAt(b, id, k)) ==> after == b && AnswersWithoutMoving(b, id, Cancelled, answer))
      && forall k: nat | PendingAt(b, id, k) ::
           if TooLong(reason) then after == b && answer == Thrown(BadRequest)
           else CancelledAs(b, k, reason, after, answer)
  {
    GuardByRows(b, id, Cancelled);
    if k: nat :| PendingAt(b, id, k) { PendingCancels(b, id, reason, k); }
  }

  /** Completing: only a pending deposit, and then by its rows. */
  lemma CompletingNeedsPending(b: Bank, id: string, newId: string, now: int)
    requires BankInv(b)
    ensures var (after, answer) := Complete(b, id, newId, now);
      && ((forall k: nat :: !PendingAt(b, id, k)) ==> after == b && AnswersWithoutMoving(b, id, Completed, answer))
      && forall k: nat | PendingAt(b, id, k) :: (after, answer) == Settle(b, k, newId, now)
  {
    GuardByRows(b, id, Completed);
  }

  function ReasonOr(reason: Option<string>, default: string): string {
    if reason.Some? && Trim(reason.value) != "" then Trim(reason.value) else default
  }

  lemma ReasonIsKept(reason: Option<string>, default: string)
    ensures OptionalText(reason).Failure? <==> reason.Some? && !Fits(reason.value, 255)
    ensures OptionalText(reason).Success? ==>
      (if OptionalText(reason).value.Some? then OptionalText(reason).value.value else default) == ReasonOr(reason, default)
  {
    if reason.Some? { TextFits(reason.value); }
  }

  // --------------------------------------------------------------------------- over every run: never malformed

  /** A printable ASCII character that JSON does not escape. */
  predicate IsPlain(c: char) {
    0x20 <= c as int < 0x7F && c != '"' && c != '\\'
  }

  predicate IsPlainText(s: string) {
    forall c | c in s :: IsPlain(c)
  }

  lemma PlainStays(c: char)
    requires IsPlain(c)
    ensures Escape(c) == [c]
  {
  }

  lemma {:induction false} PlainIsNotEscaped(s: string)
    requires IsPlainText(s)
    ensures EscapeAll(s) == s
  {
    if s != [] {
      assert s[0] in s && forall c | c in s[1..] :: c in s;
      PlainStays(s[0]);
      PlainIsNotEscaped(s[1..]);
      assert s == [s[0]] + s[1..];
    }
  }

  lemma {:induction false} AsciiUnits(s: string)
    requires forall c | c in s :: c as int < 128
    ensures |Units(s)| == |s|
  {
    if s != [] {
      assert s[0] in s && forall c | c in s[1..] :: c in s;
      AsciiUnits(s[1..]);
    }
  }

  lemma AsciiFits(s: string, most: int)
    requires (forall c | c in s :: c as int < 128) && |s| <= most
    ensures Fits(s, most)
  {
    TrimExactly(s, Trim(s));
    var a, b :| AllSpace(a) && AllSpace(b) && s == a + Trim(s) + b;
    assert forall c | c in Trim(s) :: c in s;
    AsciiUnits(Trim(s));
  }

  /** What the reference service draws: MN and the digits of a sequence number, at least twelve of them. */
  predicate IsPaymentReference(s: string) {
    14 <= |s| <= 21 && s[0] == 'M' && s[1] == 'N' && forall c | c in s[2..] :: IsDigit(c)
  }

  lemma ReferenceIsPlain(s: string)
    requires IsPaymentReference(s)
    ensures IsPlainText(s)
  {
    assert s == [s[0], s[1]] + s[2..];
  }

  lemma UuidIsPlain(s: string)
    requires IsUuid(s)
    ensures IsPlainText(s) && |s| == 36
  {
    forall c | c in s ensures IsPlain(c) {
      var i :| 0 <= i < 36 && s[i] == c;
    }
  }

  /** Ids are drawn as UUIDs, references as references. */
  predicate IsDrawn(step: Step) {
    match step
    case AccountStep(_, newId) => IsUuid(newId)
    case WalletStep(opening) => IsUuid(opening.accountId)
    case CreateStep(_, newId, paymentReference) => IsUuid(newId) && IsPaymentReference(paymentReference)
    case _ => true
  }

  ghost predicate Drawn(steps: seq<Step>) {
    forall s | s in steps :: IsDrawn(s)
  }

  ghost predicate WellSized(d: Deposit) {
    && IsUuid(d.id) && IsUuid(d.walletId) && IsPaymentReference(d.paymentReference) && d.amount <= MAX_BIGINT
    && (d.narration.Some? ==> Fits(d.narration.value, 255))
  }

  ghost predicate AllWellSized(b: Bank) {
    && (forall i | 0 <= i < |b.deposits| :: WellSized(b.deposits[i]))
    && (forall i | 0 <= i < |b.t.accounts| :: IsUuid(b.t.accounts[i].id))
  }

  lemma PrefixedFits(prefix: string, s: string, suffix: string)
    requires IsPlainText(prefix) && IsPlainText(s) && IsPlainText(suffix) && |prefix| + |s| + |suffix| <= 255
    ensures Fits(prefix + s + suffix, 255)
  {
    forall c | c in prefix + s + suffix ensures c as int < 128 { assert c in prefix || c in s || c in suffix; }
    AsciiFits(prefix + s + suffix, 255);
  }

  lemma PlainMember(key: string, text: string)
    requires IsPlainText(key) && IsPlainText(text)
    ensures var m := Quote(key) + ":" + Stringify(Str(text));
      |m| == |key| + |text| + 5 && forall c | c in m :: c as int < 128
  {
    PlainIsNotEscaped(key);
    PlainIsNotEscaped(text);
  }

  lemma JoinedThree(a: string, b: string, c: string)
    ensures Join([a, b, c]) == a + "," + (b + "," + c)
  {
    assert [a, b, c][1..] == [b, c] && [b, c][1..] == [c];
    assert Join([c]) == c;
    assert Join([b, c]) == b + "," + c;
  }

  lemma BracedUnits(a: string, b: string, c: string)
    requires (forall x | x in a :: x as int < 128) && (forall x | x in b :: x as int < 128)
    requires forall x | x in c :: x as int < 128
    ensures |Units("{" + Join([a, b, c]) + "}")| == |a| + |b| + |c| + 4
  {
    JoinedThree(a, b, c);
    var text := "{" + (a + "," + (b + "," + c)) + "}";
    forall x | x in text ensures x as int < 128 { assert x in a || x in b || x in c || x in "{" || x in "," || x in "}"; }
    AsciiUnits(text);
  }

  lemma ThreeMembers(members: seq<Keyed<Value>>)
    requires |members| == 3 && forall i | 0 <= i < 3 :: !members[i].item.Undefined?
    ensures StringifyMembers(members) ==
      [Quote(members[0].key) + ":" + Stringify(members[0].item), Quote(members[1].key) + ":" + Stringify(members[1].item),
       Quote(members[2].key) + ":" + Stringify(members[2].item)]
  {
    var rest, last := members[1..], members[2..];
    assert rest[1..] == last && last[1..] == [] && rest[0] == members[1] && last[0] == members[2];
    assert StringifyMembers(last) == [Quote(last[0].key) + ":" + Stringify(last[0].item)];
    assert StringifyMembers(rest) == [Quote(rest[0].key) + ":" + Stringify(rest[0].item)] + StringifyMembers(last);
  }

  lemma RecordIsShort(members: seq<Keyed<Value>>)
    requires |members| == 3
    requires forall i | 0 <= i < 3 :: members[i].item.Str? && IsPlainText(members[i].key) && IsPlainText(members[i].item.text)
    ensures |Units(Stringify(Obj(members)))| ==
      |members[0].key| + |members[0].item.text| + |members[1].key| + |members[1].item.text|
      + |members[2].key| + |members[2].item.text| + 19
  {
    PlainMember(members[0].key, members[0].item.text);
    PlainMember(members[1].key, members[1].item.text);
    PlainMember(members[2].key, members[2].item.text);
    ThreeMembers(members);
    BracedUnits(Quote(members[0].key) + ":" + Stringify(members[0].item),
      Quote(members[1].key) + ":" + Stringify(members[1].item), Quote(members[2].key) + ":" + Stringify(members[2].item));
  }

  lemma KeysArePlain()
    ensures IsPlainText("depositId") && IsPlainText("paymentReference") && IsPlainText("walletId")
    ensures |"depositId"| == 9 && |"paymentReference"| == 16 && |"walletId"| == 8
  {
  }

  lemma AboutIsShort(d: Deposit)
    requires WellSized(d)
    ensures |Units(Stringify(About(d)))| <= 32_768
  {
    UuidIsPlain(d.id);
    UuidIsPlain(d.walletId);
    ReferenceIsPlain(d.paymentReference);
    KeysArePlain();
    RecordIsShort(About(d).members);
  }

  lemma SizedIsSendable(d: Deposit, settlement: string, account: string)
    requires WellSized(d) && IsUuid(settlement) && IsUuid(account)
    ensures Sendable(d, settlement, account)
  {
    UuidIsPlain(d.id);
    ReferenceIsPlain(d.paymentReference);
    PrefixedFits("deposit:", d.id, ":completion");
    PrefixedFits("deposit:", d.id, "");
    assert "deposit:" + d.id + "" == "deposit:" + d.id;
    PrefixedFits("", d.paymentReference, "");
    assert "" + d.paymentReference + "" == d.paymentReference;
    PrefixedFits("Deposit ", d.paymentReference, "");
    assert "Deposit " + d.paymentReference + "" == "Deposit " + d.paymentReference;
    AboutIsShort(d);
  }

  // ------------------------------------------------------------------------------------------------- every step

  lemma KeptTextFits(text: Option<string>, kept: Option<string>)
    requires IsOptional(text, kept)
    ensures kept.Some? ==> Fits(kept.value, 255)
  {
    if kept.Some? {
      TrimExactly(text.value, kept.value);
      assert kept.value == "" + kept.value + "" && AllSpace("");
      assert IsTrimmed(kept.value, kept.value);
      TrimExactly(kept.value, kept.value);
    }
  }

  lemma CreatedIsSized(b: Bank, request: Request, newId: string, paymentReference: string)
    requires |Commit(b, CreateStep(request, newId, paymentReference)).deposits| > |b.deposits|
    requires IsUuid(newId) && IsPaymentReference(paymentReference)
    ensures WellSized(Commit(b, CreateStep(request, newId, paymentReference)).deposits[|b.deposits|])
  {
    NewRowIsAsked(b, request, newId, paymentReference);
    DepositExactly(request, NormalizeCreate(request).value);
    KeptTextFits(request.narration, NormalizeCreate(request).value.narration);
  }

  lemma CommitKeepsAccounts(b: Bank, step: Step)
    requires IsDrawn(step) && forall i | 0 <= i < |b.t.accounts| :: IsUuid(b.t.accounts[i].id)
    ensures var after := Commit(b, step).t.accounts; forall i | 0 <= i < |after| :: IsUuid(after[i].id)
  {
    match step
    case AccountStep(account, newId) =>
    case WalletStep(opening) =>
    case CompleteStep(id, newId, now) =>
      if Guard(b, id, Completed).Success? { SettleKeepsAccounts(b, Guard(b, id, Completed).value, newId, now); }
    case _ =>
  }

  lemma SettleKeepsAccounts(b: Bank, k: nat, newId: string, now: int)
    requires k < |b.deposits|
    ensures Settle(b, k, newId, now).0.t.accounts == b.t.accounts
  {
  }

  lemma OnlyCreationAdds(b: Bank, step: Step)
    ensures !step.CreateStep? ==> |Commit(b, step).deposits| == |b.deposits|
    ensures step.CreateStep? ==> |Commit(b, step).deposits| <= |b.deposits| + 1
  {
    match step
    case CompleteStep(id, newId, now) =>
      if Guard(b, id, Completed).Success? {
        SettleKeepsRequest(b, Guard(b, id, Completed).value, newId, now, Guard(b, id, Completed).value);
      }
    case _ =>
  }

  lemma CommitKeepsSizes(b: Bank, step: Step)
    requires AllWellSized(b) && IsDrawn(step)
    ensures AllWellSized(Commit(b, step))
  {
    CommitKeepsAccounts(b, step);
    OnlyCreationAdds(b, step);
    var after := Commit(b, step).deposits;
    forall i | 0 <= i < |after| ensures WellSized(after[i]) {
      if i < |b.deposits| {
        RowKeepsRequest(b, step, i);
        assert WellSized(b.deposits[i]);
      } else {
        CreatedIsSized(b, step.request, step.newId, step.paymentReference);
      }
    }
  }

  lemma {:induction false} RunIsSized(steps: seq<Step>)
    requires Drawn(steps)
    ensures AllWellSized(Run(steps))
  {
    if steps != [] {
      var front, last := steps[..|steps| - 1], steps[|steps| - 1];
      assert last in steps && forall s | s in front :: s in steps;
      RunIsSized(front);
      CommitKeepsSizes(Run(front), last);
    }
  }

  /**
   In every reachable state a completion's command is well-formed: a pending deposit fails with status 400 in no run,
   so it completes exactly when its wallet is active in its currency and the two accounts can take the post.
   */
  lemma NeverMalformed(steps: seq<Step>, d: Deposit)
    requires Honest(steps) && Drawn(steps) && d in Run(steps).deposits && d.walletId in Run(steps).wallets
    ensures var b := Run(steps);
      forall s | IsSettlement(b.t, d, s) :: Sendable(d, s.id, b.wallets[d.walletId].ledgerAccountId)
    ensures forall code, status | FailsWith(Run(steps), d, code, status) :: status != 400
  {
    RunIsSized(steps);
    RunIsSound(steps);
    SoundIsSendable(Run(steps), d);
  }

  lemma AccountsHaveUuids(b: Bank, a: Account)
    requires AllWellSized(b) && a in b.t.accounts
    ensures IsUuid(a.id)
  {
    var i :| 0 <= i < |b.t.accounts| && b.t.accounts[i] == a;
  }

  lemma SoundIsSendable(b: Bank, d: Deposit)
    requires BankInv(b) && AllWellSized(b) && d in b.deposits && d.walletId in b.wallets
    ensures forall s | IsSettlement(b.t, d, s) :: Sendable(d, s.id, b.wallets[d.walletId].ledgerAccountId)
    ensures forall code, status | FailsWith(b, d, code, status) :: status != 400
  {
    var k :| 0 <= k < |b.deposits| && b.deposits[k] == d;
    assert WellSized(b.deposits[k]) && WalletInPlace(b.t, d.walletId, b.wallets[d.walletId]);
    var account := b.wallets[d.walletId].ledgerAccountId;
    AccountsHaveUuids(b, FindAccount(b.t.accounts, account).value);
    forall s | IsSettlement(b.t, d, s) ensures Sendable(d, s.id, account) {
      AccountsHaveUuids(b, s);
      SizedIsSendable(d, s.id, account);
    }
  }
}
