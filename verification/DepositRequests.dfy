/** What a deposit request turns into, when a deposit is created for it, and that this is what the wallet is credited. */
module DepositRequests {
  import opened Prelude
  import opened JsText
  import opened Json
  import opened Money
  import opened LedgerTables
  import opened LedgerCommands
  import opened LedgerIdentity
  import opened LedgerRequests
  import opened Deposit
  import opened DepositInvariant
  import opened DepositConservation

  /** The wallet id as it is compared: without white space, in lower case. */
  ghost predicate IsWalletId(sent: string, walletId: string) {
    IsUuid(walletId) && exists trimmed :: IsTrimmed(sent, trimmed) && walletId == ToLower(trimmed)
  }

  /** The request asks for this deposit, every field in its own place. */
  ghost predicate AsksForDeposit(request: Request, n: NormalizedDeposit) {
    && IsWalletId(request.walletId, n.walletId) && n.ownership == request.ownership
    && Denotes(request.amount, n.amount) && 0 < n.amount <= MAX_BIGINT
    && NormalizeCurrency(request.currency) == Success(n.currency)
    && request.key.Some? && IsKept(request.key.value, n.key, 1, 255)
    && IsOptional(request.reference, n.reference) && IsOptional(request.narration, n.narration)
  }

  lemma WalletIdExactly(sent: string, walletId: string)
    ensures IsUuid(walletId) && ToLower(Trim(sent)) == walletId <==> IsWalletId(sent, walletId)
  {
    TrimExactly(sent, Trim(sent));
    if trimmed :| IsTrimmed(sent, trimmed) && walletId == ToLower(trimmed) { TrimExactly(sent, trimmed); }
  }

  lemma DepositFields(request: Request, n: NormalizedDeposit)
    ensures NormalizeCreate(request) == Success(n) <==>
      && IsUuid(n.walletId) && ToLower(Trim(request.walletId)) == n.walletId && n.ownership == request.ownership
      && ParsePositiveMinorUnits(request.amount) == Success(n.amount)
      && NormalizeCurrency(request.currency) == Success(n.currency)
      && request.key.Some? && Trim(request.key.value) == n.key && n.key != "" && Length(n.key) <= 255
      && OptionalText(request.reference) == Success(n.reference) && OptionalText(request.narration) == Success(n.narration)
      && RequestHashed(n)
  {
  }

  /** A request is accepted as a deposit exactly when it asks for it; the fingerprint is that of the deposit's fields. */
  lemma DepositExactly(request: Request, n: NormalizedDeposit)
    ensures NormalizeCreate(request) == Success(n) <==> AsksForDeposit(request, n) && RequestHashed(n)
  {
    DepositFields(request, n);
    WalletIdExactly(request.walletId, n.walletId);
    ParsesExactly(request.amount, n.amount);
    OptionalTextExactly(request.reference, n.reference);
    OptionalTextExactly(request.narration, n.narration);
    if request.key.Some? { KeyExactly(request.key.value, n.key); }
  }

  /** In particular an amount sent as a number, as its decimal text or as a bigint is that amount. */
  lemma AmountAsSent(request: Request, n: nat)
    requires NormalizeCreate(request).Success?
    requires request.amount == Integer(n) || request.amount == Decimal(ToDecimal(n)) || request.amount == Big(n)
    ensures NormalizeCreate(request).value.amount == n
  {
    DepositExactly(request, NormalizeCreate(request).value);
    FromToDecimal(n);
    FromDecimalIsPlaceValue(ToDecimal(n));
  }

  // ----------------------------------------------------------------------------------------------------- creation

  /** The row is the deposit that was asked for, open and without a journal. */
  ghost predicate IsNewRow(d: Deposit, n: NormalizedDeposit, newId: string, paymentReference: string) {
    && d.id == newId && d.paymentReference == paymentReference && d.key == n.key && SameDeposit(d, n) && RowHashed(d)
    && d.status.Pending? && d.journalId.None? && d.failureCode.None? && d.failureStatus.None? && d.note.None?
    && d.completedAt.None?
  }

  /** The wallet is there and the caller may use it: customers only their own. */
  ghost predicate MayUse(b: Bank, n: NormalizedDeposit) {
    n.walletId in b.wallets
    && (n.ownership.Internal? || b.wallets[n.walletId].customerId == n.ownership.customerId)
  }

  /**
   A new key and a fresh id: a deposit is created if and only if the wallet is the caller's to use, active and of the
   deposit's currency; a wallet that is not the caller's is reported like one that does not exist.
   */
  lemma CreatedExactly(b: Bank, n: NormalizedDeposit, newId: string, paymentReference: string)
    requires RequestHashed(n) && forall d | d in b.deposits :: d.key != n.key && d.id != newId
    ensures var (after, answer) := Create(b, n, newId, paymentReference);
      if !MayUse(b, n) then after == b && answer == Thrown(NotFound)
      else if !b.wallets[n.walletId].status.Active? || b.wallets[n.walletId].currency != n.currency then
        after == b && answer == Thrown(Conflict)
      else
        && answer == Id(newId) && after.t == b.t && after.wallets == b.wallets
        && |after.deposits| == |b.deposits| + 1 && after.deposits[..|b.deposits|] == b.deposits
        && IsNewRow(after.deposits[|b.deposits|], n, newId, paymentReference)
  {
    NewNamesAreNotFound(b, n.key, newId);
    NewRowIsNew(n, newId, paymentReference);
  }

  lemma NewNamesAreNotFound(b: Bank, key: string, newId: string)
    requires forall d | d in b.deposits :: d.key != key && d.id != newId
    ensures IndexBy(b.deposits, KeyOf, key) == |b.deposits| && IndexBy(b.deposits, IdOf, newId) == |b.deposits|
  {
  }

  lemma NewRowIsNew(n: NormalizedDeposit, newId: string, paymentReference: string)
    requires RequestHashed(n)
    ensures IsNewRow(NewDeposit(n, newId, paymentReference), n, newId, paymentReference)
  {
  }

  lemma KeyIsFound(b: Bank, k: nat)
    requires DistinctDeposits(b.deposits) && k < |b.deposits|
    ensures IndexBy(b.deposits, KeyOf, b.deposits[k].key) == k
  {
    var found := IndexBy(b.deposits, KeyOf, b.deposits[k].key);
    assert KeyOf(b.deposits[k]) == b.deposits[k].key;
    assert found <= k && KeyOf(b.deposits[found]) == b.deposits[k].key;
  }

  /** A key that is taken: its deposit for the same request of somebody who may see it, and otherwise which error. */
  lemma TakenKeyExactly(b: Bank, k: nat, n: NormalizedDeposit, newId: string, paymentReference: string)
    requires DistinctDeposits(b.deposits) && k < |b.deposits| && b.deposits[k].key == n.key
    requires RowHashed(b.deposits[k]) && RequestHashed(n)
    ensures var d := b.deposits[k];
      && Create(b, n, newId, paymentReference) ==
           (b, if !SameDeposit(d, n) then Thrown(Conflict) else if !MayUse(b, n) && n.ownership.CustomerSelf?
               then Thrown(NotFound) else Id(d.id))
      && LostKey(b, n) == if SameDeposit(d, n) then Id(d.id) else Thrown(Conflict)
  {
    DepositHashIdentifiesRequest(b.deposits[k], n);
    KeyIsFound(b, k);
  }

  // ------------------------------------------------------------------------------------------------- over a run

  lemma {:induction false} RowsStay(steps: seq<Step>, n: nat, i: nat)
    requires n <= |steps| && i < |Run(steps[..n]).deposits|
    ensures i < |Run(steps).deposits| && AsksSame(Run(steps[..n]).deposits[i], Run(steps).deposits[i])
  {
    if n < |steps| {
      var front := steps[..|steps| - 1];
      assert front[..n] == steps[..n];
      RowsStay(front, n, i);
      RowKeepsRequest(Run(front), steps[|steps| - 1], i);
    } else {
      assert steps[..n] == steps;
    }
  }

  lemma AddedRow(b: Bank, n: NormalizedDeposit, newId: string, paymentReference: string)
    requires |Create(b, n, newId, paymentReference).0.deposits| > |b.deposits|
    ensures Create(b, n, newId, paymentReference).0.deposits == b.deposits + [NewDeposit(n, newId, paymentReference)]
  {
  }

  lemma NewRowIsAsked(b: Bank, request: Request, newId: string, paymentReference: string)
    requires |Commit(b, CreateStep(request, newId, paymentReference)).deposits| > |b.deposits|
    ensures NormalizeCreate(request).Success?
    ensures var d := NewDeposit(NormalizeCreate(request).value, newId, paymentReference);
      Commit(b, CreateStep(request, newId, paymentReference)).deposits == b.deposits + [d]
  {
    AddedRow(b, NormalizeCreate(request).value, newId, paymentReference);
  }

  /** The row is the one the request asked for. */
  ghost predicate IsAskedFor(request: Request, newId: string, d: Deposit) {
    d.id == newId && exists asked :: AsksForDeposit(request, asked) && SameDeposit(d, asked)
  }

  lemma CreatedIsAskedFor(b: Bank, request: Request, newId: string, paymentReference: string)
    requires |Commit(b, CreateStep(request, newId, paymentReference)).deposits| > |b.deposits|
    ensures IsAskedFor(request, newId, Commit(b, CreateStep(request, newId, paymentReference)).deposits[|b.deposits|])
  {
    NewRowIsAsked(b, request, newId, paymentReference);
    DepositExactly(request, NormalizeCreate(request).value);
  }

  lemma StaysAskedFor(request: Request, newId: string, d: Deposit, e: Deposit)
    requires IsAskedFor(request, newId, d) && AsksSame(d, e)
    ensures IsAskedFor(request, newId, e)
  {
    var asked :| AsksForDeposit(request, asked) && SameDeposit(d, asked);
    assert SameDeposit(e, asked);
  }

  lemma NextStep(steps: seq<Step>, n: nat)
    requires n < |steps|
    ensures Run(steps[..n + 1]) == Commit(Run(steps[..n]), steps[n])
  {
    assert steps[..n + 1][..n] == steps[..n];
  }

  /**
   A deposit that some request created is at every later point of the run still what that request asked for; and once
   it is completed, its journal credits the wallet that was asked for with the amount that was asked for.
   */
  lemma CreditedAsAsked(steps: seq<Step>, n: nat)
    requires Honest(steps) && n < |steps| && steps[n].CreateStep?
    requires |Run(steps[..n + 1]).deposits| > |Run(steps[..n]).deposits|
    ensures var b, k := Run(steps), |Run(steps[..n]).deposits|;
      && k < |b.deposits| && IsAskedFor(steps[n].request, steps[n].newId, b.deposits[k])
      && (b.deposits[k].status.Completed? ==> CreditedByJournal(b, b.deposits[k]))
  {
    var k := |Run(steps[..n]).deposits|;
    NextStep(steps, n);
    CreatedIsAskedFor(Run(steps[..n]), steps[n].request, steps[n].newId, steps[n].paymentReference);
    RowsStay(steps, n + 1, k);
    StaysAskedFor(steps[n].request, steps[n].newId, Run(steps[..n + 1]).deposits[k], Run(steps).deposits[k]);
    RunIsSound(steps);
    PlaceIsCredit(Run(steps), k);
  }

  lemma PlaceIsCredit(b: Bank, k: nat)
    requires BankInv(b) && k < |b.deposits|
    ensures b.deposits[k].status.Completed? ==> CreditedByJournal(b, b.deposits[k])
  {
    assert DepositInPlace(b.t, b.wallets, b.deposits[k]);
  }

  /** The completion journal has two entries, one of them the credit of the deposit's amount to its wallet's account. */
  ghost predicate CreditedByJournal(b: Bank, d: Deposit) {
    var j := FindKey(b.t.journals, CompletionKey(d.id));
    && j.Some? && d.journalId == Some(j.value.id) && d.walletId in b.wallets
    && |EntriesIn(b.t.lines, j.value.id)| == 2
    && EntriesIn(b.t.lines, j.value.id)[1] == Entry(b.wallets[d.walletId].ledgerAccountId, Credit, d.amount)
  }
}
