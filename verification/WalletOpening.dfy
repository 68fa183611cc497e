/** When the wallet service opens a wallet, and that no customer ever has two in one currency. */
module WalletOpening {
  import opened Prelude
  import opened JsText
  import opened LedgerTables
  import opened LedgerRequests
  import opened Deposit
  import opened DepositInvariant
  import opened DepositConservation

  /** The request asks for this wallet. */
  ghost predicate AsksForWallet(request: Opening, o: Opening) {
    && IsKept(request.customerId, o.customerId, 1, 160) && NormalizeCurrency(request.currency) == Success(o.currency)
    && request.key.Some? && o.key.Some? && IsKept(request.key.value, o.key.value, 1, 255)
    && o.walletId == request.walletId && o.accountId == request.accountId
  }

  lemma CustomerExactly(text: string, customerId: string)
    ensures Trim(text) == customerId && 1 <= Length(customerId) <= 160 <==> IsKept(text, customerId, 1, 160)
  {
    TrimExactly(text, customerId);
    LengthCountsUnits(customerId);
  }

  lemma OpeningFields(request: Opening, o: Opening)
    ensures NormalizeOpening(request) == Success(o) <==>
      && Trim(request.customerId) == o.customerId && 1 <= Length(o.customerId) <= 160
      && NormalizeCurrency(request.currency) == Success(o.currency) && request.key.Some? && o.key.Some?
      && Trim(request.key.value) == o.key.value && o.key.value != "" && Length(o.key.value) <= 255
      && o.walletId == request.walletId && o.accountId == request.accountId
  {
  }

  lemma OpeningExactly(request: Opening, o: Opening)
    ensures NormalizeOpening(request) == Success(o) <==> AsksForWallet(request, o)
  {
    OpeningFields(request, o);
    CustomerExactly(request.customerId, o.customerId);
    if request.key.Some? && o.key.Some? { KeyExactly(request.key.value, o.key.value); }
  }

  /** Nothing stands in its way: no wallet of the customer in the currency or under the key, and fresh ids. */
  ghost predicate Free(b: Bank, o: Opening) {
    && (forall id | id in b.wallets ::
          && Some(b.wallets[id].creationKey) != o.key && id != o.walletId
          && (b.wallets[id].customerId != o.customerId || b.wallets[id].currency != o.currency))
    && forall a | a in b.t.accounts :: a.id != o.accountId && a.code != "WALLET-" + o.walletId
  }

  lemma FreeIsNotRefused(b: Bank, o: Opening)
    ensures WalletRefused(b, o) <==> !Free(b, o)
  {
  }

  /** A wallet is opened exactly when nothing stands in its way: active, the customer's, with its own account. */
  lemma OpenedExactly(b: Bank, request: Opening, o: Opening)
    requires AsksForWallet(request, o)
    ensures OpenWallet(b, request) ==
      if !Free(b, o) then b
      else Bank(
        b.t.(accounts := b.t.accounts
          + [Account(o.accountId, "WALLET-" + o.walletId, "Customer wallet " + o.walletId, Liability, Credit, o.currency,
                     "CUSTOMER_FUNDS", false, true)]),
        b.wallets[o.walletId :=
          Wallet(o.walletId, o.customerId, o.currency, Active, o.accountId, o.key.value)], b.deposits)
  {
    OpeningExactly(request, o);
    FreeIsNotRefused(b, o);
  }

  // ------------------------------------------------------------------------------------------------- over every run

  /** Wallets differ in their customer or their currency, and in the key they were created under. */
  ghost predicate WalletsDiffer(wallets: map<string, Wallet>) {
    forall v, w | v in wallets && w in wallets && v != w ::
      && (wallets[v].customerId != wallets[w].customerId || wallets[v].currency != wallets[w].currency)
      && wallets[v].creationKey != wallets[w].creationKey
  }

  lemma OpenKeepsDifferent(b: Bank, request: Opening)
    requires WalletsDiffer(b.wallets)
    ensures WalletsDiffer(OpenWallet(b, request).wallets)
  {
    var o := NormalizeOpening(request);
    if o.Success? && !WalletRefused(b, o.value) {
      OpeningExactly(request, o.value);
      FreeIsNotRefused(b, o.value);
      NewWalletDiffers(b, o.value);
    }
  }

  lemma NewWalletDiffers(b: Bank, o: Opening)
    requires WalletsDiffer(b.wallets) && Free(b, o) && o.key.Some?
    ensures WalletsDiffer(InsertWallet(b, o).wallets)
  {
  }

  lemma CommitKeepsDifferent(b: Bank, step: Step)
    requires WalletsDiffer(b.wallets)
    ensures WalletsDiffer(Commit(b, step).wallets)
  {
    match step
    case WalletStep(opening) => OpenKeepsDifferent(b, opening);
    case CompleteStep(id, newId, now) =>
      if Guard(b, id, Completed).Success? { SettleKeepsWallets(b, Guard(b, id, Completed).value, newId, now); }
    case _ =>
  }

  /** No run ever gives a customer two wallets in one currency, or two wallets the same creation key. */
  lemma {:induction false} OneWalletPerCurrency(steps: seq<Step>)
    ensures WalletsDiffer(Run(steps).wallets)
  {
    if steps != [] {
      OneWalletPerCurrency(steps[..|steps| - 1]);
      CommitKeepsDifferent(Run(steps[..|steps| - 1]), steps[|steps| - 1]);
    }
  }
}
