/** Deposits over every interleaving with other posts: what a completed deposit means, and conservation. */
module DepositInvariant {
  import opened Prelude
  import opened JsText
  import opened Money
  import opened LedgerTables
  import opened LedgerCommands
  import opened LedgerPosting
  import opened LedgerService
  import opened LedgerInvariant
  import opened LedgerIdentity
  import opened Fingerprint
  import opened Reversal
  import opened Deposit
  import LedgerClients

  // ------------------------------------------------------------------------------------------------- other steps

  function WalletAccount(walletId: string, accountId: string, currency: string): Account {
    Account(accountId, "WALLET-" + walletId, "Customer wallet " + walletId, Liability, Credit, currency, DEFAULT_UNIT,
      false, true)
  }

  /** What is asked of the wallet service, with the ids it draws. */
  datatype Opening = Opening(customerId: string, currency: string, key: Option<string>, walletId: string,
    accountId: string)

  /** The normalised request: customer, currency and creation key. */
  function NormalizeOpening(o: Opening): Result<Opening, Error> {
    var customerId := Trim(o.customerId);
    var currency :- NormalizeCurrency(o.currency);
    var key := if o.key.Some? then Trim(o.key.value) else "";
    if Length(customerId) < 1 || Length(customerId) > 160 || key == "" || Length(key) > 255 then Failure(BadRequest)
    else Success(Opening(customerId, currency, Some(key), o.walletId, o.accountId))
  }

  /** A wallet with this creation key is there already: it is answered, or the request conflicts with it. */
  predicate KeyUsed(b: Bank, o: Opening) {
    exists id :: id in b.wallets && Some(b.wallets[id].creationKey) == o.key
  }

  predicate WalletRefused(b: Bank, o: Opening) {
    || KeyUsed(b, o) || o.walletId in b.wallets || FindAccount(b.t.accounts, o.accountId).Some?
    || (exists id :: id in b.wallets && b.wallets[id].customerId == o.customerId && b.wallets[id].currency == o.currency)
    || (exists i :: 0 <= i < |b.t.accounts| && b.t.accounts[i].code == "WALLET-" + o.walletId)
  }

  /** A wallet and its ledger account are inserted together. */
  function OpenWallet(b: Bank, request: Opening): Bank {
    var o := NormalizeOpening(request);
    if o.Failure? || WalletRefused(b, o.value) then b else InsertWallet(b, o.value)
  }

  function InsertWallet(b: Bank, o: Opening): Bank {
    Bank(b.t.(accounts := b.t.accounts + [WalletAccount(o.walletId, o.accountId, o.currency)]),
      b.wallets[o.walletId := Wallet(o.walletId, o.customerId, o.currency, Active, o.accountId,
                                     if o.key.Some? then o.key.value else "")], b.deposits)
  }

  function SetStatus(b: Bank, walletId: string, status: WalletStatus): Bank {
    if walletId in b.wallets then b.(wallets := b.wallets[walletId := b.wallets[walletId].(status := status)]) else b
  }

  /** One committed transaction of any client; an aborted attempt changes nothing. */
  datatype Step =
    | AccountStep(account: AccountCommand, newId: string)
    | WalletStep(opening: Opening)
    | StatusStep(walletId: string, status: WalletStatus)
    | PostStep(command: Command, newId: string)
    | CreateStep(request: Request, newId: string, paymentReference: string)
    | CompleteStep(id: string, newId: string, now: int)
    | FailStep(id: string, reason: Option<string>)
    | CancelStep(id: string, reason: Option<string>)

  function Commit(b: Bank, step: Step): Bank {
    match step
    case AccountStep(account, newId) => b.(t := CreateEffect(b.t, account, newId))
    case WalletStep(opening) => OpenWallet(b, opening)
    case StatusStep(walletId, status) => SetStatus(b, walletId, status)
    case PostStep(command, newId) =>
      var c := Normalize(command);
      if c.Success? then b.(t := PostEffect(b.t, c.value, newId)) else b
    case CreateStep(request, newId, paymentReference) =>
      var n := NormalizeCreate(request);
      if n.Success? then Create(b, n.value, newId, paymentReference).0 else b
    case CompleteStep(id, newId, now) => Complete(b, id, newId, now).0
    case FailStep(id, reason) => Fail(b, id, reason).0
    case CancelStep(id, reason) => Cancel(b, id, reason).0
  }

  function RunFrom(b: Bank, steps: seq<Step>): Bank {
    if steps == [] then b else Commit(RunFrom(b, steps[..|steps| - 1]), steps[|steps| - 1])
  }

  const NO_BANK := Bank(EMPTY, map[], [])

  predicate IsCompletionKey(key: string) {
    |key| >= 19 && key[..8] == "deposit:" && key[|key| - 11..] == ":completion"
  }

  /** No other poster uses the keys of completions. */
  ghost predicate Honest(steps: seq<Step>) {
    forall s | s in steps && s.PostStep? :: !IsCompletionKey(Trim(s.command.key))
  }

  // ------------------------------------------------------------------------------------------------ the invariant

  ghost predicate IsCurrency(c: string) {
    |c| == 3 && forall x | x in c :: IsUpperLetter(x)
  }

  function CompletionEntries(d: Deposit, settlement: string, walletAccount: string): seq<Entry> {
    [Entry(settlement, Debit, d.amount), Entry(walletAccount, Credit, d.amount)]
  }

  /** The completion journal is there: settlement is debited and the wallet credited with the amount. */
  ghost predicate Fulfilled(t: Tables, wallets: map<string, Wallet>, d: Deposit) {
    var j, s := FindKey(t.journals, CompletionKey(d.id)), FindSettlement(t.accounts, d.currency);
    && j.Some? && d.journalId == Some(j.value.id) && s.Some? && d.walletId in wallets
    && EntriesIn(t.lines, j.value.id) == CompletionEntries(d, s.value.id, wallets[d.walletId].ledgerAccountId)
  }

  ghost predicate DepositInPlace(t: Tables, wallets: map<string, Wallet>, d: Deposit) {
    && d.amount > 0 && IsCurrency(d.currency)
    && if d.status.Completed? then Fulfilled(t, wallets, d)
       else d.journalId.None? && FindKey(t.journals, CompletionKey(d.id)).None?
  }

  /** What the trigger on `wallet_accounts` demands, and the code the wallet service gives the account. */
  ghost predicate WalletInPlace(t: Tables, id: string, w: Wallet) {
    var a := FindAccount(t.accounts, w.ledgerAccountId);
    && w.id == id && a.Some? && a.value.code == "WALLET-" + id && a.value.accountType == Liability
    && a.value.normalBalance == Credit && a.value.currency == w.currency && a.value.unit == DEFAULT_UNIT
    && !a.value.allowNegative
  }

  ghost predicate DistinctDeposits(deposits: seq<Deposit>) {
    forall i, j | 0 <= i < j < |deposits| :: deposits[i].id != deposits[j].id && deposits[i].key != deposits[j].key
  }

  ghost predicate KeysOwned(journals: seq<Journal>, deposits: seq<Deposit>) {
    forall j | j in journals && IsCompletionKey(j.key) ::
      exists i :: 0 <= i < |deposits| && CompletionKey(deposits[i].id) == j.key
  }

  ghost predicate BankInv(b: Bank) {
    && Consistent(b.t) && DistinctDeposits(b.deposits) && KeysOwned(b.t.journals, b.deposits)
    && (forall i | 0 <= i < |b.deposits| :: DepositInPlace(b.t, b.wallets, b.deposits[i]))
    && (forall id | id in b.wallets :: WalletInPlace(b.t, id, b.wallets[id]))
  }

  // ---------------------------------------------------------------------------------------------------- small facts

  lemma CompletionKeyFacts(id: string)
    ensures IsCompletionKey(CompletionKey(id)) && Trim(CompletionKey(id)) == CompletionKey(id)
    ensures CompletionKey(id)[8..|CompletionKey(id)| - 11] == id
  {
    var key := CompletionKey(id);
    assert key[..8] == "deposit:" && key[|key| - 11..] == ":completion";
    assert key[0] == 'd' && key[|key| - 1] == 'n';
  }

  lemma CompletionKeyInjective(a: string, b: string)
    requires CompletionKey(a) == CompletionKey(b)
    ensures a == b
  {
    CompletionKeyFacts(a);
    CompletionKeyFacts(b);
  }

  lemma {:induction false} FindSettlementAppend(accounts: seq<Account>, a: Account, currency: string)
    requires FindSettlement(accounts, currency).Some?
    ensures FindSettlement(accounts + [a], currency) == FindSettlement(accounts, currency)
  {
    assert (accounts + [a])[0] == accounts[0];
    if !Settles(accounts[0], currency) {
      assert (accounts + [a])[1..] == accounts[1..] + [a];
      FindSettlementAppend(accounts[1..], a, currency);
    }
  }

  lemma NormalizeCurrencyFixes(currency: string)
    requires IsCurrency(currency)
    ensures NormalizeCurrency(currency) == Success(currency)
  {
    assert forall i | 0 <= i < 3 :: currency[i] in currency;
    assert Trim(currency) == currency;
    UpperStays(currency);
  }

  lemma NormalizedIsCurrency(currency: string)
    requires NormalizeCurrency(currency).Success?
    ensures IsCurrency(NormalizeCurrency(currency).value)
  {
  }

  lemma AmountIsPositive(amount: Amount)
    requires ParsePositiveMinorUnits(amount).Success?
    ensures ParsePositiveMinorUnits(amount).value > 0
  {
    if amount.Integer? && amount.number >= 0 { FromToDecimal(amount.number); }
  }

  lemma CreatedFacts(request: Request)
    requires NormalizeCreate(request).Success?
    ensures NormalizeCreate(request).value.amount > 0 && IsCurrency(NormalizeCreate(request).value.currency)
  {
    AmountIsPositive(request.amount);
    NormalizedIsCurrency(request.currency);
  }

  /** What the ledger makes of a completion command. */
  lemma CompletionFacts(accounts: seq<Account>, d: Deposit, w: Wallet)
    requires CompletionPost(accounts, d, w).Success? && IsCurrency(d.currency)
    ensures var c := CompletionPost(accounts, d, w).value;
      && WellPosed(c) && c.key == CompletionKey(d.id) && c.reversalOf.None?
      && FindSettlement(accounts, d.currency).Some?
      && c.entries == CompletionEntries(d, FindSettlement(accounts, d.currency).value.id, w.ledgerAccountId)
  {
    NormalizeCurrencyFixes(d.currency);
    var settlement := SettlementAccount(accounts, d.currency).value;
    var command := CompletionCommand(d, w, settlement);
    NormalizedIsWellPosed(command);
    CompletionKeyFacts(d.id);
    NormalizedFacts(command);
    EntriesFollowLines(command.lines);
    assert NormalizeLine(command.lines[0]) == Success(EntriesOf(command.lines).value[0]);
    assert NormalizeLine(command.lines[1]) == Success(EntriesOf(command.lines).value[1]);
    AmountTextParses(d.amount);
  }

  // ------------------------------------------------------------------------------------------ every step keeps it

  ghost predicate AccountsKept(a: seq<Account>, b: seq<Account>) {
    && (forall currency | FindSettlement(a, currency).Some? :: FindSettlement(b, currency) == FindSettlement(a, currency))
    && (forall id | FindAccount(a, id).Some? :: FindAccount(b, id) == FindAccount(a, id))
  }

  ghost predicate WalletsKept(v: map<string, Wallet>, w: map<string, Wallet>) {
    forall id | id in v :: id in w && w[id].ledgerAccountId == v[id].ledgerAccountId
  }

  lemma PlaceSurvives(t: Tables, v: map<string, Wallet>, u: Tables, w: map<string, Wallet>, d: Deposit)
    requires DepositInPlace(t, v, d)
    requires LedgerClients.Grown(t, u) && AccountsKept(t.accounts, u.accounts) && WalletsKept(v, w)
    requires d.status.Completed? || FindKey(u.journals, CompletionKey(d.id)).None?
    ensures DepositInPlace(u, w, d)
  {
    if d.status.Completed? {
      var j := FindKey(t.journals, CompletionKey(d.id)).value;
      var k :| 0 <= k < |t.journals| && t.journals[k] == j;
      assert FindJournal(t.journals, j.id).Some?;
    }
  }

  lemma OneMoreAccount(t: Tables, a: Account)
    requires FindAccount(t.accounts, a.id).None?
    ensures AccountsKept(t.accounts, t.accounts + [a])
    ensures LedgerClients.Grown(t, t.(accounts := t.accounts + [a]))
  {
    forall currency | FindSettlement(t.accounts, currency).Some?
      ensures FindSettlement(t.accounts + [a], currency) == FindSettlement(t.accounts, currency)
    {
      FindSettlementAppend(t.accounts, a, currency);
    }
    forall id | FindAccount(t.accounts, id).Some?
      ensures FindAccount(t.accounts + [a], id) == FindAccount(t.accounts, id)
    {
      FindAccountAppend(t.accounts, a, id);
    }
  }

  lemma AccountKeepsBank(b: Bank, a: Account)
    requires BankInv(b) && FindAccount(b.t.accounts, a.id).None?
    requires forall i | 0 <= i < |b.t.accounts| :: b.t.accounts[i].code != a.code
    ensures BankInv(b.(t := b.t.(accounts := b.t.accounts + [a])))
  {
    var u := b.t.(accounts := b.t.accounts + [a]);
    AccountKeepsConsistent(b.t, a);
    OneMoreAccount(b.t, a);
    forall i | 0 <= i < |b.deposits| ensures DepositInPlace(u, b.wallets, b.deposits[i]) {
      PlaceSurvives(b.t, b.wallets, u, b.wallets, b.deposits[i]);
    }
    forall id | id in b.wallets ensures WalletInPlace(u, id, b.wallets[id]) {
      assert WalletInPlace(b.t, id, b.wallets[id]);
    }
  }

  lemma WalletsKeepBank(b: Bank, wallets: map<string, Wallet>)
    requires BankInv(b) && WalletsKept(b.wallets, wallets)
    requires forall id | id in wallets :: WalletInPlace(b.t, id, wallets[id])
    ensures BankInv(b.(wallets := wallets))
  {
    forall i | 0 <= i < |b.deposits| ensures DepositInPlace(b.t, wallets, b.deposits[i]) {
      PlaceSurvives(b.t, b.wallets, b.t, wallets, b.deposits[i]);
    }
  }

  lemma WalletKeepsBank(b: Bank, request: Opening)
    requires BankInv(b)
    ensures BankInv(OpenWallet(b, request))
  {
    var o := NormalizeOpening(request);
    if o.Success? && !WalletRefused(b, o.value) { InsertWalletKeepsBank(b, o.value); }
  }

  lemma InsertWalletKeepsBank(b: Bank, o: Opening)
    requires BankInv(b) && !WalletRefused(b, o)
    ensures BankInv(InsertWallet(b, o))
  {
    var a := WalletAccount(o.walletId, o.accountId, o.currency);
    AccountKeepsBank(b, a);
    FindAccountAppend(b.t.accounts, a, o.accountId);
    NewWalletKeepsBank(b.(t := b.t.(accounts := b.t.accounts + [a])), InsertWallet(b, o).wallets[o.walletId]);
  }

  lemma NewWalletKeepsBank(b: Bank, w: Wallet)
    requires BankInv(b) && w.id !in b.wallets && WalletInPlace(b.t, w.id, w)
    ensures BankInv(b.(wallets := b.wallets[w.id := w]))
  {
    WalletsKeepBank(b, b.wallets[w.id := w]);
  }

  /** A written journal: every pending deposit but the one it completes still has no journal. */
  lemma WriteKeepsPlaces(b: Bank, c: Normalized, newId: string, i: nat)
    requires BankInv(b) && i < |b.deposits| && LedgerClients.Grown(b.t, WriteJournal(b.t, c, newId))
    requires c.key != CompletionKey(b.deposits[i].id)
    ensures DepositInPlace(WriteJournal(b.t, c, newId), b.wallets, b.deposits[i])
  {
    LedgerClients.FindKeyAppend(b.t.journals, JournalFor(c, newId), CompletionKey(b.deposits[i].id));
    PlaceSurvives(b.t, b.wallets, WriteJournal(b.t, c, newId), b.wallets, b.deposits[i]);
  }

  lemma WrittenFacts(t: Tables, c: Normalized, newId: string)
    requires Consistent(t) && WellPosed(c) && PostOutcome(t, c, newId).Written?
    ensures PostEffect(t, c, newId) == WriteJournal(t, c, newId) && PostOutcome(t, c, newId) == Written(newId)
    ensures FindKey(t.journals, c.key).None? && FindJournal(t.journals, newId).None?
    ensures Consistent(WriteJournal(t, c, newId)) && LedgerClients.Grown(t, WriteJournal(t, c, newId))
  {
    PostKeepsConsistent(t, c, newId);
    LedgerClients.OutcomeFacts(t, c, newId);
    LedgerClients.WriteGrows(t, c, newId);
  }

  lemma WalletsSurvive(b: Bank, c: Normalized, newId: string)
    requires BankInv(b)
    ensures forall id | id in b.wallets :: WalletInPlace(WriteJournal(b.t, c, newId), id, b.wallets[id])
  {
    forall id | id in b.wallets ensures WalletInPlace(WriteJournal(b.t, c, newId), id, b.wallets[id]) {
      assert WalletInPlace(b.t, id, b.wallets[id]);
    }
  }

  lemma PostKeepsBank(b: Bank, c: Normalized, newId: string)
    requires BankInv(b) && WellPosed(c) && !IsCompletionKey(c.key)
    ensures BankInv(b.(t := PostEffect(b.t, c, newId)))
  {
    if PostOutcome(b.t, c, newId).Written? {
      WrittenFacts(b.t, c, newId);
      forall i | 0 <= i < |b.deposits| ensures DepositInPlace(WriteJournal(b.t, c, newId), b.wallets, b.deposits[i]) {
        CompletionKeyFacts(b.deposits[i].id);
        WriteKeepsPlaces(b, c, newId, i);
      }
      assert KeysOwned(WriteJournal(b.t, c, newId).journals, b.deposits);
      WalletsSurvive(b, c, newId);
    }
  }

  lemma ReplaceKeepsBank(b: Bank, k: nat, d: Deposit)
    requires BankInv(b) && k < |b.deposits| && DepositInPlace(b.t, b.wallets, d)
    requires d.id == b.deposits[k].id && d.key == b.deposits[k].key
    ensures BankInv(b.(deposits := b.deposits[k := d]))
  {
    var after := b.deposits[k := d];
    forall j | j in b.t.journals && IsCompletionKey(j.key)
      ensures exists i :: 0 <= i < |after| && CompletionKey(after[i].id) == j.key
    {
      var i :| 0 <= i < |b.deposits| && CompletionKey(b.deposits[i].id) == j.key;
      assert CompletionKey(after[i].id) == j.key;
    }
  }

  /** The command that completes a deposit has just been written as a journal. */
  ghost predicate Completes(t: Tables, d: Deposit, w: Wallet, c: Normalized, newId: string) {
    && c.key == CompletionKey(d.id) && FindKey(t.journals, c.key).None? && FindJournal(t.journals, newId).None?
    && FindSettlement(t.accounts, d.currency).Some?
    && c.entries == CompletionEntries(d, FindSettlement(t.accounts, d.currency).value.id, w.ledgerAccountId)
    && Consistent(WriteJournal(t, c, newId)) && LedgerClients.Grown(t, WriteJournal(t, c, newId))
  }

  /** Completing a pending deposit always writes its journal: the key cannot be there before. */
  lemma CompletionIsWritten(t: Tables, d: Deposit, w: Wallet, newId: string)
    requires Consistent(t) && IsCurrency(d.currency) && FindKey(t.journals, CompletionKey(d.id)).None?
    requires PostedOf(t, CompletionPost(t.accounts, d, w), newId).Journaled?
    ensures var r := CompletionPost(t.accounts, d, w);
      && r.Success? && Completes(t, d, w, r.value, newId)
      && PostedOf(t, r, newId) == Journaled(newId) && TablesAfterPost(t, r, newId) == WriteJournal(t, r.value, newId)
  {
    CompletionFacts(t.accounts, d, w);
    NewKeyIsWritten(t, CompletionPost(t.accounts, d, w), newId);
  }

  lemma NewKeyIsWritten(t: Tables, r: Result<Normalized, Error>, newId: string)
    requires Consistent(t) && PostedOf(t, r, newId).Journaled?
    requires FindKey(t.journals, r.value.key).None? && WellPosed(r.value)
    ensures PostedOf(t, r, newId) == Journaled(newId) && TablesAfterPost(t, r, newId) == WriteJournal(t, r.value, newId)
    ensures FindJournal(t.journals, newId).None?
    ensures Consistent(WriteJournal(t, r.value, newId)) && LedgerClients.Grown(t, WriteJournal(t, r.value, newId))
  {
    WrittenFacts(t, r.value, newId);
  }

  lemma CompletedIsFulfilled(t: Tables, v: map<string, Wallet>, d: Deposit, c: Normalized, newId: string, now: int)
    requires Consistent(t) && d.walletId in v && Completes(t, d, v[d.walletId], c, newId)
    ensures Fulfilled(WriteJournal(t, c, newId), v, MarkCompleted(d, newId, now))
  {
    LedgerClients.FindKeyAppend(t.journals, JournalFor(c, newId), c.key);
    WriteKeepsEntries(t, c, newId, newId);
  }

  lemma CompletedKeepsPlace(b: Bank, k: nat, c: Normalized, newId: string, now: int, i: nat)
    requires BankInv(b) && k < |b.deposits| && i < |b.deposits| && b.deposits[k].walletId in b.wallets
    requires Completes(b.t, b.deposits[k], b.wallets[b.deposits[k].walletId], c, newId)
    ensures DepositInPlace(WriteJournal(b.t, c, newId), b.wallets,
      if i == k then MarkCompleted(b.deposits[k], newId, now) else b.deposits[i])
  {
    if i == k {
      CompletedIsFulfilled(b.t, b.wallets, b.deposits[k], c, newId, now);
      assert DepositInPlace(b.t, b.wallets, b.deposits[k]);
    } else {
      if c.key == CompletionKey(b.deposits[i].id) { CompletionKeyInjective(b.deposits[k].id, b.deposits[i].id); }
      WriteKeepsPlaces(b, c, newId, i);
    }
  }

  lemma CompletedKeepsBank(b: Bank, k: nat, c: Normalized, newId: string, now: int)
    requires BankInv(b) && k < |b.deposits| && b.deposits[k].walletId in b.wallets
    requires Completes(b.t, b.deposits[k], b.wallets[b.deposits[k].walletId], c, newId)
    ensures BankInv(Bank(WriteJournal(b.t, c, newId), b.wallets, b.deposits[k := MarkCompleted(b.deposits[k], newId, now)]))
  {
    var d := b.deposits[k];
    var u, after := WriteJournal(b.t, c, newId), b.deposits[k := MarkCompleted(d, newId, now)];
    forall i | 0 <= i < |after| ensures DepositInPlace(u, b.wallets, after[i]) {
      CompletedKeepsPlace(b, k, c, newId, now, i);
    }
    SameNamesStayDistinct(b.deposits, after);
    WrittenKeyIsOwned(b, k, c, newId, after);
    WalletsSurvive(b, c, newId);
  }

  lemma SameNamesStayDistinct(a: seq<Deposit>, b: seq<Deposit>)
    requires DistinctDeposits(a) && |a| == |b|
    requires forall i | 0 <= i < |a| :: a[i].id == b[i].id && a[i].key == b[i].key
    ensures DistinctDeposits(b)
  {
  }

  lemma WrittenKeyIsOwned(b: Bank, k: nat, c: Normalized, newId: string, after: seq<Deposit>)
    requires BankInv(b) && k < |b.deposits| == |after| && c.key == CompletionKey(b.deposits[k].id)
    requires forall i | 0 <= i < |after| :: after[i].id == b.deposits[i].id
    ensures KeysOwned(WriteJournal(b.t, c, newId).journals, after)
  {
    forall j | j in WriteJournal(b.t, c, newId).journals && IsCompletionKey(j.key)
      ensures exists i :: 0 <= i < |after| && CompletionKey(after[i].id) == j.key
    {
      if j in b.t.journals {
        var i :| 0 <= i < |b.deposits| && CompletionKey(b.deposits[i].id) == j.key;
        assert CompletionKey(after[i].id) == j.key;
      } else {
        assert CompletionKey(after[k].id) == j.key;
      }
    }
  }

  lemma SettleKeepsBank(b: Bank, k: nat, newId: string, now: int)
    requires BankInv(b) && k < |b.deposits| && b.deposits[k].status.Pending?
    ensures BankInv(Settle(b, k, newId, now).0)
  {
    var d := b.deposits[k];
    var w := FindWallet(b.wallets, d.walletId);
    if WalletProblem(d, w).None? && PostedOf(b.t, CompletionPost(b.t.accounts, d, w.value), newId).Journaled? {
      JournaledKeepsBank(b, k, newId, now);
    } else if Settle(b, k, newId, now).0 != b {
      var failed := Settle(b, k, newId, now).0.deposits[k];
      assert DepositInPlace(b.t, b.wallets, d);
      ReplaceKeepsBank(b, k, failed);
    }
  }

  lemma JournaledKeepsBank(b: Bank, k: nat, newId: string, now: int)
    requires BankInv(b) && k < |b.deposits| && b.deposits[k].status.Pending? && b.deposits[k].walletId in b.wallets
    requires var d := b.deposits[k];
      PostedOf(b.t, CompletionPost(b.t.accounts, d, b.wallets[d.walletId]), newId).Journaled?
    ensures var d := b.deposits[k];
      var c := CompletionPost(b.t.accounts, d, b.wallets[d.walletId]);
      && PostedOf(b.t, c, newId) == Journaled(newId)
      && BankInv(Bank(TablesAfterPost(b.t, c, newId), b.wallets, b.deposits[k := MarkCompleted(d, newId, now)]))
  {
    var d := b.deposits[k];
    assert DepositInPlace(b.t, b.wallets, d);
    CompletionIsWritten(b.t, d, b.wallets[d.walletId], newId);
    CompletedKeepsBank(b, k, CompletionPost(b.t.accounts, d, b.wallets[d.walletId]).value, newId, now);
  }

  lemma CreateKeepsBank(b: Bank, n: NormalizedDeposit, newId: string, paymentReference: string)
    requires BankInv(b) && n.amount > 0 && IsCurrency(n.currency)
    ensures BankInv(Create(b, n, newId, paymentReference).0)
  {
    if Create(b, n, newId, paymentReference).0 != b { InsertKeepsBank(b, NewDeposit(n, newId, paymentReference)); }
  }

  lemma InsertKeepsBank(b: Bank, d: Deposit)
    requires BankInv(b) && d.status.Pending? && d.journalId.None? && d.amount > 0 && IsCurrency(d.currency)
    requires IndexBy(b.deposits, IdOf, d.id) == IndexBy(b.deposits, KeyOf, d.key) == |b.deposits|
    ensures BankInv(b.(deposits := b.deposits + [d]))
  {
    var after := b.deposits + [d];
    if FindKey(b.t.journals, CompletionKey(d.id)).Some? { KeyIsOwned(b, d.id); }
    forall j | j in b.t.journals && IsCompletionKey(j.key)
      ensures exists i :: 0 <= i < |after| && CompletionKey(after[i].id) == j.key
    {
      var i :| 0 <= i < |b.deposits| && CompletionKey(b.deposits[i].id) == j.key;
      assert CompletionKey(after[i].id) == j.key;
    }
  }

  lemma KeyIsOwned(b: Bank, id: string)
    requires BankInv(b) && FindKey(b.t.journals, CompletionKey(id)).Some?
    ensures exists i :: 0 <= i < |b.deposits| && b.deposits[i].id == id
  {
    var j := FindKey(b.t.journals, CompletionKey(id)).value;
    CompletionKeyFacts(id);
    var i :| 0 <= i < |b.deposits| && CompletionKey(b.deposits[i].id) == j.key;
    CompletionKeyInjective(b.deposits[i].id, id);
  }

  lemma CommitKeepsBank(b: Bank, step: Step)
    requires BankInv(b) && (step.PostStep? ==> !IsCompletionKey(Trim(step.command.key)))
    ensures BankInv(Commit(b, step))
  {
    match step
    case AccountStep(account, newId) => AccountStepKeepsBank(b, account, newId);
    case WalletStep(opening) => WalletKeepsBank(b, opening);
    case StatusStep(walletId, status) => StatusKeepsBank(b, walletId, status);
    case PostStep(command, newId) =>
      if Normalize(command).Success? {
        NormalizedIsWellPosed(command);
        NormalizedFacts(command);
        PostKeepsBank(b, Normalize(command).value, newId);
      }
    case CreateStep(request, newId, paymentReference) =>
      if NormalizeCreate(request).Success? {
        CreatedFacts(request);
        CreateKeepsBank(b, NormalizeCreate(request).value, newId, paymentReference);
      }
    case CompleteStep(id, newId, now) =>
      var guard := Guard(b, id, Completed);
      if guard.Success? { SettleKeepsBank(b, guard.value, newId, now); }
    case FailStep(id, reason) => FailKeepsBank(b, id, reason);
    case CancelStep(id, reason) => CancelKeepsBank(b, id, reason);
  }

  lemma AccountStepKeepsBank(b: Bank, account: AccountCommand, newId: string)
    requires BankInv(b)
    ensures BankInv(b.(t := CreateEffect(b.t, account, newId)))
  {
    var r := CreateOutcome(b.t, account, newId);
    if r.Success? { AccountKeepsBank(b, r.value); }
  }

  lemma StatusKeepsBank(b: Bank, walletId: string, status: WalletStatus)
    requires BankInv(b)
    ensures BankInv(SetStatus(b, walletId, status))
  {
    if walletId in b.wallets {
      assert WalletInPlace(b.t, walletId, b.wallets[walletId]);
      WalletsKeepBank(b, b.wallets[walletId := b.wallets[walletId].(status := status)]);
    }
  }

  lemma FailKeepsBank(b: Bank, id: string, reason: Option<string>)
    requires BankInv(b)
    ensures BankInv(Fail(b, id, reason).0)
  {
    var guard := Guard(b, id, Failed);
    if guard.Success? {
      assert DepositInPlace(b.t, b.wallets, b.deposits[guard.value]);
      ReplaceKeepsBank(b, guard.value, MarkFailed(b.deposits[guard.value], RequestedFailure(reason)));
    }
  }

  lemma CancelKeepsBank(b: Bank, id: string, reason: Option<string>)
    requires BankInv(b)
    ensures BankInv(Cancel(b, id, reason).0)
  {
    var guard := Guard(b, id, Cancelled);
    if guard.Success? {
      assert DepositInPlace(b.t, b.wallets, b.deposits[guard.value]);
      ReplaceKeepsBank(b, guard.value, MarkCancelled(b.deposits[guard.value], reason));
    }
  }

  lemma {:induction false} RunKeepsBank(b: Bank, steps: seq<Step>)
    requires BankInv(b) && Honest(steps)
    ensures BankInv(RunFrom(b, steps))
  {
    if steps != [] {
      var front, last := steps[..|steps| - 1], steps[|steps| - 1];
      assert forall s | s in front :: s in steps;
      assert last in steps;
      RunKeepsBank(b, front);
      CommitKeepsBank(RunFrom(b, front), last);
    }
  }
}
