/** What follows for deposits over every run: completion, closed states, failure, conservation, idempotency. */
module DepositConservation {
  import opened Prelude
  import opened JsText
  import opened Order
  import opened Json
  import opened CanonicalForm
  import opened Money
  import opened LedgerTables
  import opened LedgerCommands
  import opened LedgerPosting
  import opened LedgerInvariant
  import opened LedgerIdentity
  import opened Fingerprint
  import opened Deposit
  import opened DepositInvariant

  function Run(steps: seq<Step>): Bank {
    RunFrom(NO_BANK, steps)
  }

  lemma RunIsSound(steps: seq<Step>)
    requires Honest(steps)
    ensures BankInv(Run(steps))
  {
    RunKeepsBank(NO_BANK, steps);
  }

  /**
   In every reachable state: a deposit is completed exactly when the journal with its completion key exists, it then
   names that journal, and every journal with a completion key belongs to a completed deposit.
   */
  lemma CompletedExactlyWhenPosted(steps: seq<Step>, d: Deposit)
    requires Honest(steps) && d in Run(steps).deposits
    ensures var journal := FindKey(Run(steps).t.journals, CompletionKey(d.id));
      && (d.status.Completed? <==> journal.Some?)
      && d.journalId == (if journal.Some? then Some(journal.value.id) else None)
    ensures forall j | j in Run(steps).t.journals && IsCompletionKey(j.key) ::
      exists e :: e in Run(steps).deposits && CompletionKey(e.id) == j.key && e.status.Completed?
  {
    var b := Run(steps);
    RunIsSound(steps);
    assert DepositInPlace(b.t, b.wallets, d);
    forall j | j in b.t.journals && IsCompletionKey(j.key)
      ensures exists e :: e in b.deposits && CompletionKey(e.id) == j.key && e.status.Completed?
    {
      var i :| 0 <= i < |b.deposits| && CompletionKey(b.deposits[i].id) == j.key;
      assert DepositInPlace(b.t, b.wallets, b.deposits[i]);
    }
  }

  // ------------------------------------------------------------------------------------------------ closed states

  lemma StepKeepsClosed(b: Bank, step: Step, k: nat)
    requires k < |b.deposits| && !b.deposits[k].status.Pending?
    ensures k < |Commit(b, step).deposits| && Commit(b, step).deposits[k] == b.deposits[k]
  {
    match step
    case CompleteStep(id, newId, now) =>
      if Guard(b, id, Completed).Success? { SettleTouchesOne(b, Guard(b, id, Completed).value, newId, now, k); }
    case FailStep(_, _) =>
    case CancelStep(_, _) =>
    case CreateStep(_, _, _) =>
    case _ =>
  }

  lemma SettleTouchesOne(b: Bank, k: nat, newId: string, now: int, i: nat)
    requires k < |b.deposits| && i < |b.deposits| && i != k
    ensures var after := Settle(b, k, newId, now).0.deposits; |after| == |b.deposits| && after[i] == b.deposits[i]
  {
  }

  /** A completed, failed or cancelled deposit never changes again, in any field. */
  lemma {:induction false} ClosedStaysClosed(b: Bank, steps: seq<Step>, k: nat)
    requires k < |b.deposits| && !b.deposits[k].status.Pending?
    ensures k < |RunFrom(b, steps).deposits| && RunFrom(b, steps).deposits[k] == b.deposits[k]
  {
    if steps != [] {
      ClosedStaysClosed(b, steps[..|steps| - 1], k);
      StepKeepsClosed(RunFrom(b, steps[..|steps| - 1]), steps[|steps| - 1], k);
    }
  }

  // -------------------------------------------------------------------------------------------- failure atomicity

  /**
   Completing a pending deposit either writes its one journal and completes it, or leaves the ledger as it was: a
   caught rejection has written nothing before the deposit is saved as failed, and an error changes nothing at all.
   */
  lemma FailureIsAtomic(b: Bank, id: string, newId: string, now: int)
    requires BankInv(b) && Guard(b, id, Completed).Success?
    ensures var k, after := Guard(b, id, Completed).value, Complete(b, id, newId, now).0;
      && k < |after.deposits| == |b.deposits|
      && (after.deposits[k].status.Completed? ==>
            && |after.t.journals| == |b.t.journals| + 1 && |after.t.lines| == |b.t.lines| + 2
            && after.deposits[k].journalId == Some(newId))
      && (!after.deposits[k].status.Completed? ==> after.t == b.t)
      && (Complete(b, id, newId, now).1.Id? <==> !after.deposits[k].status.Pending?)
  {
    var k := Guard(b, id, Completed).value;
    var d := b.deposits[k];
    var w := FindWallet(b.wallets, d.walletId);
    assert DepositInPlace(b.t, b.wallets, d);
    if WalletProblem(d, w).None? && PostedOf(b.t, CompletionPost(b.t.accounts, d, w.value), newId).Journaled? {
      CompletionIsWritten(b.t, d, w.value, newId);
    }
  }

  // ------------------------------------------------------------------------------------------------- conservation

  /** Amounts of the completed deposits into one wallet. */
  function CompletedInto(deposits: seq<Deposit>, walletId: string): int {
    if deposits == [] then 0
    else
      var d := deposits[|deposits| - 1];
      CompletedInto(deposits[..|deposits| - 1], walletId)
      + (if d.status.Completed? && d.walletId == walletId then d.amount else 0)
  }

  /** Amounts of the completed deposits in one currency. */
  function CompletedIn(deposits: seq<Deposit>, currency: string): int {
    if deposits == [] then 0
    else
      var d := deposits[|deposits| - 1];
      CompletedIn(deposits[..|deposits| - 1], currency)
      + (if d.status.Completed? && d.currency == currency then d.amount else 0)
  }

  /** What the journals with one of these keys do to an account. */
  function KeyedEffect(t: Tables, journals: seq<Journal>, keys: set<string>, account: Account): int {
    if journals == [] then 0
    else
      (if journals[0].key in keys then JournalEffect(t, journals[0].id, account) else 0)
      + KeyedEffect(t, journals[1..], keys, account)
  }

  /** What the completion journals do to an account. */
  function DepositEffect(t: Tables, journals: seq<Journal>, account: Account): int {
    if journals == [] then 0
    else
      (if IsCompletionKey(journals[0].key) then JournalEffect(t, journals[0].id, account) else 0)
      + DepositEffect(t, journals[1..], account)
  }

  /** What all other journals do to it. */
  function OtherEffect(t: Tables, journals: seq<Journal>, account: Account): int {
    if journals == [] then 0
    else
      (if IsCompletionKey(journals[0].key) then 0 else JournalEffect(t, journals[0].id, account))
      + OtherEffect(t, journals[1..], account)
  }

  lemma {:induction false} EffectsSplit(t: Tables, journals: seq<Journal>, account: Account)
    ensures EffectSum(t, journals, account) == DepositEffect(t, journals, account) + OtherEffect(t, journals, account)
  {
    if journals != [] { EffectsSplit(t, journals[1..], account); }
  }

  function EffectOfKey(t: Tables, journals: seq<Journal>, key: string, account: Account): int {
    var j := FindKey(journals, key);
    if j.Some? then JournalEffect(t, j.value.id, account) else 0
  }

  lemma {:induction false} OneMoreKey(t: Tables, journals: seq<Journal>, keys: set<string>, key: string, account: Account)
    requires DistinctJournals(journals) && key !in keys
    ensures KeyedEffect(t, journals, keys + {key}, account) ==
      KeyedEffect(t, journals, keys, account) + EffectOfKey(t, journals, key, account)
  {
    if journals != [] {
      OneMoreKey(t, journals[1..], keys, key, account);
      if journals[0].key == key {
        assert forall i | 0 <= i < |journals[1..]| :: journals[1..][i] == journals[i + 1];
        assert FindKey(journals[1..], key).None?;
      }
    }
  }

  lemma {:induction false} NoKeys(t: Tables, journals: seq<Journal>, account: Account)
    ensures KeyedEffect(t, journals, {}, account) == 0
  {
    if journals != [] { NoKeys(t, journals[1..], account); }
  }

  function CompletionKeys(deposits: seq<Deposit>): set<string> {
    set i | 0 <= i < |deposits| && deposits[i].status.Completed? :: CompletionKey(deposits[i].id)
  }

  /** The completion journals' effects, deposit by deposit. */
  function EffectByDeposit(t: Tables, deposits: seq<Deposit>, account: Account): int {
    if deposits == [] then 0
    else
      var d := deposits[|deposits| - 1];
      EffectByDeposit(t, deposits[..|deposits| - 1], account)
      + (if d.status.Completed? then EffectOfKey(t, t.journals, CompletionKey(d.id), account) else 0)
  }

  lemma LastKeyIsNew(deposits: seq<Deposit>)
    requires deposits != [] && DistinctDeposits(deposits)
    ensures var front, d := deposits[..|deposits| - 1], deposits[|deposits| - 1];
      && CompletionKey(d.id) !in CompletionKeys(front)
      && CompletionKeys(deposits) == CompletionKeys(front) + (if d.status.Completed? then {CompletionKey(d.id)} else {})
  {
    var front, d := deposits[..|deposits| - 1], deposits[|deposits| - 1];
    forall i | 0 <= i < |front| ensures CompletionKey(front[i].id) != CompletionKey(d.id) {
      assert deposits[i].id != d.id;
      if CompletionKey(front[i].id) == CompletionKey(d.id) { CompletionKeyInjective(front[i].id, d.id); }
    }
    forall key ensures key in CompletionKeys(deposits) <==>
        key in CompletionKeys(front) + (if d.status.Completed? then {CompletionKey(d.id)} else {})
    {
      if key in CompletionKeys(front) {
        var i :| 0 <= i < |front| && front[i].status.Completed? && CompletionKey(front[i].id) == key;
        assert deposits[i] == front[i];
      }
      if key in CompletionKeys(deposits) {
        var i :| 0 <= i < |deposits| && deposits[i].status.Completed? && CompletionKey(deposits[i].id) == key;
        assert i < |front| ==> front[i] == deposits[i];
      }
    }
  }

  /** Exchange of the sum over journals with the sum over deposits. */
  lemma {:induction false} JournalsToDeposits(t: Tables, deposits: seq<Deposit>, account: Account)
    requires DistinctJournals(t.journals) && DistinctDeposits(deposits)
    ensures KeyedEffect(t, t.journals, CompletionKeys(deposits), account) == EffectByDeposit(t, deposits, account)
  {
    if deposits == [] {
      assert CompletionKeys(deposits) == {};
      NoKeys(t, t.journals, account);
    } else {
      var front, d := deposits[..|deposits| - 1], deposits[|deposits| - 1];
      JournalsToDeposits(t, front, account);
      LastKeyIsNew(deposits);
      if d.status.Completed? {
        OneMoreKey(t, t.journals, CompletionKeys(front), CompletionKey(d.id), account);
      } else {
        assert CompletionKeys(deposits) == CompletionKeys(front);
      }
    }
  }

  lemma {:induction false} DepositEffectIsKeyed(t: Tables, journals: seq<Journal>, keys: set<string>, account: Account)
    requires forall j | j in journals :: j.key in keys <==> IsCompletionKey(j.key)
    ensures DepositEffect(t, journals, account) == KeyedEffect(t, journals, keys, account)
  {
    if journals != [] {
      assert journals[0] in journals && forall j | j in journals[1..] :: j in journals;
      DepositEffectIsKeyed(t, journals[1..], keys, account);
    }
  }

  lemma CompletionKeysAreOwned(b: Bank)
    requires BankInv(b)
    ensures forall j | j in b.t.journals :: j.key in CompletionKeys(b.deposits) <==> IsCompletionKey(j.key)
  {
    forall j | j in b.t.journals ensures j.key in CompletionKeys(b.deposits) <==> IsCompletionKey(j.key) {
      if IsCompletionKey(j.key) {
        var i :| 0 <= i < |b.deposits| && CompletionKey(b.deposits[i].id) == j.key;
        assert DepositInPlace(b.t, b.wallets, b.deposits[i]);
        assert FindKey(b.t.journals, j.key).Some?;
      } else if j.key in CompletionKeys(b.deposits) {
        var i :| 0 <= i < |b.deposits| && b.deposits[i].status.Completed? && CompletionKey(b.deposits[i].id) == j.key;
        CompletionKeyFacts(b.deposits[i].id);
        assert false;
      }
    }
  }

  /** A balance is what completed deposits did, deposit by deposit, and what all other journals did. */
  lemma BalanceByDeposit(b: Bank, account: Account)
    requires BankInv(b)
    ensures DepositEffect(b.t, b.t.journals, account) == EffectByDeposit(b.t, b.deposits, account)
    ensures Balance(b.t.lines, account) ==
      EffectByDeposit(b.t, b.deposits, account) + OtherEffect(b.t, b.t.journals, account)
  {
    BalanceByJournal(b.t, account);
    EffectsSplit(b.t, b.t.journals, account);
    CompletionKeysAreOwned(b);
    DepositEffectIsKeyed(b.t, b.t.journals, CompletionKeys(b.deposits), account);
    JournalsToDeposits(b.t, b.deposits, account);
  }

  /** The effect of the two entries of a completion. */
  lemma CompletionEffect(d: Deposit, settlement: string, walletAccount: string, id: string, normal: Direction)
    ensures EntryEffect(CompletionEntries(d, settlement, walletAccount), id, normal) ==
      (if settlement == id then SignedAmount(Debit, normal, d.amount) else 0)
      + (if walletAccount == id then SignedAmount(Credit, normal, d.amount) else 0)
  {
    var first, second := Entry(settlement, Debit, d.amount), Entry(walletAccount, Credit, d.amount);
    assert CompletionEntries(d, settlement, walletAccount) == [first] + [second];
    EffectAppend([first], [second], id, normal);
    assert [first][..0] == [] && [second][..0] == [];
    assert EntryEffect([], id, normal) == 0;
  }

  ghost predicate IsWalletAccount(b: Bank, walletId: string, a: Account) {
    walletId in b.wallets && FindAccount(b.t.accounts, b.wallets[walletId].ledgerAccountId) == Some(a)
  }

  lemma DepositOnWallet(b: Bank, d: Deposit, walletId: string, a: Account)
    requires BankInv(b) && d in b.deposits && d.status.Completed? && IsWalletAccount(b, walletId, a)
    ensures EffectOfKey(b.t, b.t.journals, CompletionKey(d.id), a) == if d.walletId == walletId then d.amount else 0
  {
    assert DepositInPlace(b.t, b.wallets, d);
    var s := FindSettlement(b.t.accounts, d.currency).value;
    assert WalletInPlace(b.t, walletId, b.wallets[walletId]);
    assert WalletInPlace(b.t, d.walletId, b.wallets[d.walletId]);
    assert s.code[0] == 'P' && a.code[0] == 'W';
    AccountIsFound(b.t.accounts, s);
    CodeNamesWallet(d.walletId, walletId);
    CompletionEffect(d, s.id, b.wallets[d.walletId].ledgerAccountId, a.id, a.normalBalance);
  }

  lemma CodeNamesWallet(v: string, w: string)
    ensures "WALLET-" + v == "WALLET-" + w ==> v == w
  {
    assert ("WALLET-" + v)[7..] == v && ("WALLET-" + w)[7..] == w;
  }

  lemma DepositOnSettlement(b: Bank, d: Deposit, currency: string, s: Account)
    requires BankInv(b) && d in b.deposits && d.status.Completed? && FindSettlement(b.t.accounts, currency) == Some(s)
    ensures EffectOfKey(b.t, b.t.journals, CompletionKey(d.id), s) ==
      if d.currency == currency then SignedAmount(Debit, s.normalBalance, d.amount) else 0
  {
    assert DepositInPlace(b.t, b.wallets, d);
    var own := FindSettlement(b.t.accounts, d.currency).value;
    assert WalletInPlace(b.t, d.walletId, b.wallets[d.walletId]);
    var a := FindAccount(b.t.accounts, b.wallets[d.walletId].ledgerAccountId).value;
    assert s.code[0] == 'P' && a.code[0] == 'W';
    AccountIsFound(b.t.accounts, s);
    AccountIsFound(b.t.accounts, own);
    CompletionEffect(d, own.id, a.id, s.id, s.normalBalance);
  }

  /** What one deposit contributes to an account: this amount when it is completed. */
  ghost predicate Contributes(t: Tables, d: Deposit, a: Account, amount: int) {
    d.status.Completed? ==> EffectOfKey(t, t.journals, CompletionKey(d.id), a) == amount
  }

  lemma {:induction false} IntoWallet(t: Tables, deposits: seq<Deposit>, walletId: string, a: Account)
    requires forall i | 0 <= i < |deposits| ::
      Contributes(t, deposits[i], a, if deposits[i].walletId == walletId then deposits[i].amount else 0)
    ensures EffectByDeposit(t, deposits, a) == CompletedInto(deposits, walletId)
  {
    if deposits != [] {
      var front, d := deposits[..|deposits| - 1], deposits[|deposits| - 1];
      IntoWallet(t, front, walletId, a);
      assert Contributes(t, d, a, if d.walletId == walletId then d.amount else 0);
    }
  }

  lemma {:induction false} FromSettlement(t: Tables, deposits: seq<Deposit>, currency: string, s: Account)
    requires forall i | 0 <= i < |deposits| ::
      Contributes(t, deposits[i], s,
        if deposits[i].currency == currency then SignedAmount(Debit, s.normalBalance, deposits[i].amount) else 0)
    ensures EffectByDeposit(t, deposits, s) == SignedAmount(Debit, s.normalBalance, CompletedIn(deposits, currency))
  {
    if deposits != [] {
      var front, d := deposits[..|deposits| - 1], deposits[|deposits| - 1];
      FromSettlement(t, front, currency, s);
      assert Contributes(t, d, s, if d.currency == currency then SignedAmount(Debit, s.normalBalance, d.amount) else 0);
    }
  }

  /**
   However creations, completions, failures, cancellations and other posts interleave: the completion journals add to
   a wallet exactly the sum of its completed deposits, and the rest of its balance comes from other journals.
   */
  lemma WalletConservation(steps: seq<Step>, walletId: string, a: Account)
    requires Honest(steps) && IsWalletAccount(Run(steps), walletId, a)
    ensures var b := Run(steps);
      && DepositEffect(b.t, b.t.journals, a) == CompletedInto(b.deposits, walletId)
      && Balance(b.t.lines, a) == CompletedInto(b.deposits, walletId) + OtherEffect(b.t, b.t.journals, a)
      && Balance(b.t.lines, a) >= 0
  {
    var b := Run(steps);
    RunIsSound(steps);
    BalanceByDeposit(b, a);
    forall i | 0 <= i < |b.deposits|
      ensures Contributes(b.t, b.deposits[i], a, if b.deposits[i].walletId == walletId then b.deposits[i].amount else 0)
    {
      if b.deposits[i].status.Completed? { DepositOnWallet(b, b.deposits[i], walletId, a); }
    }
    IntoWallet(b.t, b.deposits, walletId, a);
    assert WalletInPlace(b.t, walletId, b.wallets[walletId]);
  }

  /** And they debit the settlement account of a currency by exactly the sum of the completed deposits in it. */
  lemma SettlementConservation(steps: seq<Step>, currency: string, s: Account)
    requires Honest(steps) && FindSettlement(Run(steps).t.accounts, currency) == Some(s)
    ensures var b := Run(steps);
      DepositEffect(b.t, b.t.journals, s) == SignedAmount(Debit, s.normalBalance, CompletedIn(b.deposits, currency))
  {
    var b := Run(steps);
    RunIsSound(steps);
    BalanceByDeposit(b, s);
    forall i | 0 <= i < |b.deposits|
      ensures Contributes(b.t, b.deposits[i], s,
        if b.deposits[i].currency == currency then SignedAmount(Debit, s.normalBalance, b.deposits[i].amount) else 0)
    {
      if b.deposits[i].status.Completed? { DepositOnSettlement(b, b.deposits[i], currency, s); }
    }
    FromSettlement(b.t, b.deposits, currency, s);
  }

  // ------------------------------------------------------------------------------------------------- idempotency

  /** The deposit stands for this request. */
  ghost predicate SameDeposit(d: Deposit, n: NormalizedDeposit) {
    && d.walletId == n.walletId && d.amount == n.amount && d.currency == n.currency
    && d.reference == n.reference && d.narration == n.narration
  }

  ghost predicate RowHashed(d: Deposit) {
    d.requestHash == DepositHash(d.walletId, d.amount, d.currency, d.reference, d.narration)
  }

  ghost predicate RequestHashed(n: NormalizedDeposit) {
    n.requestHash == DepositHash(n.walletId, n.amount, n.currency, n.reference, n.narration)
  }

  ghost predicate RowsHashed(b: Bank) {
    forall i | 0 <= i < |b.deposits| :: RowHashed(b.deposits[i])
  }

  ghost predicate Fields(s: seq<Keyed<Value>>, walletId: string, amount: int, currency: string,
    reference: Option<string>, narration: Option<string>)
  {
    && |s| == 5 && s[0].key == "walletId" && s[1].key == "amountMinor" && s[2].key == "currency"
    && s[3].key == "reference" && s[4].key == "narration"
    && s[0].item == Str(walletId) && s[1].item == Str(AmountText(amount)) && s[2].item == Str(currency)
    && s[3].item == OptionalValue(reference) && s[4].item == OptionalValue(narration)
  }

  lemma FieldsAreValid(s: seq<Keyed<Value>>, walletId: string, amount: int, currency: string,
    reference: Option<string>, narration: Option<string>)
    requires Fields(s, walletId, amount, currency, reference, narration)
    ensures DistinctKeys(s) && Valid(Obj(s))
  {
    assert |s[0].key| == 8 && |s[1].key| == 11 && |s[2].key| == 8 && |s[3].key| == 9 && |s[4].key| == 9;
    assert s[0].key[0] != s[2].key[0] && s[3].key[0] != s[4].key[0];
  }

  lemma EqualTexts(s: seq<Keyed<Value>>, t: seq<Keyed<Value>>, d: Deposit, n: NormalizedDeposit)
    requires Fields(s, d.walletId, d.amount, d.currency, d.reference, d.narration)
    requires Fields(t, n.walletId, n.amount, n.currency, n.reference, n.narration)
    requires Print(Ledger, Obj(s)) == Print(Ledger, Obj(t))
    ensures SameDeposit(d, n)
  {
    FieldsAreValid(s, d.walletId, d.amount, d.currency, d.reference, d.narration);
    FieldsAreValid(t, n.walletId, n.amount, n.currency, n.reference, n.narration);
    AlignedTexts(Ledger, s, t);
    TextMeaning(Ledger, d.walletId, n.walletId);
    TextMeaning(Ledger, AmountText(d.amount), AmountText(n.amount));
    TextMeaning(Ledger, d.currency, n.currency);
    OptionalMeaning(d.reference, n.reference);
    OptionalMeaning(d.narration, n.narration);
    assert MeaningOf(Ledger, s[0].item) == MeaningOf(Ledger, t[0].item);
    assert MeaningOf(Ledger, s[1].item) == MeaningOf(Ledger, t[1].item);
    assert MeaningOf(Ledger, s[2].item) == MeaningOf(Ledger, t[2].item);
    assert MeaningOf(Ledger, s[3].item) == MeaningOf(Ledger, t[3].item);
    assert MeaningOf(Ledger, s[4].item) == MeaningOf(Ledger, t[4].item);
    SignedDecimalInjective(d.amount, n.amount);
  }

  /** Equal fingerprints mean the same wallet, amount, currency and texts. */
  lemma DepositHashIdentifiesRequest(d: Deposit, n: NormalizedDeposit)
    requires RowHashed(d) && RequestHashed(n)
    ensures d.requestHash == n.requestHash <==> SameDeposit(d, n)
  {
    if d.requestHash == n.requestHash {
      EqualTexts(DepositValue(d.walletId, d.amount, d.currency, d.reference, d.narration).members,
        DepositValue(n.walletId, n.amount, n.currency, n.reference, n.narration).members, d, n);
    }
  }

  lemma CreatedHash(request: Request)
    requires NormalizeCreate(request).Success?
    ensures RequestHashed(NormalizeCreate(request).value)
  {
  }

  lemma CommitKeepsHashes(b: Bank, step: Step)
    requires RowsHashed(b)
    ensures RowsHashed(Commit(b, step))
  {
    var after := Commit(b, step);
    forall i | 0 <= i < |after.deposits| ensures RowHashed(after.deposits[i]) {
      if i < |b.deposits| { RowKeepsRequest(b, step, i); } else { NewRowIsHashed(b, step, i); }
    }
  }

  lemma NewRowIsHashed(b: Bank, step: Step, i: nat)
    requires |b.deposits| <= i < |Commit(b, step).deposits|
    ensures RowHashed(Commit(b, step).deposits[i])
  {
    CreatedHash(step.request);
  }

  /** Only the outcome of a deposit ever changes, never what was asked for. */
  lemma RowKeepsRequest(b: Bank, step: Step, i: nat)
    requires i < |b.deposits|
    ensures i < |Commit(b, step).deposits| && AsksSame(b.deposits[i], Commit(b, step).deposits[i])
  {
    match step
    case CompleteStep(id, newId, now) => CompleteKeepsRequest(b, id, newId, now, i);
    case CreateStep(request, newId, reference) => CreateKeepsRequest(b, request, newId, reference, i);
    case FailStep(id, reason) => FailKeepsRequest(b, id, reason, i);
    case CancelStep(id, reason) => CancelKeepsRequest(b, id, reason, i);
    case _ =>
  }

  lemma FailKeepsRequest(b: Bank, id: string, reason: Option<string>, i: nat)
    requires i < |b.deposits|
    ensures var after := Fail(b, id, reason).0.deposits; i < |after| && AsksSame(b.deposits[i], after[i])
  {
  }

  lemma CancelKeepsRequest(b: Bank, id: string, reason: Option<string>, i: nat)
    requires i < |b.deposits|
    ensures var after := Cancel(b, id, reason).0.deposits; i < |after| && AsksSame(b.deposits[i], after[i])
  {
  }

  lemma CompleteKeepsRequest(b: Bank, id: string, newId: string, now: int, i: nat)
    requires i < |b.deposits|
    ensures var after := Complete(b, id, newId, now).0.deposits;
      i < |after| && AsksSame(b.deposits[i], after[i])
  {
    if Guard(b, id, Completed).Success? { SettleKeepsRequest(b, Guard(b, id, Completed).value, newId, now, i); }
  }

  lemma CreateKeepsRequest(b: Bank, request: Request, newId: string, reference: string, i: nat)
    requires i < |b.deposits|
    ensures var after := Commit(b, CreateStep(request, newId, reference)).deposits;
      i < |after| && after[i] == b.deposits[i]
  {
  }

  lemma SettleKeepsRequest(b: Bank, k: nat, newId: string, now: int, i: nat)
    requires k < |b.deposits| && i < |b.deposits|
    ensures var after := Settle(b, k, newId, now).0.deposits;
      |after| == |b.deposits| && AsksSame(b.deposits[i], after[i])
  {
  }

  ghost predicate AsksSame(d: Deposit, e: Deposit) {
    && d.walletId == e.walletId && d.amount == e.amount && d.currency == e.currency && d.reference == e.reference
    && d.narration == e.narration && d.requestHash == e.requestHash && d.key == e.key && d.id == e.id
    && d.paymentReference == e.paymentReference
  }

  lemma {:induction false} RunKeepsHashes(b: Bank, steps: seq<Step>)
    requires RowsHashed(b)
    ensures RowsHashed(RunFrom(b, steps))
  {
    if steps != [] {
      RunKeepsHashes(b, steps[..|steps| - 1]);
      CommitKeepsHashes(RunFrom(b, steps[..|steps| - 1]), steps[|steps| - 1]);
    }
  }

  /**
   In every reachable state a key belongs to one deposit.  Sending the key again creates nothing: it answers that
   deposit exactly when the request is the same and the caller may see the wallet.
   */
  lemma ReplayAnswersOnce(steps: seq<Step>, d: Deposit, request: Request, newId: string, paymentReference: string)
    requires Honest(steps) && d in Run(steps).deposits
    requires NormalizeCreate(request).Success? && NormalizeCreate(request).value.key == d.key
    ensures var b, n := Run(steps), NormalizeCreate(request).value;
      && (forall e | e in b.deposits && e.key == d.key :: e == d)
      && Create(b, n, newId, paymentReference).0 == b
      && (Create(b, n, newId, paymentReference).1 == Id(d.id) <==>
            SameDeposit(d, n) && Owns(n.ownership, FindWallet(b.wallets, d.walletId)))
  {
    RunIsSound(steps);
    RunKeepsHashes(NO_BANK, steps);
    CreatedHash(request);
    DepositHashIdentifiesRequest(d, NormalizeCreate(request).value);
    ReplayAnswers(Run(steps), d, NormalizeCreate(request).value, newId, paymentReference);
  }

  lemma ReplayAnswers(b: Bank, d: Deposit, n: NormalizedDeposit, newId: string, paymentReference: string)
    requires DistinctDeposits(b.deposits) && d in b.deposits && n.key == d.key
    requires d.requestHash == n.requestHash <==> SameDeposit(d, n)
    ensures forall e | e in b.deposits && e.key == d.key :: e == d
    ensures Create(b, n, newId, paymentReference).0 == b
    ensures Create(b, n, newId, paymentReference).1 == Id(d.id) <==>
      SameDeposit(d, n) && Owns(n.ownership, FindWallet(b.wallets, d.walletId))
  {
    var k := IndexBy(b.deposits, KeyOf, n.key);
    var i :| 0 <= i < |b.deposits| && b.deposits[i] == d;
    assert k == i;
  }

  ghost predicate CustomersKept(v: map<string, Wallet>, w: map<string, Wallet>) {
    forall id | id in v :: id in w && w[id].customerId == v[id].customerId
  }

  lemma CommitKeepsCustomers(b: Bank, step: Step)
    ensures CustomersKept(b.wallets, Commit(b, step).wallets)
  {
    match step
    case CompleteStep(id, newId, now) =>
      if Guard(b, id, Completed).Success? { SettleKeepsWallets(b, Guard(b, id, Completed).value, newId, now); }
    case WalletStep(_) =>
    case StatusStep(_, _) =>
    case _ =>
  }

  lemma SettleKeepsWallets(b: Bank, k: nat, newId: string, now: int)
    requires k < |b.deposits|
    ensures Settle(b, k, newId, now).0.wallets == b.wallets
  {
  }

  /** A wallet never changes hands. */
  lemma {:induction false} RunKeepsCustomers(b: Bank, steps: seq<Step>, n: nat)
    requires n <= |steps|
    ensures CustomersKept(RunFrom(b, steps[..n]).wallets, RunFrom(b, steps).wallets)
  {
    if n < |steps| {
      var front := steps[..|steps| - 1];
      assert front[..n] == steps[..n];
      RunKeepsCustomers(b, front, n);
      CommitKeepsCustomers(RunFrom(b, front), steps[|steps| - 1]);
    } else {
      assert steps[..n] == steps;
    }
  }

  lemma LostKeyIsSameDeposit(steps: seq<Step>, request: Request)
    requires NormalizeCreate(request).Success? && LostKey(Run(steps), NormalizeCreate(request).value).Id?
    ensures var b, n := Run(steps), NormalizeCreate(request).value;
      exists d :: d in b.deposits && d.id == LostKey(b, n).id && d.key == n.key && SameDeposit(d, n)
  {
    var b, n := Run(steps), NormalizeCreate(request).value;
    RunKeepsHashes(NO_BANK, steps);
    CreatedHash(request);
    var k := IndexBy(b.deposits, KeyOf, n.key);
    DepositHashIdentifiesRequest(b.deposits[k], n);
    assert b.deposits[k] in b.deposits;
  }

  /**
   A caller that lost the race for its key is answered without a second look at the wallet's owner.  None is needed:
   its own attempt, at an earlier point of the run, found the wallet to be its to use; the fingerprint carries the
   wallet, and a wallet never changes hands.
   */
  lemma LostKeyIsOwned(steps: seq<Step>, n: nat, request: Request)
    requires n <= |steps| && NormalizeCreate(request).Success?
    requires var d := NormalizeCreate(request).value;
      CreateProblem(d, FindWallet(Run(steps[..n]).wallets, d.walletId)).None? && LostKey(Run(steps), d).Id?
    ensures var b, asked := Run(steps), NormalizeCreate(request).value;
      exists d :: d in b.deposits && d.id == LostKey(b, asked).id && d.key == asked.key && SameDeposit(d, asked)
        && Owns(asked.ownership, FindWallet(b.wallets, d.walletId))
  {
    var b, asked := Run(steps), NormalizeCreate(request).value;
    LostKeyIsSameDeposit(steps, request);
    RunKeepsCustomers(NO_BANK, steps, n);
    var d :| d in b.deposits && d.id == LostKey(b, asked).id && d.key == asked.key && SameDeposit(d, asked);
    assert Owns(asked.ownership, FindWallet(b.wallets, d.walletId));
  }
}
