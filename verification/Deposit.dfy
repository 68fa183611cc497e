/** `DepositService` on top of the ledger: one journal per completed deposit, posted in the deposit's transaction. */
module Deposit {
  import opened Prelude
  import opened JsText
  import opened Order
  import opened Json
  import opened Money
  import opened LedgerTables
  import opened LedgerCommands
  import opened LedgerPosting
  import opened LedgerService

  datatype Status = Pending | Completed | Failed | Cancelled

  datatype FailureCode = WalletNotFound | WalletNotActive | CurrencyMismatch | SettlementRejected

  datatype FailureDetails = FailureDetails(code: FailureCode, status: int, note: Note)

  datatype WalletStatus = Active | Suspended | Closed

  datatype Wallet = Wallet(id: string, customerId: string, currency: string, status: WalletStatus,
    ledgerAccountId: string, creationKey: string)

  /** A failure message: a text of its own, or that of the exception that was caught. */
  datatype Note = Said(text: string) | OfError(error: Error)

  datatype Deposit = Deposit(id: string, walletId: string, journalId: Option<string>, paymentReference: string,
    amount: int, currency: string, status: Status, key: string, requestHash: string, reference: Option<string>,
    narration: Option<string>, failureCode: Option<FailureCode>, failureStatus: Option<int>,
    note: Option<Note>,
    completedAt: Option<int>)

  /** The committed tables; deposits in the order of their creation. */
  datatype Bank = Bank(t: Tables, wallets: map<string, Wallet>, deposits: seq<Deposit>)

  /** The id the transaction returns, a business exception, or an error of the database; the last two roll back. */
  datatype Answer = Id(id: string) | Thrown(error: Error) | Broken(constraint: Constraint)

  /** How the caught post inside a completion ends. */
  datatype Posted = Journaled(id: string) | Caught(error: Error) | Raised(constraint: Constraint)

  function StatusCode(error: Error): int {
    match error
    case BadRequest => 400
    case NotFound => 404
    case Conflict => 409
    case Unprocessable => 422
  }

  function IdOf(d: Deposit): string {
    d.id
  }

  function KeyOf(d: Deposit): string {
    d.key
  }

  /** The first deposit with the given id or key; the length when there is none. */
  function IndexBy(deposits: seq<Deposit>, name: Deposit -> string, value: string): (k: nat)
    ensures k <= |deposits|
    ensures k < |deposits| ==> name(deposits[k]) == value
    ensures forall i | 0 <= i < k :: name(deposits[i]) != value
  {
    if deposits == [] || name(deposits[0]) == value then 0 else 1 + IndexBy(deposits[1..], name, value)
  }

  function FindWallet(wallets: map<string, Wallet>, id: string): Option<Wallet> {
    if id in wallets then Some(wallets[id]) else None
  }

  // ----------------------------------------------------------------------------------------- settlement accounts

  function SettlementCode(currency: string): string {
    "PAYMENT-SETTLEMENT_ASSET-" + currency
  }

  predicate Settles(a: Account, currency: string) {
    a.code == SettlementCode(currency) && a.currency == currency && a.unit == DEFAULT_UNIT && a.isActive
  }

  function FindSettlement(accounts: seq<Account>, currency: string): (r: Option<Account>)
    ensures r.Some? <==> exists i :: 0 <= i < |accounts| && Settles(accounts[i], currency)
    ensures r.Some? ==> r.value in accounts && Settles(r.value, currency)
  {
    if accounts == [] then None
    else if Settles(accounts[0], currency) then Some(accounts[0])
    else
      var r := FindSettlement(accounts[1..], currency);
      assert forall i | 1 <= i < |accounts| :: accounts[i] == accounts[1..][i - 1];
      assert r.Some? ==> exists i :: 0 <= i < |accounts[1..]| && Settles(accounts[1..][i], currency);
      r
  }

  function SettlementAccount(accounts: seq<Account>, currency: string): Result<string, Error> {
    var normalized :- NormalizeCurrency(currency);
    var found := FindSettlement(accounts, normalized);
    if found.Some? then Success(found.value.id) else Failure(Conflict)
  }

  // -------------------------------------------------------------------------------------------------- completion

  function CompletionKey(id: string): string {
    "deposit:" + id + ":completion"
  }

  function CompletionCommand(d: Deposit, w: Wallet, settlement: string): Command {
    Command(CompletionKey(d.id), d.currency, Some(DEFAULT_UNIT), Some(d.paymentReference),
      Some(if d.narration.Some? then d.narration.value else "Deposit " + d.paymentReference),
      Some("deposit:" + d.id),
      Obj([Keyed("depositId", Str(d.id)), Keyed("paymentReference", Str(d.paymentReference)),
           Keyed("walletId", Str(d.walletId))]),
      None,
      [CommandLine(settlement, Some(Debit), Decimal(AmountText(d.amount))),
       CommandLine(w.ledgerAccountId, Some(Credit), Decimal(AmountText(d.amount)))])
  }

  /** The command as the ledger sees it, when the settlement account is configured and the command is accepted. */
  function CompletionPost(accounts: seq<Account>, d: Deposit, w: Wallet): Result<Normalized, Error> {
    var settlement :- SettlementAccount(accounts, d.currency);
    Normalize(CompletionCommand(d, w, settlement))
  }

  /** The wallet's problems, in the order in which they are looked for. */
  function WalletProblem(d: Deposit, w: Option<Wallet>): Option<FailureDetails> {
    if w.None? then Some(FailureDetails(WalletNotFound, 404, Said("Wallet " + d.walletId + " was not found")))
    else if w.value.status != Active then
      Some(FailureDetails(WalletNotActive, 409, Said("The wallet must be active to complete a deposit")))
    else if w.value.currency != d.currency then
      Some(FailureDetails(CurrencyMismatch, 409, Said("The wallet and deposit currencies must match")))
    else None
  }

  /** The details of a caught business exception. */
  function FailureOf(error: Error): FailureDetails {
    FailureDetails(SettlementRejected, StatusCode(error), OfError(error))
  }

  function MarkFailed(d: Deposit, failure: FailureDetails): Deposit {
    d.(status := Failed, failureCode := Some(failure.code), failureStatus := Some(failure.status),
       note := Some(failure.note), journalId := None,
       completedAt := None)
  }

  function MarkCompleted(d: Deposit, journalId: string, now: int): Deposit {
    d.(status := Completed, journalId := Some(journalId), completedAt := Some(now))
  }

  function PostedOf(t: Tables, c: Result<Normalized, Error>, newId: string): Posted {
    if c.Failure? then Caught(c.error)
    else
      match PostOutcome(t, c.value, newId)
      case Existing(id) => Journaled(id)
      case Written(id) => Journaled(id)
      case Rejected(error) => Caught(error)
      case Violation(broken) => Raised(broken)
  }

  function TablesAfterPost(t: Tables, c: Result<Normalized, Error>, newId: string): Tables {
    if c.Failure? then t else PostEffect(t, c.value, newId)
  }

  function Settle(b: Bank, k: nat, newId: string, now: int): (Bank, Answer)
    requires k < |b.deposits|
  {
    var d := b.deposits[k];
    var w := FindWallet(b.wallets, d.walletId);
    var problem := WalletProblem(d, w);
    if problem.Some? then (b.(deposits := b.deposits[k := MarkFailed(d, problem.value)]), Id(d.id))
    else
      var c := CompletionPost(b.t.accounts, d, w.value);
      match PostedOf(b.t, c, newId)
      case Raised(constraint) => (b, Broken(constraint))
      case Caught(error) =>
        (b.(deposits := b.deposits[k := MarkFailed(d, FailureOf(error))]), Id(d.id))
      case Journaled(id) =>
        (Bank(TablesAfterPost(b.t, c, newId), b.wallets, b.deposits[k := MarkCompleted(d, id, now)]), Id(d.id))
  }

  /** The guard every transition begins with: a row in the target status answers, any other closed row conflicts. */
  function Guard(b: Bank, id: string, target: Status): (r: Result<nat, Answer>)
    ensures r.Success? ==> r.value < |b.deposits| && b.deposits[r.value].status == Pending
    ensures r.Success? ==> r.value == IndexBy(b.deposits, IdOf, ToLower(id))
  {
    var k := IndexBy(b.deposits, IdOf, ToLower(id));
    if !IsUuid(id) then Failure(Thrown(BadRequest))
    else if k == |b.deposits| then Failure(Thrown(NotFound))
    else if b.deposits[k].status == target then Failure(Id(b.deposits[k].id))
    else if b.deposits[k].status != Pending then Failure(Thrown(Conflict))
    else Success(k)
  }

  function Complete(b: Bank, id: string, newId: string, now: int): (Bank, Answer) {
    match Guard(b, id, Completed)
    case Failure(answer) => (b, answer)
    case Success(k) => Settle(b, k, newId, now)
  }

  function RequestedFailure(reason: Option<string>): FailureDetails {
    var text := OptionalText(reason);
    FailureDetails(SettlementRejected, 422,
      Said(if text.Success? && text.value.Some? then text.value.value else "Deposit failed"))
  }

  function MarkCancelled(d: Deposit, reason: Option<string>): Deposit {
    var text := OptionalText(reason);
    d.(status := Cancelled, note := if text.Success? && text.value.Some? then Some(Said(text.value.value)) else None)
  }

  function Fail(b: Bank, id: string, reason: Option<string>): (Bank, Answer) {
    match Guard(b, id, Failed)
    case Failure(answer) => (b, answer)
    case Success(k) =>
      if OptionalText(reason).Failure? then (b, Thrown(BadRequest))
      else
        (b.(deposits := b.deposits[k := MarkFailed(b.deposits[k], RequestedFailure(reason))]), Id(b.deposits[k].id))
  }

  function Cancel(b: Bank, id: string, reason: Option<string>): (Bank, Answer) {
    match Guard(b, id, Cancelled)
    case Failure(answer) => (b, answer)
    case Success(k) =>
      if OptionalText(reason).Failure? then (b, Thrown(BadRequest))
      else (b.(deposits := b.deposits[k := MarkCancelled(b.deposits[k], reason)]), Id(b.deposits[k].id))
  }

  // ----------------------------------------------------------------------------------------------------- creation

  datatype Ownership = CustomerSelf(customerId: string) | Internal

  datatype Request = Request(walletId: string, ownership: Ownership, amount: Amount, currency: string,
    key: Option<string>, reference: Option<string>, narration: Option<string>)

  datatype NormalizedDeposit = NormalizedDeposit(walletId: string, ownership: Ownership, amount: int, currency: string,
    key: string, reference: Option<string>, narration: Option<string>, requestHash: string)

  /** SHA-256 is taken to be injective, as for journals: the digest is represented by the text. */
  function DepositHash(walletId: string, amount: int, currency: string, reference: Option<string>,
    narration: Option<string>): string
  {
    Print(Ledger, DepositValue(walletId, amount, currency, reference, narration))
  }

  function DepositValue(walletId: string, amount: int, currency: string, reference: Option<string>,
    narration: Option<string>): Value
  {
    Obj([Keyed("walletId", Str(walletId)), Keyed("amountMinor", Str(AmountText(amount))),
         Keyed("currency", Str(currency)), Keyed("reference", OptionalValue(reference)),
         Keyed("narration", OptionalValue(narration))])
  }

  function NormalizeCreate(request: Request): Result<NormalizedDeposit, Error> {
    var walletId := ToLower(Trim(request.walletId));
    var key := if request.key.Some? then Trim(request.key.value) else "";
    if !IsUuid(walletId) || key == "" || Length(key) > 255 then Failure(BadRequest)
    else
      var amount :- ParsePositiveMinorUnits(request.amount);
      var currency :- NormalizeCurrency(request.currency);
      var reference :- OptionalText(request.reference);
      var narration :- OptionalText(request.narration);
      Success(NormalizedDeposit(walletId, request.ownership, amount, currency, key, reference, narration,
        DepositHash(walletId, amount, currency, reference, narration)))
  }

  predicate Owns(ownership: Ownership, w: Option<Wallet>) {
    ownership.CustomerSelf? ==> w.Some? && w.value.customerId == ownership.customerId
  }

  /** What a caller learns about a key that is already taken. */
  function Replayed(existing: Deposit, wallets: map<string, Wallet>, n: NormalizedDeposit): Answer {
    if existing.requestHash != n.requestHash then Thrown(Conflict)
    else if !Owns(n.ownership, FindWallet(wallets, existing.walletId)) then Thrown(NotFound)
    else Id(existing.id)
  }

  function CreateProblem(n: NormalizedDeposit, w: Option<Wallet>): Option<Error> {
    if !Owns(n.ownership, w) || w.None? then Some(NotFound)
    else if w.value.status != Active || w.value.currency != n.currency then Some(Conflict)
    else None
  }

  function NewDeposit(n: NormalizedDeposit, newId: string, paymentReference: string): Deposit {
    Deposit(newId, n.walletId, None, paymentReference, n.amount, n.currency, Pending, n.key, n.requestHash,
      n.reference, n.narration, None, None, None, None)
  }

  /** One transaction of `createDeposit`, with the id and the payment reference it draws. */
  function Create(b: Bank, n: NormalizedDeposit, newId: string, paymentReference: string): (Bank, Answer) {
    var k := IndexBy(b.deposits, KeyOf, n.key);
    if k < |b.deposits| then (b, Replayed(b.deposits[k], b.wallets, n))
    else
      var problem := CreateProblem(n, FindWallet(b.wallets, n.walletId));
      if problem.Some? then (b, Thrown(problem.value))
      else if IndexBy(b.deposits, IdOf, newId) < |b.deposits| then (b, Broken(PrimaryKey))
      else (b.(deposits := b.deposits + [NewDeposit(n, newId, paymentReference)]), Id(newId))
  }

  /** The catch clause of `createDeposit`: the key was lost to a rival, whose deposit is compared by fingerprint. */
  function LostKey(b: Bank, n: NormalizedDeposit): Answer {
    var k := IndexBy(b.deposits, KeyOf, n.key);
    if k == |b.deposits| then Broken(IdempotencyKey)
    else if b.deposits[k].requestHash != n.requestHash then Thrown(Conflict)
    else Id(b.deposits[k].id)
  }

  // ------------------------------------------------------------------------------------------------- the service

  /** At most the deposit with this id differs, and no closed deposit does. */
  ghost predicate OnlyPendingChanged(before: seq<Deposit>, after: seq<Deposit>, id: string) {
    && |after| == |before|
    && forall i | 0 <= i < |before| && after[i] != before[i] ::
         before[i].id == ToLower(id) == after[i].id && before[i].status.Pending? && !after[i].status.Pending?
  }

  class DepositStore {
    const ledger: LedgerStore
    var wallets: map<string, Wallet>
    var deposits: seq<Deposit>

    constructor (ledger: LedgerStore)
      ensures this.ledger == ledger && wallets == map[] && deposits == []
    {
      this.ledger, wallets, deposits := ledger, map[], [];
    }

    function Contents(): Bank
      reads this, ledger
    {
      Bank(ledger.Contents(), wallets, deposits)
    }

    method CreateWithinTransaction(n: NormalizedDeposit, newId: string, paymentReference: string)
      returns (answer: Answer)
      modifies this
      ensures (Contents(), answer) == Create(old(Contents()), n, newId, paymentReference)
      ensures deposits != old(deposits) ==>
        && answer == Id(newId) && deposits == old(deposits) + [NewDeposit(n, newId, paymentReference)]
        && Owns(n.ownership, FindWallet(wallets, n.walletId)) && n.walletId in wallets
        && (forall i | 0 <= i < |old(deposits)| :: old(deposits)[i].key != n.key && old(deposits)[i].id != newId)
    {
      var k := IndexBy(deposits, KeyOf, n.key);
      if k < |deposits| {
        var existing := deposits[k];
        if existing.requestHash != n.requestHash {
          return Thrown(Conflict);
        }
        if !Owns(n.ownership, FindWallet(wallets, existing.walletId)) {
          return Thrown(NotFound);
        }
        return Id(existing.id);
      }
      var wallet := FindWallet(wallets, n.walletId);
      if !Owns(n.ownership, wallet) || wallet.None? {
        return Thrown(NotFound);
      }
      if wallet.value.status != Active || wallet.value.currency != n.currency {
        return Thrown(Conflict);
      }
      if IndexBy(deposits, IdOf, newId) < |deposits| {
        return Broken(PrimaryKey);
      }
      deposits := deposits + [NewDeposit(n, newId, paymentReference)];
      answer := Id(newId);
    }

    /** The post in its own try block. */
    method Post(d: Deposit, w: Wallet, newId: string) returns (posted: Posted)
      modifies ledger
      ensures var t := old(ledger.Contents());
        var c := CompletionPost(t.accounts, d, w);
        posted == PostedOf(t, c, newId) && ledger.Contents() == TablesAfterPost(t, c, newId)
    {
      var settlement := SettlementAccount(ledger.accounts, d.currency);
      if settlement.Failure? {
        return Caught(settlement.error);
      }
      var c := NormalizeJournal(CompletionCommand(d, w, settlement.value));
      if c.Failure? {
        return Caught(c.error);
      }
      var outcome := ledger.PostWithinTransaction(c.value, newId);
      match outcome {
        case Existing(id) => posted := Journaled(id);
        case Written(id) => posted := Journaled(id);
        case Rejected(error) => posted := Caught(error);
        case Violation(broken) => posted := Raised(broken);
      }
    }

    method CompleteDeposit(id: string, newId: string, now: int) returns (answer: Answer)
      modifies this, ledger
      ensures (Contents(), answer) == Complete(old(Contents()), id, newId, now)
      ensures OnlyPendingChanged(old(deposits), deposits, id) && wallets == old(wallets)
    {
      var guard := Guard(Contents(), id, Completed);
      if guard.Failure? {
        return guard.error;
      }
      var k := guard.value;
      var d := deposits[k];
      var wallet := FindWallet(wallets, d.walletId);
      if wallet.None? {
        deposits := deposits[k := MarkFailed(d, FailureDetails(WalletNotFound, 404,
          Said("Wallet " + d.walletId + " was not found")))];
        return Id(d.id);
      }
      if wallet.value.status != Active {
        deposits := deposits[k := MarkFailed(d, FailureDetails(WalletNotActive, 409,
          Said("The wallet must be active to complete a deposit")))];
        return Id(d.id);
      }
      if wallet.value.currency != d.currency {
        deposits := deposits[k := MarkFailed(d, FailureDetails(CurrencyMismatch, 409,
          Said("The wallet and deposit currencies must match")))];
        return Id(d.id);
      }
      var posted := Post(d, wallet.value, newId);
      match posted {
        case Raised(constraint) =>
          return Broken(constraint);
        case Caught(error) =>
          deposits := deposits[k := MarkFailed(d, FailureOf(error))];
        case Journaled(journalId) =>
          deposits := deposits[k := MarkCompleted(d, journalId, now)];
      }
      answer := Id(d.id);
    }

    method FailDeposit(id: string, reason: Option<string>) returns (answer: Answer)
      modifies this
      ensures (Contents(), answer) == Fail(old(Contents()), id, reason)
      ensures OnlyPendingChanged(old(deposits), deposits, id) && wallets == old(wallets)
      ensures forall i | 0 <= i < |deposits| && deposits[i] != old(deposits[i]) ::
        deposits[i].status.Failed? && deposits[i].journalId.None?
    {
      var guard := Guard(Contents(), id, Failed);
      if guard.Failure? {
        return guard.error;
      }
      if OptionalText(reason).Failure? {
        return Thrown(BadRequest);
      }
      var k := guard.value;
      deposits := deposits[k := MarkFailed(deposits[k], RequestedFailure(reason))];
      answer := Id(deposits[k].id);
    }

    method CancelDeposit(id: string, reason: Option<string>) returns (answer: Answer)
      modifies this
      ensures (Contents(), answer) == Cancel(old(Contents()), id, reason)
      ensures OnlyPendingChanged(old(deposits), deposits, id) && wallets == old(wallets)
      ensures forall i | 0 <= i < |deposits| && deposits[i] != old(deposits[i]) :: deposits[i].status.Cancelled?
    {
      var guard := Guard(Contents(), id, Cancelled);
      if guard.Failure? {
        return guard.error;
      }
      if OptionalText(reason).Failure? {
        return Thrown(BadRequest);
      }
      var k := guard.value;
      deposits := deposits[k := MarkCancelled(deposits[k], reason)];
      answer := Id(deposits[k].id);
    }
  }
}
