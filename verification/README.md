# Verification of the MonieNaija ledger, deposits, access control and fees

A Dafny model of the parts of the backend that move money or decide who may act, with proofs about every input,
every run and every interleaving. Nothing here executes the original program: the model restates its branches,
constants and error conditions in Dafny's terms, and the lemmas are about that model.

## What is modelled

| module | part of the system |
|---|---|
| `Prelude`, `Utf16`, `JsText`, `Order` | failure values; UTF-16 code units and their order (RFC 2781); `trim`, `toUpperCase`; `Array.prototype.sort` on strings |
| `Json`, `JsonReadability`, `CanonicalForm` | the two key-sorting printers and the proof that their text stands for the value |
| `JsonText`, `JsonDecoding`, `KeyScanner`, `ScannerCorrectness` | RFC 8259 texts as trees, what a string literal means, the one-pass duplicate-name scanner, and its agreement with the tree (section 4 of RFC 7515) |
| `JsonRoundTrip`, `JsonStringify` | printed texts as documents that denote the printed value; `JSON.stringify` against the printers |
| `Money`, `Fee` | minor-unit parsing and printing; the fee engine |
| `LedgerTables` | accounts, journals and lines as tables; balances as sums; the migration's constraints and deferred trigger |
| `LedgerCommands`, `LedgerRequests`, `Fingerprint` | normalisation of a journal, what is accepted and kept, its fingerprint, and what equal fingerprints mean |
| `LedgerPosting`, `LedgerService`, `LedgerOutcome` | what a post does to the tables, the class whose loops do it, and how a post ends, decided on rows |
| `LedgerInvariant`, `LedgerIdentity`, `Reversal`, `ReversalPlans` | the ledger's invariant, the accounting identity, reversals |
| `LedgerClients`, `LedgerRetry`, `LedgerReplies` | any number of clients posting and reversing concurrently, with aborts and lost unique-key races; the loop of `postJournal`, the proof that every client goes through it, and its answers |
| `Retry`, `Locks` | the two bounded retry loops; the order of row locks |
| `Deposit`, `DepositInvariant`, `DepositConservation` | the deposit service on top of the ledger, over every interleaving |
| `DepositRequests`, `DepositOutcome`, `DepositCommands`, `WalletOpening` | what is asked for and credited, how a completion ends, who moves a deposit on, and opening wallets, decided on rows |
| `RateLimit`, `RateAdmission`, `RateSpan`, `LazyRefill` | the token bucket of the security rate limiter, when it admits, its rate bounds, and what the rolled-back save of a rejected call changes |
| `Approval`, `ApprovalLifecycle`, `ApprovalProvenance` | maker/checker approvals, their life, and where every row comes from |
| `Quorum`, `QuorumProperties`, `QuorumExact` | collecting a quorum of approvals for one finance role change, and exactly when a change goes through |

The database is a set of tables held by classes (`LedgerStore`, `DepositStore`, `ApprovalStore`,
`RoleAdministration`, `RateLimiter`). A transaction attempt is one atomic step with one outcome: it commits, it is
aborted and may be retried, it loses a unique key to a rival, or it ends in a business exception. Every method that
changes state is proved equal to a function of the old state, and the results over whole runs are proved about those
functions. What such a function does is said a second time, without it, on the rows it finds: for each main operation
there is a lemma that ends in `Exactly`, an equivalence between what the operation answers and what stands in the
tables. Identifiers and times that the program draws are parameters. SHA-256 is taken to be injective: a digest is
represented by the text it is the digest of. Row locks are a state machine of their own (`Locks`).

## What the proofs found

- `canonical` prints `undefined` as `null`, and the ledger's `canonicalJson` prints `[undefined]` like `[]`. On JSON
  values both printers are injective up to member order; outside JSON, `Json.MeaningOf` says exactly which values share
  a text, and `CanonicalForm.CanonicalTextIsMeaning` is an equivalence for all values.
- A rejected call of the rate limiter throws inside its transaction, so the refilled bucket it has just saved and the
  rejection record it has just written are rolled back. Whether a later decision shows the loss is settled exactly: at
  one call it never does if and only if the call is admitted or the clock is not behind the saved refill
  (`LazyRefill.LossIsNoticedExactlyBehind`), and over a whole run if and only if no rejected call comes with a reading
  behind the one before it (`LazyRefill.LossIsNoticedExactly`, with `LazyRefill.SteppingBackIsNoticed` as a witness).
- The bound on forward movement holds for every clock (`RateLimit.RateBound`). The usual bound, on the time a run
  spans, holds for every run from an empty row on every clock if and only if the bucket holds one token
  (`RateSpan.SpanBoundNeedsUnitCapacity`): any larger bucket admits every call of a clock that swings far enough.
- A refused role change can use approvals up, because each is consumed in a transaction of its own.
  `QuorumProperties.ChangeSpendsExactly` says when a change spends any, whatever its verdict: exactly when it gets as
  far as its approvals and the first one it sends is usable for it. So a change stopped at a later approval, or refused
  after all of them, has spent some; one stopped at its first has spent none. Its assignments are left alone.
- An initial role assignment records the approval ids it was sent without looking at them (`Quorum.Assign`).
- The catch clause of `createDeposit` answers a caller that lost its key without checking the wallet's owner again.
  None is needed: the caller's own attempt had found the wallet to be its to use, the fingerprint carries the wallet,
  and a wallet never changes hands (`DepositConservation.LostKeyIsOwned`).
- A pending approval that has expired can still be cancelled, and an expired emergency grant can still be revoked:
  only deciding and consuming look at the expiry first (`Approval.Cancel`, `Approval.RevokeEmergency`).
- The two retry loops differ in one case only: after a third abort the shared loop raises a conflict, while the deposit
  service passes the driver's error on.

## Model

| member | source | states |
|---|---|---|
| CanonicalForm.PrintedTextStandsForValue | src/authorization/workforce-crypto.ts:5-16 | unique readability: two printed values, each followed by anything that may follow a value, give the same text exactly when the values mean the same and what follows is the same |
| CanonicalForm.CanonicalTextIsMeaning | src/ledger/ledger.service.ts:636-650 | for both printers and all values: equal texts if and only if equal meanings, that is equal up to member order |
| CanonicalForm.PrintersAgreeOnJson | src/authorization/workforce-crypto.ts:5-16 | on JSON values the two copies of the printer identify exactly the same pairs |
| CanonicalForm.MemberOrderIsForgotten | src/ledger/ledger.service.ts:645-649 | reordering the members of an object never changes its text |
| Json.MeaningOfJson | src/authorization/workforce-crypto.ts:15 | on JSON values the meaning does not depend on the printer |
| JsonReadability.RenderReadable | src/authorization/workforce-crypto.ts:5-16 | a rendered form followed by a delimiter can be read back in one way only |
| JsonReadability.QuoteReadable | src/ledger/ledger.service.ts:636-639 | a string literal followed by any text determines the string and the text |
| Order.LessIsUnitOrder | src/authorization/workforce-crypto.ts:9-12 | one text sorts before another if and only if its code units are a proper prefix or have the smaller unit at the first difference |
| JsonRoundTrip.PrintedTextDenotes | src/authorization/workforce-crypto.ts:5-16 | the printed text of a JSON value is a JSON text without white space that denotes it: its words and numerals, strings that decode to its texts, its items in order, and its members with names ascending by code units |
| JsonRoundTrip.PrintedTextPassesScanner | src/authorization/workforce-crypto.ts:95-149 | and it passes the scanner for repeated names |
| JsonStringify.StringifyIsPrint | src/ledger/ledger.service.ts:571-575 | on values whose members are in order `JSON.stringify` writes the printers' text |
| JsonStringify.UndefinedIsLeftOut | src/ledger/ledger.service.ts:624-632 | and an undefined member is left out |
| KeyScanner.FindClosingQuote | src/authorization/workforce-crypto.ts:115-128 | the look-ahead loop stops at the first quote that is not escaped, or at the end |
| KeyScanner.ColonFollows | src/authorization/workforce-crypto.ts:130-132 | the second look-ahead loop tells whether a colon follows after white space |
| KeyScanner.AtQuote | src/authorization/workforce-crypto.ts:114-139 | the branch at a quote files the name, rejects a known one, and enters the string |
| KeyScanner.RejectDuplicateKeys | src/authorization/workforce-crypto.ts:95-149 | the scanner's loop computes the specification `Scan` |
| JsonDecoding.DecodeExactly | src/authorization/workforce-crypto.ts:129-137 | a literal decodes to code units if and only if it is a row of pieces that stand for them: plain characters, the eight short escapes, and every code unit by its four base-16 digits in either letter case |
| JsonDecoding.HexEscapeDecodes | src/authorization/workforce-crypto.ts:129-137 | for every code unit, its four digits most significant first decode to it |
| JsonDecoding.EscapedDecodes | src/authorization/workforce-crypto.ts:11-15 | decoding what `JSON.stringify` escapes gives the code units of the text back |
| ScannerCorrectness.ScannerAgreesWithTree | src/authorization/workforce-crypto.ts:95-149 | every well-formed JSON text is rejected exactly when some object has two members whose decoded names are equal, and otherwise the scanner ends at its starting depth |
| ScannerCorrectness.PassName | src/authorization/workforce-crypto.ts:129-137 | a literal before a colon inside an object is rejected when its decoded name is known and filed otherwise |
| ScannerCorrectness.ScanElement | src/authorization/workforce-crypto.ts:100-148 | after any value the scanner is back at its depth and remembers exactly what it did for this and the outer levels |
| ScannerCorrectness.ScanMembers | src/authorization/workforce-crypto.ts:132-136 | the members of an object are rejected exactly when a name repeats, also a name filed before, or one of their values repeats a name |
| Money.DecimalRoundTrip | src/common/money.ts:11-57 | print then parse gives every BIGINT back and nothing larger; parse then print gives a numeral back exactly when it has no leading zeros |
| Money.SpellingsAgree | src/common/money.ts:15-40 | a safe integer, its decimal text and the bigint of the same value are accepted or refused alike |
| Money.ParsesExactly | src/common/money.ts:11-53 | accepted is exactly what stands for a number from 0 to the largest BIGINT, a text by the place of each digit, and as that number |
| JsText.TrimExactly | src/ledger/ledger.service.ts:502 | trimming takes exactly the white space at both ends away |
| JsText.CurrencyExactly | src/common/money.ts:59-66 | among ASCII texts exactly three letters, in any case and with white space around them, are accepted, as their capitals |
| Fee.FeeWithinBounds | src/fee/fee.engine.ts:43-49 | the fee lies between its bounds, and strictly between them it is the flat part plus the floored percentage |
| Fee.ChargeExactly | src/fee/fee.engine.ts:43-51 | a charge is: the share of the amount by 10000 rounded down plus the flat part, raised to the minimum, lowered to the maximum; the VAT share of that fee; and the sum |
| Fee.CalculatedExactly | src/fee/fee.engine.ts:16-63 | an amount is charged under a parsed rule exactly so, and accepted exactly when the total fits |
| Fee.ChargeMonotone | src/fee/fee.engine.ts:43-51 | through floors and clamps fee and VAT are monotone in the amount and the total strictly increases |
| Fee.AcceptedAmountsAreDownwardClosed | src/fee/fee.engine.ts:21-54 | when an amount is accepted every smaller positive amount is, for less |
| Fee.AcceptedFiguresFit | src/fee/fee.engine.ts:51-63 | every figure of an accepted calculation is a BIGINT and the total is their sum |
| Fee.SplittingSavesAtMostOne | src/fee/fee.engine.ts:43 | without clamps or flat part, splitting an amount lowers the fee by at most one unit and never raises it |
| LedgerCommands.NormalizeLines | src/ledger/ledger.service.ts:517-539 | the loop over the lines yields the parsed entries and their debit and credit totals, or the first failure |
| LedgerCommands.NormalizeJournal | src/ledger/ledger.service.ts:501-595 | normalisation in the order of the source equals the function `Normalize` |
| LedgerRequests.NormalizedExactly | src/ledger/ledger.service.ts:501-595 | a request is accepted as a journal command if and only if it asks for it: key, book, every line in its place, equal sides, texts and metadata of their sizes, each field in its own place, under its own hash |
| LedgerCommands.FieldsAreWellPosed | src/ledger/ledger.service.ts:509-546 | an accepted journal has 2 to 100 positive lines, equal debits and credits, and a positive total that fits a BIGINT |
| LedgerCommands.EntriesFollowLines | src/ledger/ledger.service.ts:520-539 | every accepted entry is the normalised line in its place, with a positive amount |
| Fingerprint.FingerprintIdentifiesRequest | src/ledger/ledger.service.ts:557-580 | equal request hashes if and only if the same currency, unit, texts, reversal, metadata up to member order and the same multiset of lines |
| Fingerprint.SameFingerprintSameEffect | src/ledger/ledger.service.ts:557-580 | commands with equal hashes have the same effect on every account and as many lines |
| Fingerprint.EffectOfMultiset | src/ledger/ledger.service.ts:328-335 | the effect of lines on an account does not depend on their order |
| Fingerprint.SortedEntriesForgetOrder | src/ledger/ledger.service.ts:567-577 | sorting the lines by their JSON text forgets their order and nothing else |
| LedgerService.LedgerStore.CreateAccount | src/ledger/ledger.service.ts:76-128 | an account is added under its normalised fields, the default unit when none is given, or refused for its normal balance, its fields or a taken code |
| LedgerRequests.OpenedExactly | src/ledger/ledger.service.ts:76-128 | an account is opened if and only if it is what was asked for, active, with debit as normal side exactly for assets and expenses, under a code and id not in use |
| LedgerService.LedgerStore.LockAccounts | src/ledger/ledger.service.ts:394-405 | the locked accounts are exactly the existing ones among the given ids, and for ascending ids they are in ascending order of code units |
| LedgerService.LedgerStore.CheckAccounts | src/ledger/ledger.service.ts:301-317 | the first missing, inactive or foreign account in lock order decides the error |
| LedgerService.LedgerStore.CalculateBalances | src/ledger/ledger.service.ts:467-499 | one pass over the lines gives each account the sum over all of them |
| LedgerService.LedgerStore.ProjectBalances | src/ledger/ledger.service.ts:319-335 | the running projection equals the balance plus the effect of all the command's lines, also when they touch an account repeatedly |
| LedgerService.LedgerStore.CheckOverdraft | src/ledger/ledger.service.ts:337-344 | refuses exactly when some locked account that may not be overdrawn is projected below zero |
| LedgerService.LedgerStore.PostWithinTransaction | src/ledger/ledger.service.ts:281-392 | outcome and new tables are those of `PostOutcome` and `PostEffect`: nothing is written unless the journal is |
| LedgerOutcome.ReplayAnswersExactly | src/ledger/ledger.service.ts:285-295 | a taken key is answered with its journal if and only if that stands for the same request, is a conflict otherwise, and writes nothing either way |
| LedgerOutcome.WrittenExactly | src/ledger/ledger.service.ts:297-392 | under a new key and id the journal is written if and only if every touched account exists, is active and in the book, no protected account would have a negative balance, and a named original exists, is no reversal and has none |
| LedgerOutcome.RefusedFor | src/ledger/ledger.service.ts:301-356 | otherwise which error: the first unusable account by code units, then overdraft, then the original |
| LedgerReplies.StoredIsCommand | src/ledger/ledger.service.ts:358-391 | a written journal, read back with its lines, is exactly the command |
| LedgerReplies.WrittenRows | src/ledger/ledger.service.ts:375-388 | its rows are the command's lines in order, numbered from one, in its book |
| LedgerInvariant.LockOrderIsAscending | src/ledger/ledger.service.ts:297 | the lock order lists exactly the touched accounts, each once, strictly ascending by UTF-16 units |
| LedgerInvariant.AccountChecks | src/ledger/ledger.service.ts:301-344 | the checks in lock order pass exactly when every touched account exists, is active, is in the book and is not overdrawn |
| LedgerInvariant.ProjectionIsRecomputedBalance | src/ledger/ledger.service.ts:319-344 | the projection is the balance recomputed from all lines after the post |
| LedgerInvariant.PostKeepsConsistent | src/ledger/ledger.service.ts:281-392 | a post keeps keys unique, foreign keys, every journal balanced with at least two lines, reversals in order, and no forbidden overdraft |
| LedgerInvariant.CreateKeepsConsistent | src/ledger/ledger.service.ts:102-127 | so does creating an account |
| LedgerInvariant.ReachableIsConsistent | src/ledger/ledger.service.ts:281-392 | every state reached by any sequence of creations and posts is consistent |
| LedgerInvariant.NoAccountIsEverOverdrawn | src/ledger/ledger.service.ts:337-344 | in every reachable state every account that may not be negative has a recomputed balance of at least zero |
| LedgerInvariant.ChecksAreTheTrigger | src/migrations/1785753600000-CreateWalletAndLedger.ts:206-250 | for any lines on existing accounts, of a reversal or not: the trigger's full re-aggregation accepts the written journal if and only if it has two lines, debits equal credits and the total, and the incremental account and overdraft checks pass |
| LedgerInvariant.TriggerAcceptsTransaction | src/migrations/1785753600000-CreateWalletAndLedger.ts:182-255 | after any sequence of posts in one transaction the deferred trigger accepts every journal it wrote, and its total is positive |
| LedgerIdentity.AccountingIdentity | src/ledger/ledger.service.ts:467-499 | in every consistent ledger, book by book, debit-normal and credit-normal balances have the same sum |
| LedgerIdentity.IdentityOverEveryRun | src/ledger/ledger.service.ts:541-546 | and so in every state reached by creations, posts and reversals, with all balances recomputed |
| LedgerIdentity.AccountsToRows | src/ledger/ledger.service.ts:474-486 | exchange of sums: balances over accounts are debits less credits over rows |
| LedgerIdentity.RowsToJournals | src/migrations/1785753600000-CreateWalletAndLedger.ts:206-211 | exchange of sums: a total over rows is the total over journals of their rows |
| LedgerIdentity.BalanceByJournal | src/ledger/ledger.service.ts:467-499 | a balance is the sum of the effects of the posted journals |
| LedgerIdentity.WriteKeepsEntries | src/ledger/ledger.service.ts:375-388 | a written journal holds exactly the entries of its command, and older journals keep theirs |
| Reversal.ReversalIsFlipped | src/ledger/ledger.service.ts:252-273 | the command a reversal sends carries, once normalised, the original's entries with their directions turned |
| Reversal.ReversalsCancel | src/ledger/ledger.service.ts:241-250 | with mirrored reversals a balance is the sum of the effects of the journals neither reversals nor reversed |
| Reversal.WriteKeepsMirror | src/ledger/ledger.service.ts:346-391 | writing a plain journal or a flipped reversal keeps every reversal the mirror of what it names |
| ReversalPlans.PlanExactly | src/ledger/ledger.service.ts:224-250 | a reversal is sent if and only if the journal exists, is no reversal, has none, and the key is new; a key that reversed this very journal answers that reversal; anything else is a conflict |
| ReversalPlans.ReversedOnce | src/ledger/ledger.service.ts:230-250 | once written, its key answers it, another key is a conflict, and it cannot be reversed itself |
| ReversalPlans.ReversalCarries | src/ledger/ledger.service.ts:252-263 | it is in the original's book under its references, names it, and keeps all other metadata |
| LedgerRetry.PostJournal | src/ledger/ledger.service.ts:183-222 | the three-attempt loop, with rivals committing before each attempt and before the look-up after a lost race, ends in the state and answer of `Retried` |
| LedgerRetry.RetriedAnswers | src/ledger/ledger.service.ts:187-215 | a successful answer of the loop names the committed journal with the caller's key and fingerprint, and the ledger is consistent |
| LedgerRetry.ClientsRunTheLoop | src/ledger/ledger.service.ts:187-215 | every run that brings a client from its first attempt to its answer is a passage of that client through the loop, leaving the same tables and giving the same answer |
| LedgerReplies.CommittedAttemptAnswers | src/ledger/ledger.service.ts:183-193 | after any aborts the first attempt that ends answers from the rows it sees: a taken key's journal or a conflict, a written journal's id, or a business error with nothing written |
| LedgerReplies.LostAttemptAnswers | src/ledger/ledger.service.ts:199-209 | a lost key is answered from the rows at the look-up: the same request's journal, else a conflict |
| LedgerReplies.FailedAttemptAnswers | src/ledger/ledger.service.ts:195-213 | a third abort is the driver's error, a lost reversal race a conflict |
| LedgerOutcome.SameRequestSucceeds | src/ledger/ledger.service.ts:289-295 | in every interleaving a client that asks for what is stored under its key is answered with it, also after a lost race |
| LedgerClients.ExactlyOnce | src/ledger/ledger.service.ts:183-222 | over every interleaving, all successful callers of a key get the id of the only journal with that key, asked for the same thing, and it has the effect each asked for |
| LedgerClients.BalancesMoveOnce | src/migrations/1785753600000-CreateWalletAndLedger.ts:47 | each balance is the asked effect once plus what journals with other keys did |
| LedgerClients.DifferentFingerprintIsRefused | src/ledger/ledger.service.ts:289-292 | a caller whose key belongs to another request never succeeds, however the run goes on |
| LedgerClients.ClientsFinish | src/ledger/ledger.service.ts:187-215 | a client changes only by its own steps and takes at most five of them |
| LedgerClients.ReversalsCancelOverEveryRun | src/migrations/1785753600000-CreateWalletAndLedger.ts:111-115 | however posts and reversals interleave, no journal is reversed twice, no reversal is reversed, and balances see only the journals still standing |
| Retry.RunSerializableWithRetry | src/common/serializable-transaction.ts:41-62 | at most three attempts, only aborts are retried, the first other result is returned unchanged, exhaustion is a conflict |
| Retry.RunWithSerializationRetry | src/deposit/deposit.service.ts:494-508 | the same, but the third abort is passed on as it is |
| Locks.PlanAscends | src/deposit/deposit.service.ts:226-296 | every transaction locks deposit, wallet and accounts in strictly ascending order |
| Locks.PlanLocksExactly | src/deposit/deposit.service.ts:226-296 | and locks exactly the rows it works on |
| Locks.RowsAreExclusive | src/ledger/ledger.service.ts:394-405 | no row is ever locked by two transactions |
| Locks.NoDeadlock | src/deposit/deposit.service.ts:409-428 | in every reachable state no transaction waits, over any number of others, for itself |
| Locks.SomeoneGoesOn | src/ledger/ledger.service.ts:297-298 | as long as a transaction still wants a row, some transaction is not blocked |
| Deposit.DepositStore.CreateWithinTransaction | src/deposit/deposit.service.ts:171-224 | a replay, an ownership or wallet refusal, or one new pending deposit, and nothing else |
| DepositRequests.DepositExactly | src/deposit/deposit.service.ts:463-491 | a request is accepted as a deposit if and only if it asks for it: wallet, owner, the very amount, currency, key and texts, each in its own place |
| DepositRequests.CreatedExactly | src/deposit/deposit.service.ts:195-224 | under a new key and id a deposit is created if and only if the wallet is the caller's to use, active and in the currency; the row is what was asked for |
| DepositRequests.TakenKeyExactly | src/deposit/deposit.service.ts:175-193 | a taken key: its deposit for the same request of its owner, and otherwise which error; the lost race likewise |
| DepositRequests.CreditedAsAsked | src/deposit/deposit.service.ts:171-296 | over every run a created deposit stays what its request asked for, and once completed its journal credits that wallet with that amount |
| Deposit.DepositStore.Post | src/deposit/deposit.service.ts:265-296 | what the try block raises or returns and what it leaves in the ledger |
| Deposit.DepositStore.CompleteDeposit | src/deposit/deposit.service.ts:226-329 | the new state and answer of completion in every branch; at most the named pending deposit changes |
| DepositOutcome.CompletesExactly | src/deposit/deposit.service.ts:226-329 | a pending deposit completes if and only if its wallet exists, is active and has its currency, the settlement account exists, both accounts pass the post and the id is new; a taken id changes nothing; otherwise it fails with the code and status of the first check that fails |
| DepositCommands.CompletingNeedsPending | src/deposit/deposit.service.ts:226-240 | only a pending deposit is settled; otherwise the answer by its status |
| DepositCommands.NeverMalformed | src/deposit/deposit.service.ts:267-296 | over every run with drawn UUIDs and references the completion's command is always accepted by the ledger, so no deposit fails with status 400 |
| Deposit.DepositStore.FailDeposit | src/deposit/deposit.service.ts:331-352 | the new state and answer of failing, the stored code and message included; only a pending deposit changes, to failed, without a journal |
| DepositCommands.FailsExactly | src/deposit/deposit.service.ts:331-352 | only a pending deposit fails, with its reason as message; otherwise the answer by its status |
| Deposit.DepositStore.CancelDeposit | src/deposit/deposit.service.ts:354-375 | the new state and answer of cancelling, the stored message included; only a pending deposit changes, to cancelled |
| DepositCommands.CancelsExactly | src/deposit/deposit.service.ts:354-375 | only a pending deposit is cancelled; otherwise the answer by its status |
| DepositInvariant.CompletionFacts | src/deposit/deposit.service.ts:267-296 | an accepted completion command has the deposit's key and exactly two entries: settlement debited, wallet credited with the amount |
| DepositInvariant.CompletionIsWritten | src/deposit/deposit.service.ts:265-310 | completing a pending deposit always writes a new journal; its key cannot exist before |
| DepositInvariant.CommitKeepsBank | src/deposit/deposit.service.ts:171-407 | every step of any client keeps: completed deposits fulfilled, others without journal, wallets on valid accounts, the ledger consistent |
| DepositInvariant.WalletKeepsBank | src/wallet/wallet.service.ts:81-131 | opening a wallet with its own ledger account, or refusing one for its customer, creation key, wallet or account, keeps it too |
| WalletOpening.OpenedExactly | src/wallet/wallet.service.ts:81-131 | a wallet is opened if and only if the customer has none in the currency, the key is new and the ids are fresh: active, with its own protected liability account |
| WalletOpening.OneWalletPerCurrency | src/wallet/wallet.service.ts:102-105 | no run ever gives a customer two wallets in one currency, or two wallets one creation key |
| DepositConservation.CompletedExactlyWhenPosted | src/deposit/deposit.service.ts:272-312 | in every reachable state a deposit is completed exactly when its completion journal exists, names it, and every such journal belongs to a completed deposit |
| DepositConservation.ClosedStaysClosed | src/deposit/deposit.service.ts:235-240 | a completed, failed or cancelled deposit never changes again in any field |
| DepositConservation.FailureIsAtomic | src/deposit/deposit.service.ts:297-306 | completion either writes one journal of two lines and completes, or leaves the ledger unchanged |
| DepositConservation.WalletConservation | src/deposit/deposit.service.ts:280-296 | completion journals add to a wallet exactly the sum of its completed deposits, and its balance never goes below zero |
| DepositConservation.SettlementConservation | src/payment/settlement-account.service.ts:9-36 | completion journals debit a currency's settlement account by exactly the sum of the completed deposits in it |
| DepositConservation.JournalsToDeposits | src/deposit/deposit.service.ts:272 | exchange of sums: effects over completion journals are effects over completed deposits |
| DepositConservation.DepositHashIdentifiesRequest | src/payment/payment-support.ts:39-91 | equal deposit fingerprints if and only if the same wallet, amount, currency, reference and narration |
| DepositConservation.ReplayAnswersOnce | src/deposit/deposit.service.ts:175-193 | a key belongs to one deposit; sending it again creates nothing and answers that deposit exactly for the same request by somebody who may see the wallet |
| DepositConservation.LostKeyIsOwned | src/deposit/deposit.service.ts:68-87 | a caller whose attempt passed the ownership check earlier in the run and then lost the race is given the deposit it asked for, on a wallet that is still its to use |
| RateLimit.RateLimiter.Consume | src/authorization/security-rate-limit.service.ts:13-66 | the answer, the new row, and that a rejected call leaves the row as it was |
| RateAdmission.AdmittedExactly | src/authorization/security-rate-limit.service.ts:44-58 | a first call is admitted, any other if and only if a token is left or the milliseconds since the saved refill have earned what is missing of one |
| RateAdmission.OneTokenIsTaken | src/authorization/security-rate-limit.service.ts:44-60 | an admission takes exactly one token from what was there and what was earned, up to the capacity, and saves its time |
| RateAdmission.SpacedIsAdmitted | src/authorization/security-rate-limit.service.ts:44-60 | a caller that leaves time for a token between its calls is never refused |
| RateAdmission.FirstCallsAreAdmitted | src/authorization/security-rate-limit.service.ts:44-60 | on any clock the first calls, as many as the capacity, are admitted |
| RateAdmission.BurstIsCapacity | src/authorization/security-rate-limit.service.ts:44-60 | at one instant exactly as many as the capacity are |
| RateLimit.CallSpendsAtMostOne | src/authorization/security-rate-limit.service.ts:44-60 | tokens stay between 0 and capacity, and what a call spends and leaves comes out of what was there and what the clock's movement added |
| RateLimit.TokensStayInRange | src/authorization/security-rate-limit.service.ts:45 | over any stretch of calls stored tokens stay between 0 and capacity |
| RateLimit.RateBound | src/authorization/security-rate-limit.service.ts:44-60 | over any stretch of any run, from any row with non-negative tokens, for any clock: admissions are at most capacity plus rate times the forward movement between admissions |
| RateLimit.RateBoundOnNetTime | src/authorization/security-rate-limit.service.ts:44-60 | with a clock that does not step back: at most capacity plus rate times the time from first to last call |
| RateSpan.SpanBoundNeedsUnitCapacity | src/authorization/security-rate-limit.service.ts:44-60 | on clocks that may step back, all runs from an empty row keep capacity plus rate times the time they span if and only if the capacity is one |
| RateLimit.RefillsCompose | src/authorization/security-rate-limit.service.ts:45 | two clamped refills in a row are one over both intervals |
| LazyRefill.LossIsNoticedExactlyBehind | src/authorization/security-rate-limit.service.ts:47-58 | for any rule, saved row and call: all later decisions are those of a bucket that saves its refill also when it rejects, if and only if the call is admitted or not behind the saved refill |
| LazyRefill.LossIsNoticedExactly | src/authorization/security-rate-limit.service.ts:47-58 | over any run on any clock: at every point both buckets decide any next call alike if and only if no rejected call is behind the reading before it |
| LazyRefill.LazyRefillDecidesAlike | src/authorization/security-rate-limit.service.ts:47-58 | in particular with a clock that does not step back |
| LazyRefill.SteppingBackIsNoticed | src/authorization/security-rate-limit.service.ts:47-58 | a witness: a run of two calls that is noticed |
| Approval.ApprovalStore.RequestApproval | src/authorization/privileged-action-approval.service.ts:48-124 | one new requested row, of the caller and with its expiry in bounds, or an answer in the order of the checks |
| ApprovalProvenance.RequestedExactly | src/authorization/privileged-action-approval.service.ts:48-124 | a request is taken if and only if the row is what was asked for: action, resource, fingerprint, scope, strong authentication, reason and lifetime |
| Approval.ApprovalStore.DecideApproval | src/authorization/privileged-action-approval.service.ts:365-428 | the new rows and the answer of approving or rejecting, expiry first |
| ApprovalProvenance.DecidedExactly | src/authorization/privileged-action-approval.service.ts:365-428 | a decision works if and only if the row is requested and unexpired and the decider is somebody else with its scope, strongly authenticated where asked for; otherwise a row changes only to expire |
| Approval.ApprovalStore.CancelApproval | src/authorization/privileged-action-approval.service.ts:134-173 | the new rows and the answer of cancelling |
| ApprovalProvenance.CancelledExactly | src/authorization/privileged-action-approval.service.ts:134-173 | only the requester cancels, and only a request |
| Approval.ApprovalStore.ConsumeInTransaction | src/authorization/privileged-action-approval.service.ts:190-245 | the new rows and the answer of consuming, expiry first |
| Approval.ApprovalStore.ActivateEmergencyAccess | src/authorization/privileged-action-approval.service.ts:247-320 | one new active emergency row, or a refusal |
| ApprovalProvenance.ActivatedExactly | src/authorization/privileged-action-approval.service.ts:247-320 | emergency access is granted exactly to privileged, strongly authenticated holders of its scope, for at most fifteen minutes |
| Approval.ApprovalStore.RevokeEmergencyAccess | src/authorization/privileged-action-approval.service.ts:322-363 | the new rows and the answer of revoking |
| ApprovalProvenance.RevokedExactly | src/authorization/privileged-action-approval.service.ts:322-363 | an active emergency grant is revoked exactly by its holder or a holder of its scope |
| ApprovalLifecycle.LifecycleOverEveryRun | src/authorization/privileged-action-approval.service.ts:134-453 | over every run on a clock that does not step back: consumed means requested, then approved by somebody else, then consumed, all before expiry; emergency grants are never consumed |
| ApprovalProvenance.EveryRowIsTraced | src/authorization/privileged-action-approval.service.ts:48-453 | over every run and on any clock: each row goes back to one request and still says what it asked for; an approved row to a decision by somebody else who was allowed to; a consumed row to a later use for exactly its action, resource and fingerprint |
| ApprovalLifecycle.UsedAtMostOnce | src/authorization/privileged-action-approval.service.ts:220-224 | the number of successful uses of an approval is one exactly when it is consumed, and otherwise none |
| ApprovalLifecycle.ClosedStaysClosed | src/authorization/privileged-action-approval.service.ts:503-519 | rejected, cancelled, consumed, expired and revoked rows never change again |
| ApprovalLifecycle.ConsumptionStep | src/authorization/privileged-action-approval.service.ts:190-224 | a row becomes consumed exactly by a successful use, and no consumed row is used again |
| ApprovalLifecycle.UseNeedsGrant | src/authorization/privileged-action-approval.service.ts:190-224 | a use succeeds if and only if the row is approved, unexpired, open to the caller, and for exactly this action, resource and fingerprint; it writes the row exactly when it succeeds or finds it expired |
| ApprovalLifecycle.NextKeepsInv | src/authorization/privileged-action-approval.service.ts:444-501 | every command keeps the order of times, the consent of another, and emergency grants apart |
| Quorum.RoleAdministration.CollectApprovers | src/authorization/finance-role-administration.service.ts:234-249 | the loop over the approval ids computes `Collected`: rows, and approvers or a refusal |
| Quorum.RoleAdministration.ConsumeApprovalsOf | src/authorization/finance-role-administration.service.ts:225-254 | the checks before and after the loop |
| Quorum.RoleAdministration.PersistAssignment | src/authorization/finance-role-administration.service.ts:255-305 | one new active assignment where there was no active one, or a conflict and nothing written |
| Quorum.RoleAdministration.AssignRole | src/authorization/finance-role-administration.service.ts:156-183 | the new state and verdict of an assignment; done means one new active assignment of this role by somebody else than its holder, refused means none |
| Quorum.RoleAdministration.RevokeRole | src/authorization/finance-role-administration.service.ts:184-198 | the new state and verdict of a revocation; done means exactly one active assignment of this role became revoked, refused means none |
| Quorum.StopsThere | src/authorization/finance-role-administration.service.ts:246-247 | after the first refused approval no further one is touched |
| QuorumExact.CollectedExactly | src/authorization/finance-role-administration.service.ts:234-249 | the loop gets through if and only if no approval is named twice and each is ready for this change and principal |
| QuorumExact.GatheredExactly | src/authorization/finance-role-administration.service.ts:225-254 | the approvals suffice if and only if they are a quorum of different, ready approvals, the acting principal aside where that is prohibited |
| QuorumExact.AssignedExactly | src/authorization/finance-role-administration.service.ts:156-183 | an assignment is made if and only if it is eligible, for somebody else, strongly authenticated, not active already, and either the role's first by the administrator or initiated under its rule with its quorum |
| QuorumExact.AssignedRowIsAsked | src/authorization/finance-role-administration.service.ts:255-285 | its row says what was asked for, with the role's scopes, by whom and when |
| QuorumExact.RevokedExactly | src/authorization/finance-role-administration.service.ts:184-198 | a revocation is made if and only if it is eligible, by somebody else, with its quorum, and there is one to revoke |
| QuorumExact.RevokedRowIsAsked | src/authorization/finance-role-administration.service.ts:184-198 | it changes one active assignment, only to say by whom and when |
| QuorumExact.ReadyForOneChange | src/authorization/finance-role-administration.service.ts:209-224 | an approval is ready for one change only |
| QuorumProperties.CollectedFacts | src/authorization/finance-role-administration.service.ts:234-249 | a loop that gets through has consumed as many different rows as ids, each usable for exactly this change, and touched no other |
| QuorumProperties.GatheredQuorum | src/authorization/finance-role-administration.service.ts:250-253 | success means at least the minimum of different approvers, not the acting principal where that is prohibited |
| QuorumProperties.QuorumOverEveryRun | src/authorization/finance-role-administration.service.ts:156-254 | over every run, each done change that is not an initial assignment had its quorum, of unexpired approvals for its fingerprint given by others than their requesters |
| QuorumProperties.ApprovalSetsAreDisjoint | src/authorization/privileged-action-approval.service.ts:190-224 | the approvals behind different done changes of a run are disjoint |
| QuorumProperties.FingerprintIdentifiesChange | src/authorization/finance-role-administration.service.ts:209-224 | two changes have the same fingerprint if and only if operation, target, role, dates and expected version are the same |
| QuorumProperties.FirstDecides | src/authorization/finance-role-administration.service.ts:234-249 | the loop writes no approval row, or spends none, if and only if its first id does not, whatever the other ids are |
| QuorumProperties.ChangeSpendsExactly | src/authorization/finance-role-administration.service.ts:156-254 | an assignment or revocation, done or refused, uses approvals up if and only if it gets as far as its approvals and the first one is usable for it; it changes approval rows if and only if that one is usable or expired |
| QuorumProperties.OneActiveOverEveryRun | src/authorization/finance-role-administration.service.ts:255-305 | over every run, no role is actively assigned twice to the same principal |
| QuorumProperties.LateRefusalBurnsApprovals | src/authorization/finance-role-administration.service.ts:250-253 | once the loop got through all approvals are consumed, and the change is still forbidden exactly for too few approvers or self-approval |
| QuorumProperties.RefusalKeepsAssignments | src/authorization/finance-role-administration.service.ts:184-198 | a refused change leaves the assignments as they were |

## Left out

- ReachableIsConsistent: serializable isolation is assumed, not proved; each transaction is one atomic step.
- RateBound: tokens and rates are real numbers; IEEE rounding is not modelled, and storage errors other than the rejection are not.
- FingerprintIdentifiesRequest: SHA-256 is assumed injective; negative zero, NaN, lone surrogates and objects with `toJSON` are outside the values.
- FingerprintIdentifiesChange: an assignment reference keeps half of a digest; it is represented by the whole text, so collisions of the shortened digest are not modelled. ISO dates are represented by their instant.
- ScannerAgreesWithTree: number and word tokens are any nonempty run of their characters, which covers more than JSON; base64url decoding and the header checks around the scanner are not modelled.
- PlanReversal: the UUID of a reversed journal is compared letter by letter, also where the database ignores letter case.
- LifecycleOverEveryRun: interleaving inside one approval command is not modelled, nor are sessions, audit records and security events.
- RequestApproval: whether the authorization service allows a request, and its reason when it does not, is an input.
- QuorumOverEveryRun: interleaving inside one role change is not modelled; the signed bootstrap statement that creates the first administrator is not, so runs start from arbitrary assignments.
- PersistAssignment: the audit record an assignment row refers to is not modelled.
- CommitKeepsBank: payment reference sequence, outbox, audit and metrics are not part of this model, nor are the rules for changing a wallet's status; the stored message of a caught exception is represented by the exception.
- NoDeadlock: waits on unique indexes and transactions that post several journals are not in the lock model.
- Calculate: the fee's currency and payment type checks are not modelled.
- Row ids of ledger lines, timestamps of rows, views and read-only queries.
- Signature verification, JWKS retrieval, OIDC sessions, customer onboarding, compliance, beneficiaries, limits, reports, controllers and user interfaces.
