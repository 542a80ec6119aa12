# Durable quote service: model and proofs

A quote is drafted, accepted, issued by a worker that renders and commits one formal document, emailed,
and finally expires or is cancelled. Many processes work on it at once, under leases, generations and
deadlines, over a database whose COMMIT may never be answered. This project models those protocols and
the code they rest on, and proves what the service promises about them.

`dafny verify dfyconfig.toml` checks everything.

## How the model is built

- `Rows.dfy` holds the rows of one quote as one value, a `Cell`: quote, issuance operations, manifest,
  deliveries, audit entries. Every transaction of the service locks one quote and writes only its rows.
  Delivery status `pending` is `Queued` here and `failed` is `Undelivered`; an operation keeps the source's
  four statuses.
- `Issuance.dfy`, `Deliveries.dfy`, `Expiry.dfy` and `Commands.dfy` give each transaction as a function of the
  cell and the instant it reads under its locks; `Transactions.dfy` collects them as `Apply`.
  `QuoteTables.dfy` is the imperative form of the transactions that branch: a class whose methods update the rows
  statement by statement and are proved to leave exactly what `Apply` says.
  `Sweeps.dfy` is the periodic jobs' loops, `Workers.dfy` the loops of one process's workers.
- `CellInvariants.dfy` proves what every transaction keeps; `Guarantees.dfy` says what that means; `Answers.dfy`,
  `DeliveryAnswers.dfy` and `CommandAnswers.dfy` say exactly when each transaction gives each answer and what it leaves,
  and `EveryRun.dfy` states the main ones for every quote after every run of the whole service.
- `Service.dfy` is the whole service as a state machine: tables, issuance and delivery workers, commands, jobs,
  provider calls, artifacts, and COMMITs that are answered, unanswered and applied, unanswered and lost, or still in
  doubt on the server with their locks held. A run is any sequence of steps; a disabled step changes nothing.
  `ServiceSafety.dfy`, `IssuerSafety.dfy`, `GivingUp.dfy`, `EmailSafety.dfy`, `ProviderTruth.dfy`, `AtMostOnce.dfy` and
  `ExpiryTransparency.dfy` prove properties of every run; `ResendRun.dfy` and `CommitRuns.dfy` build runs;
  `WorkerPhases.dfy` shows that the workers of every run follow the loops of `Workers.dfy`.
- `KeyedService.dfy` puts the idempotency keys of commands over the service: bindings are committed with their effects,
  a bound key only notes, and a scope stays locked while a COMMIT is in doubt.
- `Idempotency.dfy` (same-key requests), `LockOrder.dfy` (locks of all transactions) and `ArtifactStore.dfy` (publishers,
  probes, sweeps, crashes and power losses on a file system) are finer state machines of their own.
- `Arithmetic.dfy`, `Decimals.dfy`, `CommercialSnapshot.dfy`, `Validity.dfy`, `Jcs.dfy`, `Base64.dfy`, `HeaderText.dfy`,
  `Multipart.dfy` and `Keyset.dfy` are the pure and looping kernels.

## Assumptions

- One clock that never goes back, in milliseconds; a transaction reads it under its locks.
- SHA-256 is an uninterpreted function. Nothing assumes it injective: where a collision would matter, the
  statement speaks of length and hash, or exhibits the collision.
- A stored `numeric(.,6)` is the decimal padded to six fraction digits.
- Civil dates of the issuer zone never go back and no offset exceeds 14 hours (`Validity.ZoneOk`).
- Nobody else edits the database or the files.

## Where the code does less than a strong reading promises

- The delivery claim's unanswered-COMMIT branch adopts any `sending` row of its process. If the process already made
  a call for that row that may have been accepted, or has a completion in doubt that would queue the row again,
  a second call can follow. `AtMostOnce.AdoptionIsSafeIffClean` gives the exact condition,
  `ResendRun.SomeRunResends` a run from the empty service that violates it.
- The fenced commit checks neither lease nor deadline: `Guarantees.CommitNeedsOnlyTheFence` is the exact condition,
  `CommitRuns.LateCommitSucceeds` a run that commits after both.
- STALE_FENCE and NOT_APPLIED do not mean that nothing was applied, or will be: `CommitRuns.StaleFenceMayBeCommitted`
  and `CommitRuns.NotAppliedMayStillLand` are runs from the empty service. `GivingUp.GivingUpIsFinalIff` says exactly when
  such an answer is the last word on the attempt, `GivingUp.GivingUpIsFinalForeverIff` on its fence: as long as the fence
  holds, the process may adopt its row again after an unanswered claim and commit it. COMMITTED is always durable.
- Adding the included tax back to a net amount does not always give the gross amount. `Arithmetic.ReaddedTaxIsExactIff`
  is the exact condition, `CommercialSnapshot.NetLineCanCostMore` a line of the request schema that violates it; the
  difference is at most one peso.
- `publish` has no size limit and `readVerified` has one, so a published document is readable exactly up to
  16 MiB (`ArtifactStore.PublishedReadsOk`).

## Model

| member | source | states |
|---|---|---|
| AtMostOnce.AtMostOnceEmail | src/infrastructure/persistence/postgres/quote-v2-delivery-execution.ts:92-433 | in every run whose adoptions are clean, a provider call that may have been accepted is the last call of its delivery |
| AtMostOnce.AdoptionIsSafeIffClean | src/infrastructure/persistence/postgres/quote-v2-delivery-execution.ts:183-219 | adopting a `sending` row after an unanswered claim is safe if and only if this process made no possibly accepted call under its fence and has no completion in doubt that would reopen it |
| AtMostOnce.StepKeepsMail | src/application/quote-v2/delivery/delivery-worker.ts:133-188 | every step keeps: one worker per delivery acts, an unsent one knows of no risky call, rows with a risky call are under its fence or never handed out again |
| ResendRun.SomeRunResends | src/infrastructure/persistence/postgres/quote-v2-delivery-execution.ts:183-219 | without that condition some run from the empty service hands a delivery over twice, whatever the configuration |
| EmailSafety.EmailsCarryTheDocument | src/application/quote-v2/delivery/delivery-worker.ts:191-290 | every message handed to the provider carries the committed document's bytes, and a reported SENT, FAILED or UNKNOWN is the row's final status |
| IssuerSafety.IssuedQuotesHaveTheirBytes | src/infrastructure/persistence/postgres/issuance-operations.ts:390-466 | in every run: one manifest at most, held by the only succeeded and current operation, required by issued and expired, its bytes at its address; at most one active operation, the current one of an issuing quote |
| IssuerSafety.CommittedIsDurable | src/infrastructure/persistence/postgres/issuance-operations.ts:363-388 | a COMMITTED result, answered or reconciled in two tries, stays true in every continuation |
| GivingUp.GivingUpIsFinalIff | src/infrastructure/persistence/postgres/issuance-operations.ts:363-388 | in every run, what a worker submitted is committed after its STALE_FENCE or NOT_APPLIED, with nobody taking its fence up again, if and only if it already was, or a commit of its fence with a matching hash is in doubt while the fence holds |
| GivingUp.ReadBackIsExact | src/infrastructure/persistence/postgres/issuance-operations.ts:363-388 | in every run the row read after an unanswered COMMIT gives COMMITTED exactly if this attempt issued the quote, and one more try exactly if the fence holds and none was made |
| GivingUp.GivingUpIsFinalForeverIff | src/infrastructure/persistence/postgres/issuance-operations.ts:148-167 | with the adoption of the running row included: something is committed under the fence after that answer if and only if it already was, or the fence still holds |
| CommitRuns.NotAppliedMayStillLand | src/infrastructure/persistence/postgres/issuance-operations.ts:363-388 | a run from the empty service concludes NOT_APPLIED with nothing committed, and the commit lands afterwards |
| CommitRuns.StaleFenceMayBeCommitted | src/infrastructure/persistence/postgres/issuance-operations.ts:363-388 | a run from the empty service is answered STALE_FENCE for its own committed attempt |
| CommitRuns.LateCommitSucceeds | src/infrastructure/persistence/postgres/issuance-operations.ts:390-413 | a run from the empty service commits strictly after lease and deadline |
| IssuerSafety.IntegrityErrorsAreDead | src/infrastructure/persistence/postgres/issued-snapshot-loader.ts:249-268 | in every run the snapshot a worker loads hashes to what its operation was accepted with, and its commit is answered COMMITTED or STALE_FENCE |
| EveryRun.FencingInEveryRun | src/infrastructure/persistence/postgres/issuance-operations.ts:503-553 | after every run, in both protocols: generation is the attempt count plus one exactly if a sweep ended the row, and one end is logged exactly if it ended |
| EveryRun.NoStuckOperationInAnyRun | src/infrastructure/persistence/postgres/issuance-operations.ts:120-147 | after every run and at every instant an active operation is in exactly one of four situations, sweepable past its deadline, its attempts bounded |
| EveryRun.LogRefinesEveryRun | src/infrastructure/persistence/postgres/quote-v2-acceptance.ts:62-97 | after every run the audit log is numbered 1..n, chains, leads to the stored status, and no two entries share a version |
| EveryRun.ErrorsAreDeadInEveryRun | src/infrastructure/persistence/postgres/quote-v2-drafts.ts:282-293 | no transaction submitted on an existing quote in any run is answered with a thrown invariant error |
| EveryRun.SnapshotsAreFrozen | src/infrastructure/persistence/postgres/quote-v2-acceptance.ts:363-426 | from acceptance on, every continuation of every run keeps the snapshot, and every operation carries its hash |
| ServiceSafety.RunKeepsInv | src/infrastructure/persistence/postgres/postgres.ts:67-89 | tables, COMMITs in doubt, stored documents and reported successes stay consistent in every run |
| ServiceSafety.ManifestMoves | src/infrastructure/persistence/postgres/issuance-operations.ts:390-466 | only a fenced commit writes a manifest, with the document it carries, and no transaction changes one |
| ExpiryTransparency.ExpiryJobIsTransparent | src/infrastructure/persistence/postgres/quote-v2-expiry.ts:51-90 | dropping every job step from a run, however its COMMITs end, with the transactions that only waited for its locks, changes no effective status, no `expiredAt`, no answer code, no call, no document and no worker |
| ExpiryTransparency.WithoutJobKeepsTheRest | src/infrastructure/persistence/postgres/quote-v2-expiry.ts:51-90 | what is dropped besides the job changed nothing when it ran |
| ExpiryTransparency.SameTransaction | src/application/quote-v2/expiry.ts:26-45 | past validity every transaction has the same effect and code on a materialized and an unmaterialized quote |
| ExpiryTransparency.CancelAlike | src/infrastructure/persistence/postgres/quote-v2-cancel.ts:44-71 | past validity a cancel is refused identically on the stored and on the projected status |
| Idempotency.CommandsAreLinearizable | src/infrastructure/persistence/postgres/quote-v2-acceptance.ts:260-313 | any interleaving commits and answers what the committed requests would one at a time, and `already_bound` is unreachable |
| Idempotency.ExactlyOnceCommands | src/infrastructure/persistence/postgres/quote-v2-acceptance.ts:260-313 | all heard answers of a scope name the one effect's resource, or conflict with the bound fingerprint |
| Idempotency.AtMostOneEffect | src/infrastructure/persistence/postgres/idempotency-binding-store.ts:65-86 | a scope has exactly one committed effect if it is bound and none if not |
| KeyedService.CommandsTakeEffectOnce | src/infrastructure/persistence/postgres/quote-v2-acceptance.ts:260-313 | over the service itself, in every run, a scope has exactly one committed command if it is bound and none if not, and all answers are the serial ones |
| KeyedService.KeyedRunsAreServiceRuns | src/infrastructure/persistence/postgres/quote-v2-acceptance.ts:470-532 | a run with keys is a run of the service, so all its guarantees hold of it |
| KeyedService.RepeatedKeysOnlyNote | src/infrastructure/persistence/postgres/quote-v2-acceptance.ts:276-290 | in every run a request with a bound key changes nothing but the audit log of the bound quote |
| LockOrder.NoDeadlock | src/infrastructure/persistence/postgres/issuance-operations.ts:39-43 | with any number of transactions no wait-for path closes, and none is longer than three |
| LockOrder.SomebodyCanProceed | src/infrastructure/persistence/postgres/quote-v2-delivery-execution.ts:23-28 | every blocked transaction waits, through others, for one that can proceed |
| LockOrder.ProgramsAreOrdered | src/infrastructure/persistence/postgres/issuance-operations.ts:669-688 | every transaction of the service takes its locks in order, whatever SKIP LOCKED finds |
| LockOrder.LockedAgainIsHeld | src/infrastructure/persistence/postgres/quote-v2-acceptance.ts:62-97 | a row locked again for an audit entry is held already, or was passed over by SKIP LOCKED, so it is never waited for |
| CellInvariants.KeepsInv | src/infrastructure/persistence/postgres/issuance-operations.ts:116-658 | every transaction keeps lifecycle, schedules, log, accounting and the frozen snapshot of a quote |
| CellInvariants.KeepsLifecycle | src/infrastructure/persistence/postgres/quote-v2-cancel.ts:28-137 | every transaction keeps quote status, current operation, manifest and deliveries in step |
| CellInvariants.ClaimKeepsSchedule | src/infrastructure/persistence/postgres/issuance-operations.ts:116-187 | a claim keeps leases within the deadline and attempts a gap apart |
| CellInvariants.FailureKeepsSchedule | src/infrastructure/persistence/postgres/issuance-operations.ts:236-346 | a failed attempt keeps the next attempt within the deadline and a gap away |
| CellInvariants.CancelSettles | src/infrastructure/persistence/postgres/quote-v2-cancel.ts:84-128 | a cancel logs exactly one end per delivery it fails |
| CellInvariants.RewrittenReadsAsPatched | src/infrastructure/persistence/postgres/quote-v2-drafts.ts:204-238 | the stored rows of an edited draft read back as the edited draft |
| CellInvariants.DraftsStartValid | src/infrastructure/persistence/postgres/quote-v2-drafts.ts:137-179 | every schema-valid draft is created, with a valid log |
| CellInvariants.AcceptedQuotesStartValid | src/infrastructure/persistence/postgres/quote-v2-acceptance.ts:470-532 | create-and-issue leaves a valid issuing quote with its pending operation |
| Guarantees.ExactlyOneIssuance | src/infrastructure/persistence/postgres/issuance-operations.ts:390-466 | the manifest's operation is the succeeded, current and only one, with the manifest's hash |
| Guarantees.SpentFencesAreHarmless | src/infrastructure/persistence/postgres/issuance-operations.ts:89-90 | over any run of transactions a spent fence stays spent, and renewals, failures, commits and completions under it change nothing |
| Guarantees.ClaimIssuesTheOnlyFence | src/infrastructure/persistence/postgres/issuance-operations.ts:116-187 | a claim issues the next generation and spends every other fence |
| Guarantees.CommitNeedsOnlyTheFence | src/infrastructure/persistence/postgres/issuance-operations.ts:390-413 | a commit succeeds if and only if its fence holds and its hash matches |
| Guarantees.EndingsAbsorb | src/infrastructure/persistence/postgres/issuance-operations.ts:691-701 | ended operations, manifests and final quotes never change |
| Guarantees.DeliveryEndingsAbsorb | src/infrastructure/persistence/postgres/quote-v2-delivery-execution.ts:288-433 | sent, failed and unknown deliveries never change |
| Guarantees.FencingAccounting | src/infrastructure/persistence/postgres/issuance-operations.ts:503-553 | generation is the attempt count plus one exactly if a sweep ended the row; one end is logged exactly if it ended |
| Guarantees.NoOperationIsStuck | src/infrastructure/persistence/postgres/issuance-operations.ts:120-147 | an active operation is claimable, backing off, leased or sweepable, exactly one of them, and sweepable after the deadline |
| Guarantees.NoDeliveryIsStuck | src/infrastructure/persistence/postgres/quote-v2-delivery-execution.ts:92-130 | an unfinished delivery is due, waiting within 24 hours, leased, or taken by the sweep |
| Guarantees.AttemptsAreBounded | src/application/quote-v2/issuance-operation.ts:20-30 | (attempts - 1) * min(5 s, lease) is less than the time to the deadline |
| Guarantees.LogRefinesStateMachine | src/infrastructure/persistence/postgres/quote-v2-acceptance.ts:62-97 | sequences are 1..n, status entries chain and lead to the stored status, versions count the version entries |
| Guarantees.VersionsAreDistinct | src/infrastructure/persistence/postgres/quote-v2-drafts.ts:76-95 | no two entries carry the same version |
| Guarantees.CommandsUseVersionsOnce | src/infrastructure/persistence/postgres/quote-v2-drafts.ts:76-95 | over any run no two successful edits, issues or cancels of a quote expect the same version |
| Guarantees.ThrownErrorsAreDead | src/infrastructure/persistence/postgres/quote-v2-drafts.ts:282-293 | diverging totals, invalid stored data, snapshot differences, missing manifests and the unique-index errors never occur |
| Guarantees.AcceptedSnapshotIsFrozen | src/infrastructure/persistence/postgres/issued-snapshot-loader.ts:153-198 | from acceptance on no transaction changes the snapshot, and every operation carries its hash |
| Answers.RefusalsChangeNothing | src/infrastructure/persistence/postgres/postgres.ts:67-89 | every refusal, fence miss or thrown error leaves the rows unchanged |
| Answers.ClaimIsGrantedIff | src/infrastructure/persistence/postgres/issuance-operations.ts:116-187 | a claim is granted if and only if the operation is due before its deadline, and hands out the next generation, the next attempt and the row's hash |
| Answers.LeasesLastTheirLength | src/infrastructure/persistence/postgres/issuance-operations.ts:137-147 | after a claim or a renewal at `now` another claim at t is granted if and only if `now + leaseMs < t < deadline`, and the sweep takes it exactly from there |
| Answers.RenewalIsGrantedIff | src/infrastructure/persistence/postgres/issuance-operations.ts:189-222 | a renewal is granted to the holder before the deadline only, and moves nothing but the end of the lease |
| Answers.FailureIsAnswered | src/infrastructure/persistence/postgres/issuance-operations.ts:236-346 | which of the four answers a reported failure gets, and the instant it is rescheduled to: 5 s, 30 s, 2, 10, 30 or 60 min by the attempts, at most the deadline |
| Answers.FailureWaits | src/application/quote-v2/issuance-operation.ts:20-30 | a rescheduled operation can be claimed exactly after its wait and before the deadline, an ended one never |
| Answers.FailureIsLogged | src/infrastructure/persistence/postgres/issuance-operations.ts:253-321 | the entry of each failure, and that no other row moves |
| Answers.CommitIsAnswered | src/infrastructure/persistence/postgres/issuance-operations.ts:390-466 | which answer a fenced commit gets, and the manifest, quote and entry of one that applies |
| Answers.DeadlineSweepIsAnswered | src/infrastructure/persistence/postgres/issuance-operations.ts:503-553 | the sweep fails exactly the operations at their deadline that nobody holds, and fences their holder out |
| Answers.RetryIsAnswered | src/infrastructure/persistence/postgres/issuance-operations.ts:564-658 | an operator retry is created exactly for the failed current operation, claimable from now for the whole configured deadline, with the accepted hash |
| Answers.ExpiryIsAnswered | src/infrastructure/persistence/postgres/quote-v2-expiry.ts:66-86 | the job materializes exactly the issued quotes at or past their validity, with its end as `expiredAt` |
| CommandAnswers.DraftHoldsTheRequest | src/infrastructure/persistence/postgres/quote-v2-drafts.ts:137-179 | a draft is created exactly from a schema-valid request, and its rows read back as that request with its totals |
| CommandAnswers.CreateAndIssueIsAnswered | src/infrastructure/persistence/postgres/quote-v2-acceptance.ts:470-532 | when a create-and-issue is accepted, mismatching expected totals being refused as such |
| CommandAnswers.IssuedHoldsTheRequest | src/infrastructure/persistence/postgres/quote-v2-acceptance.ts:486-529 | rows, frozen snapshot and hash of a quote issued at once are those of the request, and its operation can be claimed at once |
| CommandAnswers.CreatedDraftsHoldTheirRequest | src/infrastructure/persistence/postgres/quote-v2-drafts.ts:137-179 | in the service a created draft holds its request and no other row moves |
| CommandAnswers.CreatedIssuesHoldTheirRequest | src/infrastructure/persistence/postgres/quote-v2-acceptance.ts:470-532 | and so does a quote created and issued at once |
| CommandAnswers.EditIsAnswered | src/infrastructure/persistence/postgres/quote-v2-drafts.ts:186-248 | when an edit is accepted, and which refusal the first failing check gives |
| CommandAnswers.EditIsLogged | src/infrastructure/persistence/postgres/quote-v2-drafts.ts:204-248 | an accepted edit takes and logs the next version and moves content and totals only |
| CommandAnswers.EditsReadBack | src/infrastructure/persistence/postgres/quote-v2-drafts.ts:204-238 | an edited draft reads back with present members replaced, others unchanged, and the totals of what it reads |
| CommandAnswers.IssueIsAnswered | src/infrastructure/persistence/postgres/quote-v2-drafts.ts:256-301 | when a draft is issued, and which refusal the first failing check gives |
| CommandAnswers.IssueFreezesTheDraft | src/infrastructure/persistence/postgres/quote-v2-acceptance.ts:363-426 | issuing freezes the draft as it is, with one operation that carries its hash and can be claimed from the issue instant to the deadline |
| CommandAnswers.CancelIsAnswered | src/infrastructure/persistence/postgres/quote-v2-cancel.ts:39-77 | when a cancel is accepted, and which refusal the first failing check gives, the state before the version |
| CommandAnswers.CancelFailsQueuedOnly | src/infrastructure/persistence/postgres/quote-v2-cancel.ts:79-130 | a cancel fails exactly the queued deliveries and moves no other row but the quote |
| CommandAnswers.CancelledIsNotEmailed | src/infrastructure/persistence/postgres/quote-v2-delivery-execution.ts:119-154 | over any run after a cancel no delivery of the quote is handed out again |
| DeliveryAnswers.RequestIsAnswered | src/infrastructure/persistence/postgres/quote-v2-deliveries.ts:112-170 | an email request is accepted if and only if it is complete, its id is fresh, the quote is issued and now is before the end of its validity; otherwise the first defect is named |
| DeliveryAnswers.RequestedIsQueued | src/infrastructure/persistence/postgres/quote-v2-deliveries.ts:158-210 | an accepted request queues one row pinned to the committed document, claimable at once while the quote is valid |
| DeliveryAnswers.DeliveryClaimIsAnswered | src/infrastructure/persistence/postgres/quote-v2-delivery-execution.ts:92-182 | a delivery is handed out exactly when due on a quote still issued, and a due one is otherwise failed with the reason |
| DeliveryAnswers.DeliveryLeaseLastsItsLength | src/infrastructure/persistence/postgres/quote-v2-delivery-execution.ts:156-181 | a claimed delivery is nobody else's and is swept exactly after the configured lease |
| DeliveryAnswers.CompletionIsAnswered | src/infrastructure/persistence/postgres/quote-v2-delivery-execution.ts:288-348 | row, answer and entry are sent if and only if the provider accepted, unknown if and only if ambiguous, queued again if and only if a retry is permitted (retryable, six attempts, 24 hours), failed otherwise |
| DeliveryAnswers.CompletionMovesOneRow | src/infrastructure/persistence/postgres/quote-v2-delivery-execution.ts:288-348 | zero effect unless the fence holds, and otherwise one row moves, keeping its fence, attempts and document |
| DeliveryAnswers.ReadBackFindsTheCompletion | src/infrastructure/persistence/postgres/quote-v2-delivery-execution.ts:349-378 | reading the row back finds a completion that landed, and none that did not |
| DeliveryAnswers.DeliverySweepIsAnswered | src/infrastructure/persistence/postgres/quote-v2-delivery-execution.ts:403-429 | the sweep resolves exactly the rows past their lease as unknown and fences their holder out |
| ProviderTruth.SentMeansAccepted | src/infrastructure/persistence/postgres/quote-v2-delivery-execution.ts:270-348 | in every run a delivery that is sent, or reported sent, had a call the provider accepted; one its holder left or reported unknown had an ambiguous call |
| QuoteTables.Tables.Claim | src/infrastructure/persistence/postgres/issuance-operations.ts:116-187 | the updated rows and the answer are the specified claim |
| QuoteTables.Tables.FailAttempt | src/infrastructure/persistence/postgres/issuance-operations.ts:236-346 | the updated rows, the entry and the answer are the specified failure |
| QuoteTables.Tables.CommitIssued | src/infrastructure/persistence/postgres/issuance-operations.ts:390-466 | manifest, operation, quote and entry are those of the specified commit |
| QuoteTables.Tables.OperatorRetry | src/infrastructure/persistence/postgres/issuance-operations.ts:564-658 | the new operation, the quote and the entry are those of the specified retry |
| QuoteTables.Tables.RequestDelivery | src/infrastructure/persistence/postgres/quote-v2-deliveries.ts:112-210 | checks in the source's order, and the specified row and entry |
| QuoteTables.Tables.ClaimDelivery | src/infrastructure/persistence/postgres/quote-v2-delivery-execution.ts:92-182 | the updated row and the answer are the specified claim |
| QuoteTables.Tables.CompleteDelivery | src/infrastructure/persistence/postgres/quote-v2-delivery-execution.ts:288-348 | the updated row, the entry and the answer are the specified completion |
| QuoteTables.Tables.UpdateDraft | src/infrastructure/persistence/postgres/quote-v2-drafts.ts:186-248 | member by member rewriting leaves the specified draft |
| QuoteTables.Tables.IssueDraft | src/infrastructure/persistence/postgres/quote-v2-drafts.ts:256-314 | freezing and creating the operation leave the specified rows |
| QuoteTables.Tables.LogCancelled | src/infrastructure/persistence/postgres/quote-v2-cancel.ts:115-130 | one entry per failed delivery in id order |
| QuoteTables.Tables.CancelQuote | src/infrastructure/persistence/postgres/quote-v2-cancel.ts:28-137 | the updated quote, deliveries and entries are those of the specified cancel |
| Sweeps.Store.Sweep | src/infrastructure/persistence/postgres/issuance-operations.ts:503-553 | one locked re-check per candidate, reporting exactly those still due, and leaving the rows the service's transactions of the candidates leave |
| Sweeps.SweepsAreIdempotent | src/infrastructure/persistence/postgres/quote-v2-delivery-execution.ts:392-433 | sweeping the same candidates again changes and reports nothing |
| Workers.DeliveryWorker.Tick | src/application/quote-v2/delivery/delivery-worker.ts:101-188 | every effect is what the surroundings answered; claims count and end only for the stated reasons; a prepared message is sent exactly unless the process stops or too little lease is left; every learned outcome is reported; only a claim that throws escapes, and the slot is released |
| Workers.OneSendPerClaim | src/application/quote-v2/delivery/delivery-worker.ts:133-188 | a legal sequence of effects never has more sends than claims |
| Workers.IssuanceWorker.Tick | src/application/quote-v2/issuance-worker.ts:207-234 | attempts run one by one in the single slot, each effect what the surroundings answered, ending only for the stated reasons; claims heed a stop and a shutdown, rendering, publishing and committing the aborted signal (stop, lost lease, deadline); only a claim or a recording that throws escapes, and the slot is released |
| Workers.FailuresAreRecordedUnless | src/application/quote-v2/issuance-worker.ts:300-311 | a failed attempt is recorded if and only if its lease is not lost and `stop` was not called, so also when the deadline alone aborted it or the process is only shutting down |
| Workers.StopIsFinal | src/application/quote-v2/issuance-worker.ts:261-290 | from a `stop` on a worker claims, renders, publishes, commits and records nothing |
| Workers.IssuanceWorker.RunOperation | src/application/quote-v2/issuance-worker.ts:241-259 | the inline path never waits for a taken slot and runs the same attempt under the same rules |
| Workers.CommitsFollowPublications | src/application/quote-v2/issuance-attempt.ts:37-93 | what is committed was published, and what was published was rendered from a verified snapshot, in the same attempt |
| WorkerPhases.MailersFollowTheirLoop | src/application/quote-v2/delivery/delivery-worker.ts:133-188 | in every run of the service a delivery worker's effects are a legal sequence of its loop, with at most one send per leased row |
| WorkerPhases.IssuersFollowTheirLoop | src/application/quote-v2/issuance-worker.ts:260-328 | in every run of the service an issuance worker's effects are a legal sequence of its loop, failed and unread commits included |
| ArtifactStore.WriteOnce | src/infrastructure/documents/content-addressed-artifact-store.ts:132-180 | an address is absent or holds whole bytes that hash to it, and never changes; once synced not even over a power loss |
| ArtifactStore.PublishedForGood | src/infrastructure/documents/content-addressed-artifact-store.ts:132-180 | after a successful publish the address matches the bytes in every continuation |
| ArtifactStore.ConflictIsCollision | src/infrastructure/documents/content-addressed-artifact-store.ts:146-160 | an integrity conflict exhibits two different contents with one hash |
| ArtifactStore.ReadVerified | src/infrastructure/documents/content-addressed-artifact-store.ts:192-258 | the partial-read loop ends; OK means exact hash, length and size limit; an unchanging file gets the specified status |
| ArtifactStore.ReadsAreClassified | src/infrastructure/documents/content-addressed-artifact-store.ts:192-258 | which status each read gets, and OK exactly for the recorded length and hash within 16 MiB |
| ArtifactStore.PublishedReadsOk | src/infrastructure/documents/content-addressed-artifact-store.ts:192-258 | after a publish every later fault-free read is OK if and only if the bytes fit 16 MiB |
| Arithmetic.HalfUpIsNearest | src/application/quote-v2/arithmetic.ts:30 | half-up division is the one integer within half a unit, ties upwards |
| Arithmetic.ChargeCosts | src/application/quote-v2/arithmetic.ts:32-48 | for every price, quantity, basis and rate, by inequalities: extension, net, tax and gross of a charge |
| Arithmetic.NearestIsUnique | src/application/quote-v2/arithmetic.ts:30 | there is one nearest integer, so those inequalities determine every amount |
| Arithmetic.ChargeConserves | src/application/quote-v2/arithmetic.ts:32-48 | net plus tax is gross with no negative part |
| Arithmetic.ExtractionInvertsAddition | src/application/quote-v2/arithmetic.ts:32-48 | extracting the included tax of an excluded charge's gross returns its amounts, for every price, quantity and rate |
| Arithmetic.ReaddedTaxIsWithinOne | src/application/quote-v2/arithmetic.ts:32-48 | adding tax to an included charge's net lands within one of its gross |
| Arithmetic.ReaddedTaxIsExactIff | src/application/quote-v2/arithmetic.ts:32-48 | charging the net of an included price as an excluded price gives its amounts back if and only if the rest of dividing the scaled price by one plus the rate stays out of a band that starts above half a unit and is one rate wide |
| CommercialSnapshot.NetLineCostsTheSameIff | src/application/quote-v2/arithmetic.ts:32-48 | the same for every line of a schema-valid request |
| CommercialSnapshot.NetLineCanCostMore | src/application/quote-v2/create-quote-request.ts:16-19 | a schema-valid line in the band: 1 at rate 1 included is charged as 2 |
| Arithmetic.TotalsAreOrderIndependent | src/application/quote-v2/arithmetic.ts:50-60 | totals do not depend on the order of the charges |
| Arithmetic.TotalsConserve | src/application/quote-v2/arithmetic.ts:50-60 | totals keep net plus tax equal to gross, and exempt net within net |
| Arithmetic.TotalsAreSums | src/application/quote-v2/arithmetic.ts:50-60 | each total is the sum of that amount over all charges, the exempt net that over the exempt ones |
| CommercialSnapshot.LineCosts | src/infrastructure/persistence/postgres/quote-v2-acceptance.ts:131-149 | a line costs its price times the value of its quantity text, taxed at the value of its rate text |
| CommercialSnapshot.ShippingCosts | src/infrastructure/persistence/postgres/quote-v2-acceptance.ts:131-149 | shipping is charged once at its amount |
| CommercialSnapshot.TotalsCoverTheRequest | src/infrastructure/persistence/postgres/quote-v2-acceptance.ts:131-149 | the totals are the sums over the lines and the shipping |
| Decimals.CanonicalUndoesPadding | src/application/quote-v2/arithmetic.ts:63-65 | a decimal of the request grammars survives column padding and canonicalization |
| Decimals.PaddingKeepsValue | src/infrastructure/persistence/postgres/issued-snapshot-loader.ts:91 | the text of a stored decimal has six fraction digits and the scaled value that was requested |
| Decimals.GrammarsBoundValues | src/application/quote-v2/create-quote-request.ts:16-18 | the grammars bound quantities by 9999.999999 and rates by 1 |
| Decimals.QuantitiesAreExactly | src/application/quote-v2/create-quote-request.ts:16-18 | exactly the values from 0.000001 to 9999.999999 in millionths can be written as quantities |
| Decimals.RatesAreExactly | src/application/quote-v2/create-quote-request.ts:16-18 | and exactly those from 0.000001 to 1 as rates |
| Decimals.TextsAreUnique | src/application/quote-v2/create-quote-request.ts:16-18 | two texts of the grammars with one value are the same text |
| Decimals.ScaledIsValue | src/application/quote-v2/arithmetic.ts:20-28 | the scaled value of a text is its decimal value times 10^6 |
| CommercialSnapshot.OverflowIsDead | src/infrastructure/persistence/postgres/quote-v2-acceptance.ts:131-149 | for schema-valid requests no amount overflows and every total is exact |
| CommercialSnapshot.SchemaIsExactly | src/application/quote-v2/create-quote-request.ts:95-140 | which requests the schema admits, as far as lines, quantities, prices and rates go |
| CommercialSnapshot.ReadBackStored | src/infrastructure/persistence/postgres/issued-snapshot-loader.ts:92 | what is stored reads back as what was requested |
| Validity.StartOfLocalDate | src/application/quote-v2/validity.ts:35-51 | the binary search ends at the least instant whose civil date reaches the target |
| Validity.ResolveValidity | src/application/quote-v2/validity.ts:88-114 | an override is refused exactly outside issue date to 365 days later; otherwise issue precedes the end and an instant is before the end exactly while its civil date is at most the last day |
| Validity.AddDaysWalksTheCalendar | src/application/quote-v2/validity.ts:24-28 | adding days steps through the calendar, over month ends and leap years |
| Validity.MonthStarts | src/application/quote-v2/validity.ts:24-28 | where each month starts in a common and in a leap year |
| Validity.TextOrderIsDateOrder | src/application/quote-v2/validity.ts:95-99 | comparing dates as text compares the dates |
| Validity.UnexpiredThroughLastDay | src/application/quote-v2/expiry.ts:26-28 | a quote is unexpired exactly while the civil date is at most its last day |
| Validity.StartIsFirstInstant | src/application/quote-v2/validity.ts:35-51 | the start of a date is unique, and lies on the date whenever any instant does |
| Validity.FixedOffsetsAreZones | src/application/quote-v2/validity.ts:35-51 | every fixed offset below 14 hours satisfies what is assumed of the issuer zone |
| Jcs.CanonicalTextParsesBack | src/application/quote/canonical-json.ts:67-81 | a parser recovers every JSON value, members sorted, from its canonical text |
| Jcs.CanonicalTextIsUnambiguous | src/application/quote/canonical-json.ts:67-81 | two values have the same text if and only if they are equal up to member order |
| Jcs.CanonicalizeRendersNormal | src/application/quote/canonical-json.ts:76-81 | sorting rendered members by key is rendering the sorted members |
| Jcs.LessIsByFirstDifference | src/application/quote/canonical-json.ts:76-81 | keys are ordered by their first differing UTF-16 code unit, prefixes first |
| Jcs.EscapesAreMinimal | src/application/quote/canonical-json.ts:67-75 | only control characters, the quote, the backslash and lone surrogates are escaped, and how |
| HeaderText.EncodeHeaderText | src/infrastructure/email/mime-message.ts:71-99 | plain text is unchanged, other text becomes words of whole code points within 75 characters, each filled as far as it goes, and every header decodes back |
| HeaderText.WordsAreStandard | src/infrastructure/email/mime-message.ts:71-99 | the delimiters of RFC 2047, and UTF-8 of one to four bytes |
| Base64.DecodeUndoesEncode | src/infrastructure/email/mime-message.ts:85-98 | base64 decodes to the bytes it encodes |
| Base64.AlphabetIsStandard | src/infrastructure/email/mime-message.ts:85-98 | the alphabet and the padding are those of RFC 4648 |
| Multipart.MessageBodyReadsBack | src/infrastructure/email/mime-message.ts:152-190 | splitting the nested text by its boundaries gives back exactly the parts and their bytes |
| Multipart.NestedPartsHaveNoDelimiter | src/infrastructure/email/mime-message.ts:115 | no inner line starts an outer delimiter, whatever the random tokens |
| Multipart.Base64LinesArePlain | src/infrastructure/email/mime-message.ts:114 | body lines fit 76 columns, start no delimiter and join to the encoded text |
| Multipart.LinesAreFull | src/infrastructure/email/mime-message.ts:114 | every body line but the last is exactly 76 columns |
| Multipart.HeadersAreStandard | src/infrastructure/email/mime-message.ts:115-161 | the Content-Type, boundary and delimiter texts of each multipart |
| Multipart.BuiltLeavesAreGood | src/infrastructure/email/mime-message.ts:117-150 | whatever names pass the checks, the headers written are safe to enclose |
| Keyset.ReadToEnd | src/infrastructure/persistence/postgres/quote-v2-reads.ts:580-647 | following cursors returns every row once and in order, for any page size |
| Keyset.ScansUnderAppends | src/infrastructure/persistence/postgres/quote-v2-reads.ts:671-715 | an audit scan that ends returned exactly the log its last page saw, whatever was appended meanwhile |
| Keyset.ListQuotes | src/infrastructure/persistence/postgres/quote-v2-reads.ts:580-647 | the quote list, newest first, returns every listed quote once and in order for any page size |
| Keyset.ListAudit | src/infrastructure/persistence/postgres/quote-v2-reads.ts:671-715 | the audit list returns exactly the stored log of a quote for any page size |
| Keyset.VerifyArtifacts | src/infrastructure/documents/document-artifact-verifier.ts:59-132 | a complete report counts every manifest once, by status, for any batch size; a stopped one counts a prefix |
| Keyset.CountsAddUp | src/infrastructure/documents/document-artifact-verifier.ts:59-132 | the counts of the statuses add up to the rows checked |

## Left out

- HTTP routes, authentication, environment, health, monitoring, job timing, CLI: plumbing with shallow properties. A job step may happen at any time.
- Body schemas beyond lines, charges and versions, and the principals' scopes: a request is a value that is well formed or not; visibility is a flag of the request.
- SQL text, isolation and triggers: each transaction is its effect. While a COMMIT on a quote is in doubt the model lets every other transaction on that quote wait; in the code a claim or renewal in doubt locks only its operation row, so a rejection or an idempotency note could still pass it.
- ExpiryTransparency.ExpiryJobIsTransparent: a transaction that waits for the lock of a job's COMMIT in doubt is a step that changes nothing; when it is submitted again is up to the run.
- KeyedService.CommandsTakeEffectOnce: the look-up, the effect and the binding are one transaction there; `Idempotency.dfy` interleaves them and allows two scopes to share a lock.
- Renewals, the two sweeps and the expiry of one quote are modelled on values only (`Issuance.dfy`, `Deliveries.dfy`, `Expiry.dfy`); the loops of the sweeps are in `Sweeps.dfy`.
- The time of the database: `updated_at`, `occurred_at` and `sent_at` are not kept, and `requested_at` is the instant read under the lock, not the transaction's start.
- The issue instant, the quote number and the validity are chosen by the run (`Commands.IssueTerms`); `Validity.dfy` says how validity is resolved. Reason codes, notes, correlation ids, recipients and error details are dropped.
- Lease renewal timers and the monotonic send budget: a worker may renew, abandon or skip the call at any moment. Results of renewals and failed attempts that were never answered are not tracked, because no later step depends on them.
- Several quotes in one expiry transaction: each is its own step.
- Fonts, branding, PDF and HTML rendering, the Gmail adapter, template text, masking: foreign or presentational; rendering returns any bytes, the provider any of its port's three outcomes.
- Message headers other than the encoded text (From, To, Message-ID, Date) and mailbox syntax: fixed formats.
- Jcs.CanonicalTextIsUnambiguous: a number stands for its ECMAScript text; that text identifies the number by the language's own definition.
- Validity.StartOfLocalDate: dates from year 1 on, as no window fits before the first year.
- Keyset.ReadToEnd: the filter is applied before; cursor encoding and the fingerprint of the filter are not part of this model.
- Keyset.VerifyArtifacts: the final ordering of the problems by quote id and the legacy byte-length write.
- Migrated V1 data, whose rows may lack what the invariants require.
- File handle faults beyond open, write, link, read and unlink; a fault may make any publication fail at any point.
