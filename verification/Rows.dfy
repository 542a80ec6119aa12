/**
 * Rows of one quote: the quote, its issuance operations, its committed manifest,
 * its deliveries and its audit entries. Every transaction of the service locks one
 * quote row and writes only rows of that quote, so the rows are grouped per quote.
 */
module Rows {
  import opened Wrappers
  import opened Arithmetic
  import opened CommercialSnapshot

  type QuoteId = nat
  type OperationId = nat
  type DeliveryId = nat
  type Principal = nat
  type Owner = nat
  type Digest = nat
  type Bytes = seq<nat>

  /** What issue acceptance allocates and freezes: instant, number and validity. */
  datatype Issue = Issue(issuedAt: nat, number: nat, throughLocalDate: nat, validUntil: nat)

  datatype IssuedSnapshot = IssuedSnapshot(quote: QuoteId, commercial: Commercial, totals: Totals, issue: Issue)

  /** Lease and deadline settings, and the two hashes the service relies on. */
  datatype Config = Config(
    leaseMs: pos,
    deliveryLeaseMs: pos,
    deadlineMs: pos,
    snapshotHash: IssuedSnapshot -> Digest,
    sha256: Bytes -> Digest)

  datatype QuoteStatus = Draft | Issuing | Issued | Expired | Cancelled

  datatype Quote = Quote(
    id: QuoteId,
    status: QuoteStatus,
    version: nat,
    creator: Principal,
    content: Commercial,
    totals: Totals,
    issue: Option<Issue>,
    currentOperation: Option<OperationId>,
    expiredAt: Option<nat>)

  datatype OperationStatus = Pending | Running | Succeeded | Failed

  datatype Operation = Operation(
    status: OperationStatus,
    generation: nat,
    attempts: nat,
    leaseOwner: Option<Owner>,
    leaseExpiresAt: Option<nat>,
    acceptedAt: nat,
    deadlineAt: nat,
    nextAttemptAt: Option<nat>,
    lastAttemptAt: Option<nat>,
    completedAt: Option<nat>,
    snapshotHash: Digest,
    retryOf: Option<OperationId>)

  datatype OperationFence = OperationFence(operation: OperationId, generation: nat, owner: Owner)

  datatype Attempt = Attempt(fence: OperationFence, snapshotHash: Digest, reclaimed: bool)

  /** What the manifest commit records about the published bytes. */
  datatype Document = Document(snapshotHash: Digest, pdfSha256: Digest, byteLength: nat)

  datatype Manifest = Manifest(operation: OperationId, document: Document, generatedAt: nat)

  datatype DeliveryStatus = Queued | Sending | Sent | Undelivered | Unknown

  datatype DeliveryError =
    | QuoteExpiredError | QuoteCancelledError | QuoteNotIssuedError | OutcomeUnknownError | AttemptError(code: nat)

  datatype Delivery = Delivery(
    status: DeliveryStatus,
    generation: nat,
    attempts: nat,
    leaseOwner: Option<Owner>,
    leaseExpiresAt: Option<nat>,
    requestedAt: nat,
    nextAttemptAt: Option<nat>,
    lastAttemptAt: Option<nat>,
    documentSha256: Digest,
    lastError: Option<DeliveryError>)

  datatype DeliveryFence = DeliveryFence(delivery: DeliveryId, generation: nat, owner: Owner)

  /** Why an issuance operation ended without a manifest. */
  datatype FailureCause = NonRetryable | DeadlineByHolder | DeadlineBySweep

  datatype Event =
    | DraftCreated(version: nat)
    | DraftUpdated(version: nat)
    | IssueAccepted(operation: OperationId, retryOf: Option<OperationId>, version: nat)
    | QuoteIssued(operation: OperationId, version: nat)
    | QuoteExpired(version: nat)
    | QuoteCancelled(version: nat)
    | AttemptFailed(operation: OperationId, generation: nat)
    | IssueFailed(operation: OperationId, cause: FailureCause, generation: nat)
    | DeliveryRequested(delivery: DeliveryId)
    | DeliverySent(delivery: DeliveryId)
    | DeliveryFailed(delivery: DeliveryId, error: DeliveryError)
    | DeliveryUnknown(delivery: DeliveryId, error: DeliveryError)
    | KeyReplayed
    | KeyConflict

  datatype Entry = Entry(sequence: nat, event: Event, fromStatus: Option<QuoteStatus>, toStatus: Option<QuoteStatus>)

  datatype Cell = Cell(
    quote: Quote,
    operations: map<OperationId, Operation>,
    manifest: Option<Manifest>,
    deliveries: map<DeliveryId, Delivery>,
    audit: seq<Entry>)

  /** coalesce(max(sequence), 0) over the quote's entries. */
  function MaxSequence(audit: seq<Entry>): nat {
    if audit == [] then 0
    else
      var rest := MaxSequence(audit[..|audit| - 1]);
      var last := audit[|audit| - 1].sequence;
      if rest < last then last else rest
  }

  function Append(audit: seq<Entry>, event: Event, fromStatus: Option<QuoteStatus>, toStatus: Option<QuoteStatus>): seq<Entry> {
    audit + [Entry(MaxSequence(audit) + 1, event, fromStatus, toStatus)]
  }

  /** The frozen snapshot of an accepted quote; none before acceptance. */
  function SnapshotOf(q: Quote): Option<IssuedSnapshot> {
    if q.issue.None? then None
    else Some(IssuedSnapshot(q.id, ReadBack(q.content), q.totals, q.issue.value))
  }

  // ---------- replies ----------

  datatype Rejection =
    | QuoteNotFound
    | ValidationError
    | ArithmeticMismatch
    | OperationInProgress
    | InvalidStateTransition(status: QuoteStatus)
    | VersionConflict(current: nat)
    | RecipientMissing
    | ProviderDisabled

  datatype CompletionKind = CompletedSent | CompletedUnknown | CompletedRescheduled | CompletedFailed

  /** Answers of the transactions; the last group are thrown errors that roll back. */
  datatype Reply =
    | Claimed(attempt: Attempt)
    | NoneAvailable
    | Renewed(until: nat)
    | StaleFence
    | DeadlineReached
    | Rescheduled(nextAttemptAt: nat)
    | FailedNonRetryable
    | Committed(generatedAt: nat)
    | DeadlineFailed(previous: OperationStatus, generation: nat)
    | NothingDue
    | RetryCreated(operation: OperationId, deadlineAt: nat)
    | InvalidState(status: QuoteStatus)
    | Materialized(version: nat)
    | DeliveryClaimed(fence: DeliveryFence, attempts: nat)
    | Ineligible(error: DeliveryError)
    | Completed(kind: CompletionKind)
    | Swept(generation: nat)
    | Accepted(version: nat)
    | DeliveryAccepted(delivery: DeliveryId)
    | Rejected(reason: Rejection)
    | Noted
    | UniqueViolation
    | SnapshotDiffers
    | IntegrityFailure
    | TotalsDiverge
    | StoredDataInvalid
    | ManifestMissing
}
