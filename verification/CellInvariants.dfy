/** What every transaction keeps true of the rows of one quote. */
module CellInvariants {
  import opened Wrappers
  import opened CommercialSnapshot
  import opened Rows
  import opened Transactions
  import Issuance
  import Deliveries
  import Expiry
  import Commands

  ghost predicate Active(o: Operation) { o.status in {Pending, Running} }

  /** Where the quote, its operations, its manifest and its deliveries stand relative to each other. */
  ghost predicate Lifecycle(c: Cell) {
    var q := c.quote;
    && (q.currentOperation.None? <==> q.issue.None?)
    && (q.currentOperation.None? ==> c.operations == map[])
    && (q.currentOperation.Some? ==> q.currentOperation.value in c.operations)
    && (forall op <- c.operations :: q.currentOperation != Some(op) ==> c.operations[op].status == Failed)
    && (c.manifest.Some? <==> q.currentOperation.Some? && c.operations[q.currentOperation.value].status == Succeeded)
    && (c.manifest.Some? ==> q.currentOperation == Some(c.manifest.value.operation))
    && (c.deliveries != map[] ==> c.manifest.Some?)
    && (q.expiredAt == if q.status == Expired && q.issue.Some? then Some(q.issue.value.validUntil) else None)
    && match q.status
       case Draft => q.currentOperation.None?
       case Issuing => q.currentOperation.Some? && c.manifest.None?
       case Issued => c.manifest.Some?
       case Expired => c.manifest.Some?
       case Cancelled => q.currentOperation.Some? ==> !Active(c.operations[q.currentOperation.value])
  }

  function Gap(cfg: Config): pos { Min(5_000, cfg.leaseMs) }

  /** Leases, schedules and attempt instants of one operation. */
  ghost predicate OperationSchedule(cfg: Config, o: Operation) {
    && o.acceptedAt < o.deadlineAt
    && (o.lastAttemptAt.Some? <==> o.attempts > 0)
    && (o.attempts > 0 ==> o.acceptedAt + (o.attempts - 1) * Gap(cfg) <= o.lastAttemptAt.value < o.deadlineAt)
    && match o.status
       case Pending =>
         && o.leaseOwner.None? && o.leaseExpiresAt.None? && o.completedAt.None?
         && o.nextAttemptAt.Some? && o.acceptedAt <= o.nextAttemptAt.value <= o.deadlineAt
         && (o.attempts > 0 ==> o.nextAttemptAt.value == o.deadlineAt || o.lastAttemptAt.value + Gap(cfg) <= o.nextAttemptAt.value)
       case Running =>
         && o.leaseOwner.Some? && o.leaseExpiresAt.Some? && o.nextAttemptAt.None? && o.completedAt.None? && o.attempts > 0
         && o.leaseExpiresAt.value <= o.deadlineAt
         && (o.leaseExpiresAt.value == o.deadlineAt || o.lastAttemptAt.value + Gap(cfg) <= o.leaseExpiresAt.value)
       case _ => o.leaseOwner.None? && o.leaseExpiresAt.None? && o.nextAttemptAt.None? && o.completedAt.Some?
  }

  /** Leases, schedules and bounds of one delivery. */
  ghost predicate DeliverySchedule(d: Delivery) {
    && d.attempts <= Deliveries.MAX_ATTEMPTS
    && match d.status
       case Queued =>
         && d.leaseOwner.None? && d.leaseExpiresAt.None? && d.attempts < Deliveries.MAX_ATTEMPTS
         && d.nextAttemptAt.Some? && d.requestedAt <= d.nextAttemptAt.value <= d.requestedAt + Deliveries.RETRY_WINDOW_MS
       case Sending =>
         && d.leaseOwner.Some? && d.leaseExpiresAt.Some? && d.nextAttemptAt.None? && d.attempts > 0
         && d.lastAttemptAt.Some? && d.requestedAt <= d.lastAttemptAt.value <= d.leaseExpiresAt.value
       case _ => d.leaseOwner.None? && d.leaseExpiresAt.None? && d.nextAttemptAt.None?
  }

  ghost predicate Schedule(cfg: Config, c: Cell) {
    && (forall op <- c.operations :: OperationSchedule(cfg, c.operations[op]))
    && (forall id <- c.deliveries :: DeliverySchedule(c.deliveries[id]))
  }

  /** The log is well formed, leads to the stored status and counted every version. */
  ghost predicate Log(c: Cell) {
    && WellFormed(c.audit)
    && LoggedStatus(c.audit) == Some(c.quote.status)
    && Versions(c.audit) == c.quote.version
  }

  /** Generation is the attempt count plus the sweeps logged; exactly the ended operations logged one end. */
  ghost predicate OperationSettled(c: Cell, op: OperationId) {
    if op in c.operations then
      && c.operations[op].generation == c.operations[op].attempts + Count(c.audit, SweepsOf(op))
      && Count(c.audit, EndsOf(op)) == (if Active(c.operations[op]) then 0 else 1)
    else Count(c.audit, SweepsOf(op)) == 0 && Count(c.audit, EndsOf(op)) == 0
  }

  /** The same for a delivery: its terminal entry exists exactly when it is terminal. */
  ghost predicate DeliverySettled(c: Cell, id: DeliveryId) {
    if id in c.deliveries then
      && c.deliveries[id].generation == c.deliveries[id].attempts + Count(c.audit, DeliverySweepsOf(id))
      && Count(c.audit, DeliveryEndsOf(id)) == (if Deliveries.Terminal(c.deliveries[id].status) then 1 else 0)
    else Count(c.audit, DeliverySweepsOf(id)) == 0 && Count(c.audit, DeliveryEndsOf(id)) == 0
  }

  ghost predicate Accounting(c: Cell) {
    && (forall op :: OperationSettled(c, op))
    && (forall id :: DeliverySettled(c, id))
  }

  /** Content and totals agree, and every operation carries the hash of the rows as they stand. */
  ghost predicate Frozen(cfg: Config, c: Cell) {
    var q := c.quote;
    && ValidCommercial(ReadBack(q.content))
    && ComputeSnapshot(ReadBack(q.content)) == Success(q.totals)
    && (forall op <- c.operations ::
          SnapshotOf(q).Some? && c.operations[op].snapshotHash == cfg.snapshotHash(SnapshotOf(q).value))
    && (c.manifest.Some? ==>
          SnapshotOf(q).Some? && c.manifest.value.document.snapshotHash == cfg.snapshotHash(SnapshotOf(q).value))
    && (forall id <- c.deliveries ::
          c.manifest.Some? && c.deliveries[id].documentSha256 == c.manifest.value.document.pdfSha256)
  }

  ghost predicate Inv(cfg: Config, c: Cell) {
    Lifecycle(c) && Schedule(cfg, c) && Log(c) && Accounting(c) && Frozen(cfg, c)
  }

  /** A transaction reads the clock under its locks, so never before an attempt it can see. */
  ghost predicate NotBefore(c: Cell, now: nat) {
    && (forall op <- c.operations :: c.operations[op].lastAttemptAt.Some? ==> c.operations[op].lastAttemptAt.value <= now)
    && (forall id <- c.deliveries ::
          && c.deliveries[id].requestedAt <= now
          && (c.deliveries[id].lastAttemptAt.Some? ==> c.deliveries[id].lastAttemptAt.value <= now))
  }

  ghost predicate WritesOperations(tx: Tx) {
    || tx.ClaimOperation? || tx.RenewLease? || tx.FailAttempt? || tx.CommitIssued?
    || tx.FailDeadline? || tx.OperatorRetry? || tx.IssueDraft?
  }

  ghost predicate WritesDeliveries(tx: Tx) {
    tx.RequestDelivery? || tx.ClaimDelivery? || tx.CompleteDelivery? || tx.SweepDelivery? || tx.CancelQuote?
  }

  lemma IssuanceKeepsLifecycle(cfg: Config, c: Cell, tx: Tx, now: nat)
    requires Lifecycle(c) && WritesOperations(tx)
    ensures Lifecycle(Apply(cfg, c, tx, now).0)
  {
  }

  lemma CancelKeepsLifecycle(c: Cell, principal: Principal, request: Commands.CancelRequest, now: nat)
    requires Lifecycle(c)
    ensures Lifecycle(Commands.CancelQuote(c, principal, request, now).0)
  {
    if c.deliveries == map[] { assert Commands.FailPending(c.deliveries) == map[]; }
  }

  lemma KeepsLifecycle(cfg: Config, c: Cell, tx: Tx, now: nat)
    requires Lifecycle(c)
    ensures Lifecycle(Apply(cfg, c, tx, now).0)
  {
    if WritesOperations(tx) { IssuanceKeepsLifecycle(cfg, c, tx, now); }
    else if tx.CancelQuote? { CancelKeepsLifecycle(c, tx.principal, tx.cancel, now); }
    else {
      var after := Apply(cfg, c, tx, now).0;
      assert after.operations == c.operations && after.manifest == c.manifest;
    }
  }

  ghost predicate OperationsScheduled(cfg: Config, c: Cell) {
    forall op <- c.operations :: OperationSchedule(cfg, c.operations[op])
  }

  ghost predicate DeliveriesScheduled(c: Cell) {
    forall id <- c.deliveries :: DeliverySchedule(c.deliveries[id])
  }

  /** A claim leaves at least one gap between attempts. */
  lemma ClaimKeepsSchedule(cfg: Config, c: Cell, op: OperationId, owner: Owner, now: nat)
    requires op in c.operations && OperationSchedule(cfg, c.operations[op])
    requires Issuance.Claimable(c, op, now)
    ensures OperationSchedule(cfg, Issuance.Claim(cfg, c, op, owner, now).0.operations[op])
  {
    var n := c.operations[op].attempts;
    if n > 0 { assert (n + 1 - 1) * Gap(cfg) == (n - 1) * Gap(cfg) + Gap(cfg); }
  }

  lemma LeaseKeepsSchedule(cfg: Config, c: Cell, f: OperationFence, now: nat)
    requires OperationsScheduled(cfg, c) && NotBefore(c, now)
    ensures OperationsScheduled(cfg, Issuance.RenewLease(cfg, c, f, now).0)
  {
    if Issuance.FenceHolds(c, f) { assert OperationSchedule(cfg, c.operations[f.operation]); }
  }

  /** Replacing one operation by a well-scheduled one keeps the schedule. */
  lemma OneOperationScheduled(cfg: Config, c: Cell, after: Cell, op: OperationId)
    requires OperationsScheduled(cfg, c) && op in after.operations && OperationSchedule(cfg, after.operations[op])
    requires after.operations == c.operations[op := after.operations[op]]
    ensures OperationsScheduled(cfg, after)
  {
  }

  lemma FailedRowScheduled(cfg: Config, c: Cell, f: OperationFence, failure: Issuance.AttemptFailure, now: nat)
    requires Issuance.FenceHolds(c, f) && OperationSchedule(cfg, c.operations[f.operation])
    requires c.operations[f.operation].lastAttemptAt.Some? ==> c.operations[f.operation].lastAttemptAt.value <= now
    ensures var after := Issuance.FailAttempt(c, f, failure, now).0;
            && f.operation in after.operations && OperationSchedule(cfg, after.operations[f.operation])
            && after.operations == c.operations[f.operation := after.operations[f.operation]]
  {
    BackoffIsAtLeastGap(cfg, c.operations[f.operation].attempts);
  }

  lemma FailureKeepsSchedule(cfg: Config, c: Cell, f: OperationFence, failure: Issuance.AttemptFailure, now: nat)
    requires OperationsScheduled(cfg, c) && NotBefore(c, now)
    ensures OperationsScheduled(cfg, Issuance.FailAttempt(c, f, failure, now).0)
  {
    if Issuance.FenceHolds(c, f) {
      assert OperationSchedule(cfg, c.operations[f.operation]);
      FailedRowScheduled(cfg, c, f, failure, now);
      OneOperationScheduled(cfg, c, Issuance.FailAttempt(c, f, failure, now).0, f.operation);
    }
  }

  lemma BackoffIsAtLeastGap(cfg: Config, failedAttempt: pos)
    ensures Gap(cfg) <= Issuance.BackoffMs(failedAttempt)
  {
  }

  lemma EndKeepsSchedule(cfg: Config, c: Cell, f: OperationFence, document: Document, op: OperationId, now: nat)
    requires OperationsScheduled(cfg, c)
    ensures OperationsScheduled(cfg, Issuance.CommitIssued(c, f, document, now).0)
    ensures OperationsScheduled(cfg, Issuance.FailDeadline(c, op, now).0)
  {
    if Issuance.FenceHolds(c, f) { assert OperationSchedule(cfg, c.operations[f.operation]); }
    if op in c.operations { assert OperationSchedule(cfg, c.operations[op]); }
  }

  lemma RetryKeepsSchedule(cfg: Config, c: Cell, failed: OperationId, retry: OperationId, now: nat)
    requires OperationsScheduled(cfg, c)
    ensures OperationsScheduled(cfg, Issuance.OperatorRetry(cfg, c, failed, retry, now).0)
  {
  }

  lemma IssueKeepsSchedule(cfg: Config, c: Cell, principal: Principal, version: nat, terms: Commands.IssueTerms)
    requires OperationsScheduled(cfg, c)
    ensures OperationsScheduled(cfg, Commands.IssueDraft(cfg, c, principal, version, terms).0)
  {
  }

  lemma KeepsOperationSchedule(cfg: Config, c: Cell, tx: Tx, now: nat)
    requires OperationsScheduled(cfg, c) && NotBefore(c, now)
    ensures OperationsScheduled(cfg, Apply(cfg, c, tx, now).0)
  {
    match tx
    case ClaimOperation(op, owner) =>
      if Issuance.Claimable(c, op, now) { ClaimKeepsSchedule(cfg, c, op, owner, now); }
    case RenewLease(f) => LeaseKeepsSchedule(cfg, c, f, now);
    case FailAttempt(f, failure) => FailureKeepsSchedule(cfg, c, f, failure, now);
    case CommitIssued(f, document) => EndKeepsSchedule(cfg, c, f, document, 0, now);
    case FailDeadline(op) => EndKeepsSchedule(cfg, c, OperationFence(0, 0, 0), Document(0, 0, 0), op, now);
    case OperatorRetry(failed, retry) => RetryKeepsSchedule(cfg, c, failed, retry, now);
    case IssueDraft(principal, version, terms) => IssueKeepsSchedule(cfg, c, principal, version, terms);
    case _ => LeavesOperationRows(cfg, c, tx, now);
  }

  lemma DeliveryTransactionsKeepSchedule(cfg: Config, c: Cell, tx: Tx, now: nat)
    requires DeliveriesScheduled(c) && NotBefore(c, now)
    requires tx.RequestDelivery? || tx.ClaimDelivery? || tx.CompleteDelivery? || tx.SweepDelivery?
    ensures DeliveriesScheduled(Apply(cfg, c, tx, now).0)
  {
  }

  lemma CancelKeepsDeliverySchedule(c: Cell, principal: Principal, request: Commands.CancelRequest, now: nat)
    requires DeliveriesScheduled(c)
    ensures DeliveriesScheduled(Commands.CancelQuote(c, principal, request, now).0)
  {
  }

  lemma KeepsDeliverySchedule(cfg: Config, c: Cell, tx: Tx, now: nat)
    requires DeliveriesScheduled(c) && NotBefore(c, now)
    ensures DeliveriesScheduled(Apply(cfg, c, tx, now).0)
  {
    if tx.CancelQuote? { CancelKeepsDeliverySchedule(c, tx.principal, tx.cancel, now); }
    else if WritesDeliveries(tx) { DeliveryTransactionsKeepSchedule(cfg, c, tx, now); }
    else { assert Apply(cfg, c, tx, now).0.deliveries == c.deliveries; }
  }

  lemma KeepsSchedule(cfg: Config, c: Cell, tx: Tx, now: nat)
    requires Schedule(cfg, c) && NotBefore(c, now)
    ensures Schedule(cfg, Apply(cfg, c, tx, now).0)
  {
    KeepsOperationSchedule(cfg, c, tx, now);
    KeepsDeliverySchedule(cfg, c, tx, now);
  }

  /** A transaction that appends one fitting entry and moves status and version with it keeps the log. */
  lemma OneEntryKeepsLog(c: Cell, after: Cell, event: Event, fromStatus: Option<QuoteStatus>, toStatus: Option<QuoteStatus>)
    requires Log(c)
    requires after.audit == Append(c.audit, event, fromStatus, toStatus)
    requires toStatus.Some? ==> fromStatus == Some(c.quote.status)
    requires toStatus.None? ==> fromStatus.None?
    requires CarriesVersion(event) ==> toStatus.Some? && event.version == c.quote.version + 1
    requires after.quote.status == if toStatus.Some? then toStatus.value else c.quote.status
    requires after.quote.version == c.quote.version + if CarriesVersion(event) then 1 else 0
    ensures Log(after)
  {
    Appended(c.audit, event, fromStatus, toStatus);
  }

  lemma IssuanceKeepsLog(cfg: Config, c: Cell, tx: Tx, now: nat)
    requires Lifecycle(c) && Log(c)
    requires tx.FailAttempt? || tx.CommitIssued? || tx.FailDeadline? || tx.OperatorRetry?
    ensures Log(Apply(cfg, c, tx, now).0)
  {
    var after := Apply(cfg, c, tx, now).0;
    if |after.audit| > |c.audit| {
      var e := after.audit[|c.audit|];
      OneEntryKeepsLog(c, after, e.event, e.fromStatus, e.toStatus);
    }
  }

  lemma LoggedKeepsLog(c: Cell, after: Cell, event: Event)
    requires Log(c) && after.quote == c.quote && after.audit == Append(c.audit, event, None, None) && !CarriesVersion(event)
    ensures Log(after)
  {
    Appended(c.audit, event, None, None);
  }

  /** A delivery transaction leaves the quote alone and logs at most one entry without a status. */
  lemma DeliveryLogsOneEntry(cfg: Config, c: Cell, tx: Tx, now: nat) returns (event: Event)
    requires tx.RequestDelivery? || tx.ClaimDelivery? || tx.CompleteDelivery? || tx.SweepDelivery? || tx.AnswerFromBinding?
    ensures var after := Apply(cfg, c, tx, now).0;
            && after.quote == c.quote
            && (after.audit == c.audit || (!CarriesVersion(event) && after.audit == Append(c.audit, event, None, None)))
  {
    var after := Apply(cfg, c, tx, now).0;
    event := if |after.audit| > |c.audit| then after.audit[|c.audit|].event else KeyReplayed;
  }

  lemma DeliveryKeepsLog(cfg: Config, c: Cell, tx: Tx, now: nat)
    requires Log(c)
    requires tx.RequestDelivery? || tx.ClaimDelivery? || tx.CompleteDelivery? || tx.SweepDelivery? || tx.AnswerFromBinding?
    ensures Log(Apply(cfg, c, tx, now).0)
  {
    var event := DeliveryLogsOneEntry(cfg, c, tx, now);
    var after := Apply(cfg, c, tx, now).0;
    if after.audit != c.audit { LoggedKeepsLog(c, after, event); }
  }

  lemma DraftKeepsLog(cfg: Config, c: Cell, tx: Tx, now: nat)
    requires Log(c)
    requires tx.UpdateDraft? || tx.IssueDraft?
    ensures Log(Apply(cfg, c, tx, now).0)
  {
    var after := Apply(cfg, c, tx, now).0;
    if |after.audit| > |c.audit| {
      var e := after.audit[|c.audit|];
      OneEntryKeepsLog(c, after, e.event, e.fromStatus, e.toStatus);
    }
  }

  lemma CancelKeepsLog(c: Cell, principal: Principal, request: Commands.CancelRequest, now: nat)
    requires Log(c)
    ensures Log(Commands.CancelQuote(c, principal, request, now).0)
  {
    var audit := Append(c.audit, QuoteCancelled(c.quote.version + 1), Some(c.quote.status), Some(Cancelled));
    Appended(c.audit, QuoteCancelled(c.quote.version + 1), Some(c.quote.status), Some(Cancelled));
    AppendedCancelled(audit, Commands.PendingDeliveries(c));
  }

  lemma KeepsLog(cfg: Config, c: Cell, tx: Tx, now: nat)
    requires Lifecycle(c) && Log(c)
    ensures Log(Apply(cfg, c, tx, now).0)
  {
    var after := Apply(cfg, c, tx, now).0;
    match tx
    case CancelQuote(principal, request) => CancelKeepsLog(c, principal, request, now);
    case MaterializeExpiry => Appended(c.audit, QuoteExpired(c.quote.version + 1), Some(Issued), Some(Expired));
    case UpdateDraft(_, _, _) => DraftKeepsLog(cfg, c, tx, now);
    case IssueDraft(_, _, _) => DraftKeepsLog(cfg, c, tx, now);
    case ClaimOperation(_, _) =>
    case RenewLease(_) =>
    case FailAttempt(_, _) => IssuanceKeepsLog(cfg, c, tx, now);
    case CommitIssued(_, _) => IssuanceKeepsLog(cfg, c, tx, now);
    case FailDeadline(_) => IssuanceKeepsLog(cfg, c, tx, now);
    case OperatorRetry(_, _) => IssuanceKeepsLog(cfg, c, tx, now);
    case _ => DeliveryKeepsLog(cfg, c, tx, now);
  }

  // ---------- accounting ----------

  /** How one transaction changes the log: at most one entry, except for a cancel. */
  lemma OneEntryAtMost(cfg: Config, c: Cell, tx: Tx, now: nat)
    requires !tx.CancelQuote?
    ensures var after := Apply(cfg, c, tx, now).0;
            after.audit == c.audit ||
            (|after.audit| == |c.audit| + 1 &&
             var e := after.audit[|c.audit|];
             after.audit == Append(c.audit, e.event, e.fromStatus, e.toStatus))
  {
  }

  /** Transactions outside the issuance protocol neither touch an operation nor log its end. */
  lemma LeavesOperations(cfg: Config, c: Cell, tx: Tx, now: nat, op: OperationId)
    requires !WritesOperations(tx)
    ensures var after := Apply(cfg, c, tx, now).0;
            && after.operations == c.operations
            && Count(after.audit, SweepsOf(op)) == Count(c.audit, SweepsOf(op))
            && Count(after.audit, EndsOf(op)) == Count(c.audit, EndsOf(op))
  {
    LeavesOperationRows(cfg, c, tx, now);
    if tx.CancelQuote? {
      CancelCount(c, tx.principal, tx.cancel, now, SweepsOf(op));
      CancelCount(c, tx.principal, tx.cancel, now, EndsOf(op));
    } else {
      OneEntryAtMost(cfg, c, tx, now);
      NoOperationEntry(cfg, c, tx, now, op);
      UnselectedEntry(c.audit, Apply(cfg, c, tx, now).0.audit, SweepsOf(op));
      UnselectedEntry(c.audit, Apply(cfg, c, tx, now).0.audit, EndsOf(op));
    }
  }

  lemma NoOperationEntry(cfg: Config, c: Cell, tx: Tx, now: nat, op: OperationId)
    requires !WritesOperations(tx) && !tx.CancelQuote?
    ensures var audit := Apply(cfg, c, tx, now).0.audit;
            audit != c.audit ==>
              |audit| > |c.audit| && !Selects(SweepsOf(op), audit[|c.audit|].event) && !Selects(EndsOf(op), audit[|c.audit|].event)
  {
  }

  lemma NoDeliveryEntry(cfg: Config, c: Cell, tx: Tx, now: nat)
    requires !WritesDeliveries(tx)
    ensures var audit := Apply(cfg, c, tx, now).0.audit;
            audit != c.audit ==> |audit| > |c.audit| && !LogsDeliveryEnd(audit[|c.audit|].event)
  {
  }

  predicate LogsDeliveryEnd(e: Event) { e.DeliverySent? || e.DeliveryFailed? || e.DeliveryUnknown? }

  lemma LeavesDeliveryRows(cfg: Config, c: Cell, tx: Tx, now: nat)
    requires !WritesDeliveries(tx)
    ensures Apply(cfg, c, tx, now).0.deliveries == c.deliveries
  {
  }

  /** A log that gained at most one entry, which is not of the kind counted. */
  lemma UnselectedEntry(before: seq<Entry>, after: seq<Entry>, s: Selector)
    requires after == before ||
             (|after| == |before| + 1 && var e := after[|before|];
              after == Append(before, e.event, e.fromStatus, e.toStatus) && !Selects(s, e.event))
    ensures Count(after, s) == Count(before, s)
  {
    if after != before {
      var e := after[|before|];
      Appended(before, e.event, e.fromStatus, e.toStatus);
    }
  }

  lemma LeavesDeliveries(cfg: Config, c: Cell, tx: Tx, now: nat, id: DeliveryId)
    requires !WritesDeliveries(tx)
    ensures var after := Apply(cfg, c, tx, now).0;
            && after.deliveries == c.deliveries
            && Count(after.audit, DeliverySweepsOf(id)) == Count(c.audit, DeliverySweepsOf(id))
            && Count(after.audit, DeliveryEndsOf(id)) == Count(c.audit, DeliveryEndsOf(id))
  {
    LeavesDeliveryRows(cfg, c, tx, now);
    OneEntryAtMost(cfg, c, tx, now);
    NoDeliveryEntry(cfg, c, tx, now);
    UnselectedEntry(c.audit, Apply(cfg, c, tx, now).0.audit, DeliverySweepsOf(id));
    UnselectedEntry(c.audit, Apply(cfg, c, tx, now).0.audit, DeliveryEndsOf(id));
  }

  lemma FailWithSettles(c: Cell, ended: OperationId, o: Operation, cause: FailureCause, now: nat, op: OperationId)
    requires OperationSettled(c, op)
    requires ended in c.operations && Active(c.operations[ended])
    requires o.attempts == c.operations[ended].attempts
    requires o.generation == c.operations[ended].generation + if cause == DeadlineBySweep then 1 else 0
    ensures OperationSettled(Issuance.FailWith(c, ended, o, cause, now), op)
  {
    Appended(c.audit, IssueFailed(ended, cause, o.generation), Some(Issuing), Some(Issuing));
  }

  lemma CommitSettles(c: Cell, f: OperationFence, document: Document, now: nat, op: OperationId)
    requires OperationSettled(c, op)
    ensures OperationSettled(Issuance.CommitIssued(c, f, document, now).0, op)
  {
    Appended(c.audit, QuoteIssued(f.operation, c.quote.version + 1), Some(Issuing), Some(Issued));
  }

  lemma RescheduleSettles(c: Cell, f: OperationFence, now: nat, op: OperationId)
    requires OperationSettled(c, op)
    ensures OperationSettled(Issuance.FailAttempt(c, f, Issuance.AttemptFailure(true), now).0, op)
  {
    if Issuance.FenceHolds(c, f) {
      if now >= c.operations[f.operation].deadlineAt {
        FailWithSettles(c, f.operation, c.operations[f.operation], DeadlineByHolder, now, op);
      } else {
        Appended(c.audit, AttemptFailed(f.operation, f.generation), None, None);
      }
    }
  }

  /** A new operation starts with no generation, no attempt and no end. */
  lemma NewOperationSettles(c: Cell, after: Cell, created: OperationId, event: Event, f: Option<QuoteStatus>, op: OperationId)
    requires OperationSettled(c, op) && created !in c.operations && event.IssueAccepted?
    requires created in after.operations && after.operations == c.operations[created := after.operations[created]]
    requires var o := after.operations[created]; o.generation == 0 && o.attempts == 0 && Active(o)
    requires after.audit == Append(c.audit, event, f, Some(Issuing))
    ensures OperationSettled(after, op)
  {
    Appended(c.audit, event, f, Some(Issuing));
  }

  lemma RetrySettles(cfg: Config, c: Cell, failed: OperationId, retry: OperationId, now: nat, op: OperationId)
    requires OperationSettled(c, op)
    ensures OperationSettled(Issuance.OperatorRetry(cfg, c, failed, retry, now).0, op)
  {
    var (after, reply) := Issuance.OperatorRetry(cfg, c, failed, retry, now);
    if reply.RetryCreated? {
      NewOperationSettles(c, after, retry, IssueAccepted(retry, Some(failed), c.quote.version + 1), Some(Issuing), op);
    }
  }

  lemma IssueAddsOperation(cfg: Config, c: Cell, principal: Principal, version: nat, terms: Commands.IssueTerms)
    ensures var (after, reply) := Commands.IssueDraft(cfg, c, principal, version, terms);
            if !reply.Accepted? then after == c
            else
              && terms.operation !in c.operations && terms.operation in after.operations
              && after.operations == c.operations[terms.operation := after.operations[terms.operation]]
              && (var o := after.operations[terms.operation]; o.generation == 0 && o.attempts == 0 && Active(o))
              && after.audit == Append(c.audit, IssueAccepted(terms.operation, None, c.quote.version + 1), Some(Draft), Some(Issuing))
  {
  }

  lemma IssueSettles(cfg: Config, c: Cell, principal: Principal, version: nat, terms: Commands.IssueTerms, op: OperationId)
    requires OperationSettled(c, op)
    ensures OperationSettled(Commands.IssueDraft(cfg, c, principal, version, terms).0, op)
  {
    var (after, reply) := Commands.IssueDraft(cfg, c, principal, version, terms);
    IssueAddsOperation(cfg, c, principal, version, terms);
    if reply.Accepted? {
      NewOperationSettles(c, after, terms.operation, IssueAccepted(terms.operation, None, c.quote.version + 1), Some(Draft), op);
    }
  }

  lemma LeasesSettle(cfg: Config, c: Cell, tx: Tx, now: nat, op: OperationId)
    requires OperationSettled(c, op) && (tx.ClaimOperation? || tx.RenewLease?)
    ensures OperationSettled(Apply(cfg, c, tx, now).0, op)
  {
  }

  lemma KeepsOperationSettled(cfg: Config, c: Cell, tx: Tx, now: nat, op: OperationId)
    requires OperationSettled(c, op)
    ensures OperationSettled(Apply(cfg, c, tx, now).0, op)
  {
    match tx
    case ClaimOperation(_, _) => LeasesSettle(cfg, c, tx, now, op);
    case RenewLease(_) => LeasesSettle(cfg, c, tx, now, op);
    case FailAttempt(f, failure) =>
      if failure.retryable { RescheduleSettles(c, f, now, op); }
      else if Issuance.FenceHolds(c, f) { FailWithSettles(c, f.operation, c.operations[f.operation], NonRetryable, now, op); }
    case CommitIssued(f, document) => CommitSettles(c, f, document, now, op);
    case FailDeadline(ended) =>
      if ended in c.operations && Issuance.Sweepable(c.operations[ended], now) {
        var o := c.operations[ended];
        FailWithSettles(c, ended, o.(generation := o.generation + 1), DeadlineBySweep, now, op);
      }
    case OperatorRetry(failed, retry) => RetrySettles(cfg, c, failed, retry, now, op);
    case IssueDraft(principal, version, terms) => IssueSettles(cfg, c, principal, version, terms, op);
    case _ => LeavesOperations(cfg, c, tx, now, op);
  }

  predicate EndsDelivery(e: Event, id: DeliveryId) { Selects(DeliveryEndsOf(id), e) }

  /** A row ends with its one terminal entry; only the sweep bumps the generation. */
  lemma EndedDeliverySettles(c: Cell, ended: DeliveryId, d: Delivery, event: Event, id: DeliveryId)
    requires DeliverySettled(c, id)
    requires ended in c.deliveries && !Deliveries.Terminal(c.deliveries[ended].status) && Deliveries.Terminal(d.status)
    requires EndsDelivery(event, ended) && d.attempts == c.deliveries[ended].attempts
    requires d.generation == c.deliveries[ended].generation + if event == DeliveryUnknown(ended, OutcomeUnknownError) then 1 else 0
    ensures DeliverySettled(Deliveries.Logged(Deliveries.WithDelivery(c, ended, d), event), id)
  {
    Appended(c.audit, event, None, None);
  }

  lemma CompletionSettles(c: Cell, f: DeliveryFence, outcome: Deliveries.Outcome, now: nat, id: DeliveryId)
    requires DeliverySettled(c, id)
    ensures DeliverySettled(Deliveries.CompleteDelivery(c, f, outcome, now).0, id)
  {
    if Deliveries.FenceHolds(c, f) {
      var x, d := f.delivery, c.deliveries[f.delivery];
      match outcome
      case ProviderAccepted => EndedDeliverySettles(c, x, Deliveries.Released(d, Sent, d.lastError), DeliverySent(x), id);
      case Ambiguous(code) =>
        var error := AttemptError(code);
        EndedDeliverySettles(c, x, Deliveries.Released(d, Unknown, Some(error)), DeliveryUnknown(x, error), id);
      case NotAccepted(_, code) =>
        var error := AttemptError(code);
        EndedDeliverySettles(c, x, Deliveries.Released(d, Undelivered, Some(error)), DeliveryFailed(x, error), id);
    }
  }

  lemma ClaimSettles(cfg: Config, c: Cell, claimed: DeliveryId, owner: Owner, now: nat, id: DeliveryId)
    requires DeliverySettled(c, id)
    ensures DeliverySettled(Deliveries.ClaimDelivery(cfg, c, claimed, owner, now).0, id)
  {
    var effective := Expiry.EffectiveExpiry(c.quote, now).status;
    if Deliveries.DeliveryDue(c, claimed, now) && effective != Issued {
      var error := Deliveries.IneligibleError(effective);
      EndedDeliverySettles(c, claimed, Deliveries.Released(c.deliveries[claimed], Undelivered, Some(error)), DeliveryFailed(claimed, error), id);
    }
  }

  lemma SweepSettles(c: Cell, swept: DeliveryId, now: nat, id: DeliveryId)
    requires DeliverySettled(c, id)
    ensures DeliverySettled(Deliveries.SweepDelivery(c, swept, now).0, id)
  {
    if Deliveries.SweepDelivery(c, swept, now).1.Swept? {
      var d := c.deliveries[swept];
      EndedDeliverySettles(c, swept, Deliveries.Released(d, Unknown, Some(OutcomeUnknownError)).(generation := d.generation + 1),
                           DeliveryUnknown(swept, OutcomeUnknownError), id);
    }
  }

  lemma RequestSettles(c: Cell, asked: DeliveryId, request: Deliveries.DeliveryRequest, now: nat, id: DeliveryId)
    requires DeliverySettled(c, id)
    ensures DeliverySettled(Deliveries.RequestDelivery(c, asked, request, now).0, id)
  {
    Appended(c.audit, DeliveryRequested(asked), None, None);
  }

  lemma CancelSettles(c: Cell, principal: Principal, request: Commands.CancelRequest, now: nat, id: DeliveryId)
    requires DeliverySettled(c, id) && Lifecycle(c)
    ensures DeliverySettled(Commands.CancelQuote(c, principal, request, now).0, id)
  {
    CancelCount(c, principal, request, now, DeliverySweepsOf(id));
    CancelCount(c, principal, request, now, DeliveryEndsOf(id));
  }

  lemma KeepsDeliverySettled(cfg: Config, c: Cell, tx: Tx, now: nat, id: DeliveryId)
    requires DeliverySettled(c, id) && Lifecycle(c)
    ensures DeliverySettled(Apply(cfg, c, tx, now).0, id)
  {
    match tx
    case RequestDelivery(asked, request) => RequestSettles(c, asked, request, now, id);
    case ClaimDelivery(claimed, owner) => ClaimSettles(cfg, c, claimed, owner, now, id);
    case CompleteDelivery(f, outcome) => CompletionSettles(c, f, outcome, now, id);
    case SweepDelivery(swept) => SweepSettles(c, swept, now, id);
    case CancelQuote(principal, request) => CancelSettles(c, principal, request, now, id);
    case _ => LeavesDeliveries(cfg, c, tx, now, id);
  }

  lemma KeepsAccounting(cfg: Config, c: Cell, tx: Tx, now: nat)
    requires Accounting(c) && Lifecycle(c)
    ensures Accounting(Apply(cfg, c, tx, now).0)
  {
    forall op ensures OperationSettled(Apply(cfg, c, tx, now).0, op) { KeepsOperationSettled(cfg, c, tx, now, op); }
    forall id ensures DeliverySettled(Apply(cfg, c, tx, now).0, id) { KeepsDeliverySettled(cfg, c, tx, now, id); }
  }

  // ---------- frozen snapshot ----------

  /** A patch of the stored members reads back as the patch of the members read back. */
  lemma RewrittenReadsAsPatched(p: Commands.Patch, stored: Commercial)
    requires Commands.ValidPatch(p)
    ensures ReadBack(Commands.Rewritten(p, stored)) == Commands.Patched(p, ReadBack(stored))
  {
    var left, right := ReadBack(Commands.Rewritten(p, stored)), Commands.Patched(p, ReadBack(stored));
    if p.lines.Some? {
      var lines := p.lines.value;
      forall i | 0 <= i < |lines| ensures left.lines[i] == lines[i] {
        ReadLineStored(lines[i]);
      }
    }
    assert left.lines == right.lines;
    if p.shipping.SetShipping? && p.shipping.shipping.Some? { ReadChargeStored(p.shipping.shipping.value); }
  }

  lemma EditKeepsFrozen(cfg: Config, c: Cell, principal: Principal, expectedVersion: nat, patch: Commands.Patch)
    requires Frozen(cfg, c) && Lifecycle(c)
    ensures Frozen(cfg, Commands.UpdateDraft(c, principal, expectedVersion, patch).0)
  {
    if Commands.ValidPatch(patch) { RewrittenReadsAsPatched(patch, c.quote.content); }
  }

  lemma IssueKeepsFrozen(cfg: Config, c: Cell, principal: Principal, expectedVersion: nat, terms: Commands.IssueTerms)
    requires Frozen(cfg, c) && Lifecycle(c)
    ensures Frozen(cfg, Commands.IssueDraft(cfg, c, principal, expectedVersion, terms).0)
  {
  }

  /** After acceptance no transaction changes a row the snapshot is built from. */
  lemma SnapshotStays(cfg: Config, c: Cell, tx: Tx, now: nat)
    requires !tx.UpdateDraft? && !tx.IssueDraft?
    ensures var q, after := c.quote, Apply(cfg, c, tx, now).0.quote;
            after.id == q.id && after.content == q.content && after.totals == q.totals && after.issue == q.issue
  {
  }

  lemma CommitKeepsFrozen(cfg: Config, c: Cell, f: OperationFence, document: Document, now: nat)
    requires Frozen(cfg, c) && Lifecycle(c)
    ensures Frozen(cfg, Issuance.CommitIssued(c, f, document, now).0)
  {
  }

  lemma RetryKeepsFrozen(cfg: Config, c: Cell, failed: OperationId, retry: OperationId, now: nat)
    requires Frozen(cfg, c)
    ensures Frozen(cfg, Issuance.OperatorRetry(cfg, c, failed, retry, now).0)
  {
  }

  /** The other issuance transactions change no hash, no manifest and no delivery. */
  lemma AttemptsLeaveHashes(cfg: Config, c: Cell, tx: Tx, now: nat)
    requires tx.ClaimOperation? || tx.RenewLease? || tx.FailAttempt? || tx.FailDeadline?
    ensures var after := Apply(cfg, c, tx, now).0;
            && after.operations.Keys == c.operations.Keys
            && (forall op <- c.operations :: after.operations[op].snapshotHash == c.operations[op].snapshotHash)
            && after.manifest == c.manifest && after.deliveries == c.deliveries && after.quote == c.quote
  {
  }

  lemma IssuanceKeepsFrozen(cfg: Config, c: Cell, tx: Tx, now: nat)
    requires Frozen(cfg, c) && Lifecycle(c)
    requires WritesOperations(tx) && !tx.IssueDraft?
    ensures Frozen(cfg, Apply(cfg, c, tx, now).0)
  {
    match tx
    case CommitIssued(f, document) => CommitKeepsFrozen(cfg, c, f, document, now);
    case OperatorRetry(failed, retry) => RetryKeepsFrozen(cfg, c, failed, retry, now);
    case _ => AttemptsLeaveHashes(cfg, c, tx, now);
  }

  /** A delivery keeps the document it pinned, and a new one pins the committed manifest's. */
  ghost predicate DocumentsStay(c: Cell, after: Cell) {
    forall id <- after.deliveries ::
      if id in c.deliveries then after.deliveries[id].documentSha256 == c.deliveries[id].documentSha256
      else c.manifest.Some? && after.deliveries[id].documentSha256 == c.manifest.value.document.pdfSha256
  }

  lemma FrozenCarriesOver(cfg: Config, c: Cell, after: Cell)
    requires Frozen(cfg, c) && DocumentsStay(c, after)
    requires after.quote.id == c.quote.id && after.quote.content == c.quote.content
    requires after.quote.totals == c.quote.totals && after.quote.issue == c.quote.issue
    requires after.operations == c.operations && after.manifest == c.manifest
    ensures Frozen(cfg, after)
  {
    assert SnapshotOf(after.quote) == SnapshotOf(c.quote);
  }

  lemma LeavesManifest(cfg: Config, c: Cell, tx: Tx, now: nat)
    requires !WritesOperations(tx)
    ensures var after := Apply(cfg, c, tx, now).0; after.operations == c.operations && after.manifest == c.manifest
  {
  }

  lemma LeavesDocuments(cfg: Config, c: Cell, tx: Tx, now: nat)
    requires !WritesOperations(tx)
    ensures DocumentsStay(c, Apply(cfg, c, tx, now).0)
  {
  }

  lemma LeavesOperationRows(cfg: Config, c: Cell, tx: Tx, now: nat)
    requires !WritesOperations(tx)
    ensures var after := Apply(cfg, c, tx, now).0;
            after.operations == c.operations && after.manifest == c.manifest && DocumentsStay(c, after)
  {
    LeavesManifest(cfg, c, tx, now);
    LeavesDocuments(cfg, c, tx, now);
  }

  lemma KeepsFrozen(cfg: Config, c: Cell, tx: Tx, now: nat)
    requires Frozen(cfg, c) && Lifecycle(c)
    ensures Frozen(cfg, Apply(cfg, c, tx, now).0)
  {
    if tx.UpdateDraft? || tx.IssueDraft? {
      DraftsKeepFrozen(cfg, c, tx, now);
    } else if WritesOperations(tx) {
      IssuanceKeepsFrozen(cfg, c, tx, now);
    } else {
      OthersKeepFrozen(cfg, c, tx, now);
    }
  }

  lemma DraftsKeepFrozen(cfg: Config, c: Cell, tx: Tx, now: nat)
    requires Frozen(cfg, c) && Lifecycle(c) && (tx.UpdateDraft? || tx.IssueDraft?)
    ensures Frozen(cfg, Apply(cfg, c, tx, now).0)
  {
    match tx
    case UpdateDraft(principal, version, patch) =>
      assert Apply(cfg, c, tx, now).0 == Commands.UpdateDraft(c, principal, version, patch).0;
      EditKeepsFrozen(cfg, c, principal, version, patch);
    case IssueDraft(principal, version, terms) =>
      assert Apply(cfg, c, tx, now).0 == Commands.IssueDraft(cfg, c, principal, version, terms).0;
      IssueKeepsFrozen(cfg, c, principal, version, terms);
  }

  lemma OthersKeepFrozen(cfg: Config, c: Cell, tx: Tx, now: nat)
    requires Frozen(cfg, c) && Lifecycle(c) && !WritesOperations(tx) && !tx.UpdateDraft?
    ensures Frozen(cfg, Apply(cfg, c, tx, now).0)
  {
    SnapshotStays(cfg, c, tx, now);
    LeavesOperationRows(cfg, c, tx, now);
    FrozenCarriesOver(cfg, c, Apply(cfg, c, tx, now).0);
  }

  // ---------- the whole invariant ----------

  lemma KeepsInv(cfg: Config, c: Cell, tx: Tx, now: nat)
    requires Inv(cfg, c) && NotBefore(c, now)
    ensures Inv(cfg, Apply(cfg, c, tx, now).0)
  {
    KeepsLifecycle(cfg, c, tx, now);
    KeepsSchedule(cfg, c, tx, now);
    KeepsLog(cfg, c, tx, now);
    KeepsAccounting(cfg, c, tx, now);
    KeepsFrozen(cfg, c, tx, now);
  }

  lemma DraftRowsAreFrozen(cfg: Config, id: QuoteId, creator: Principal, content: Commercial)
    requires ValidCommercial(content)
    ensures ComputeSnapshot(content).Success?
    ensures Frozen(cfg, Commands.DraftCell(id, creator, content, ComputeSnapshot(content).value))
  {
    OverflowIsDead(content);
    ReadBackStored(content);
  }

  lemma DraftsStartValid(cfg: Config, id: QuoteId, creator: Principal, content: Commercial)
    requires ValidCommercial(content)
    ensures Commands.CreateDraft(id, creator, content).Success?
    ensures Inv(cfg, Commands.CreateDraft(id, creator, content).value)
  {
    DraftRowsAreFrozen(cfg, id, creator, content);
    var rows := Commands.DraftCell(id, creator, content, ComputeSnapshot(content).value);
    LoggedDraftIsValid(cfg, rows);
  }

  lemma LoggedDraftIsValid(cfg: Config, rows: Cell)
    requires Frozen(cfg, rows)
    requires rows.quote.status == Draft && rows.quote.version == 1 && rows.quote.expiredAt == None
    requires rows.quote.issue == None && rows.quote.currentOperation == None
    requires rows.operations == map[] && rows.deliveries == map[] && rows.manifest == None && rows.audit == []
    ensures Inv(cfg, rows.(audit := Append([], DraftCreated(1), None, Some(Draft))))
  {
    Appended([], DraftCreated(1), None, Some(Draft));
    var c := rows.(audit := Append([], DraftCreated(1), None, Some(Draft)));
    forall op ensures OperationSettled(c, op) {}
    forall d ensures DeliverySettled(c, d) {}
  }

  lemma AcceptedQuotesStartValid(cfg: Config, id: QuoteId, creator: Principal, content: Commercial, terms: Commands.IssueTerms)
    requires Commands.CreateAndIssue(cfg, id, creator, content, terms).Success?
    ensures Inv(cfg, Commands.CreateAndIssue(cfg, id, creator, content, terms).value)
  {
    DraftRowsAreFrozen(cfg, id, creator, content);
    var rows := Commands.DraftCell(id, creator, content, ComputeSnapshot(content).value);
    FreezeStartsValid(cfg, rows, terms.issue.value, terms.operation, terms.deadlineMs);
  }

  /** Freezing an unlogged draft in the commit that creates it. */
  lemma FreezeStartsValid(cfg: Config, rows: Cell, issue: Issue, op: OperationId, deadlineMs: pos)
    requires Frozen(cfg, rows)
    requires rows.quote.status == Draft && rows.quote.version == 1 && rows.quote.expiredAt == None
    requires rows.operations == map[] && rows.deliveries == map[] && rows.manifest == None && rows.audit == []
    ensures Inv(cfg, Commands.Freeze(cfg, rows, issue, op, deadlineMs, 0, None).0)
  {
    Appended([], IssueAccepted(op, None, 1), None, Some(Issuing));
    var c := Commands.Freeze(cfg, rows, issue, op, deadlineMs, 0, None).0;
    assert Lifecycle(c) && Schedule(cfg, c);
    assert Log(c);
    forall x ensures OperationSettled(c, x) {}
    forall d ensures DeliverySettled(c, d) {}
  }
}
