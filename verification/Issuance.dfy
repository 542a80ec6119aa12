/**
 * Issuance transactions on the rows of one quote
 * (src/infrastructure/persistence/postgres/issuance-operations.ts).
 * Each function is the whole effect of one transaction at instant `now`.
 */
module Issuance {
  import opened Wrappers
  import opened Rows

  datatype AttemptFailure = AttemptFailure(retryable: bool)

  /** 5 s, 30 s, 2 min, 10 min, 30 min, then 60 min. */
  function BackoffMs(failedAttempt: pos): pos {
    match failedAttempt
    case 1 => 5_000
    case 2 => 30_000
    case 3 => 120_000
    case 4 => 600_000
    case 5 => 1_800_000
    case _ => 3_600_000
  }

  predicate FenceHolds(c: Cell, f: OperationFence) {
    && f.operation in c.operations
    && var o := c.operations[f.operation];
      o.status == Running && o.generation == f.generation && o.leaseOwner == Some(f.owner)
  }

  predicate IsCurrent(c: Cell, op: OperationId) {
    c.quote.status == Issuing && c.quote.currentOperation == Some(op)
  }

  predicate Due(o: Operation, now: nat) {
    || (o.status == Pending && o.nextAttemptAt.Some? && o.nextAttemptAt.value <= now)
    || (o.status == Running && o.leaseExpiresAt.Some? && o.leaseExpiresAt.value < now)
  }

  predicate Claimable(c: Cell, op: OperationId, now: nat) {
    && op in c.operations
    && IsCurrent(c, op)
    && now < c.operations[op].deadlineAt
    && Due(c.operations[op], now)
  }

  function LeaseEnd(cfg: Config, o: Operation, now: nat): nat {
    Min(now + cfg.leaseMs, o.deadlineAt)
  }

  function WithOperation(c: Cell, op: OperationId, o: Operation): Cell {
    c.(operations := c.operations[op := o])
  }

  function Claim(cfg: Config, c: Cell, op: OperationId, owner: Owner, now: nat): (Cell, Reply) {
    if !Claimable(c, op, now) then (c, NoneAvailable)
    else
      var o := c.operations[op];
      var claimed := o.(status := Running, generation := o.generation + 1, attempts := o.attempts + 1,
                        leaseOwner := Some(owner), leaseExpiresAt := Some(LeaseEnd(cfg, o, now)),
                        lastAttemptAt := Some(now), nextAttemptAt := None);
      (WithOperation(c, op, claimed),
       Claimed(Attempt(OperationFence(op, claimed.generation, owner), o.snapshotHash, o.status == Running)))
  }

  function RenewLease(cfg: Config, c: Cell, f: OperationFence, now: nat): (Cell, Reply) {
    if !FenceHolds(c, f) then (c, StaleFence)
    else
      var o := c.operations[f.operation];
      if now >= o.deadlineAt then (c, DeadlineReached)
      else
        var until := LeaseEnd(cfg, o, now);
        (WithOperation(c, f.operation, o.(leaseExpiresAt := Some(until))), Renewed(until))
  }

  /** A terminal operation holds no lease and no schedule. */
  function Ended(o: Operation, status: OperationStatus, now: nat): Operation {
    o.(status := status, completedAt := Some(now), leaseOwner := None, leaseExpiresAt := None, nextAttemptAt := None)
  }

  function FailWith(c: Cell, op: OperationId, o: Operation, cause: FailureCause, now: nat): Cell {
    WithOperation(c, op, Ended(o, Failed, now))
      .(audit := Append(c.audit, IssueFailed(op, cause, o.generation), Some(Issuing), Some(Issuing)))
  }

  function FailAttempt(c: Cell, f: OperationFence, failure: AttemptFailure, now: nat): (Cell, Reply) {
    if !FenceHolds(c, f) then (c, StaleFence)
    else
      var o := c.operations[f.operation];
      if !failure.retryable then (FailWith(c, f.operation, o, NonRetryable, now), FailedNonRetryable)
      else if now >= o.deadlineAt then (FailWith(c, f.operation, o, DeadlineByHolder, now), DeadlineReached)
      else
        var backoff := BackoffMs(if o.attempts > 0 then o.attempts else 1);
        var next := Min(now + backoff, o.deadlineAt);
        (WithOperation(c, f.operation, o.(status := Pending, leaseOwner := None, leaseExpiresAt := None, nextAttemptAt := Some(next)))
           .(audit := Append(c.audit, AttemptFailed(f.operation, f.generation), None, None)),
         Rescheduled(next))
  }

  /** T5: manifest, operation, quote and audit in one commit. */
  function CommitIssued(c: Cell, f: OperationFence, document: Document, now: nat): (Cell, Reply) {
    if !FenceHolds(c, f) || !IsCurrent(c, f.operation) then (c, StaleFence)
    else if c.operations[f.operation].snapshotHash != document.snapshotHash then (c, SnapshotDiffers)
    else if c.manifest.Some? then (c, UniqueViolation)
    else
      (c.(manifest := Some(Manifest(f.operation, document, now)),
          operations := c.operations[f.operation := Ended(c.operations[f.operation], Succeeded, now)],
          quote := c.quote.(status := Issued, version := c.quote.version + 1),
          audit := Append(c.audit, QuoteIssued(f.operation, c.quote.version + 1), Some(Issuing), Some(Issued))),
       Committed(now))
  }

  predicate Sweepable(o: Operation, now: nat) {
    && o.status in {Pending, Running}
    && now >= o.deadlineAt
    && (o.status == Running ==> o.leaseExpiresAt.Some? && o.leaseExpiresAt.value < now)
  }

  /** T6: the sweep also bumps the generation, which fences the expired holder. */
  function FailDeadline(c: Cell, op: OperationId, now: nat): (Cell, Reply) {
    if op !in c.operations || !Sweepable(c.operations[op], now) then (c, NothingDue)
    else
      var o := c.operations[op];
      var bumped := o.(generation := o.generation + 1);
      (FailWith(c, op, bumped, DeadlineBySweep, now), DeadlineFailed(o.status, bumped.generation))
  }

  function NewOperation(acceptedAt: nat, deadlineMs: pos, snapshotHash: Digest, retryOf: Option<OperationId>): Operation {
    Operation(Pending, 0, 0, None, None, acceptedAt, acceptedAt + deadlineMs, Some(acceptedAt), None, None, snapshotHash, retryOf)
  }

  /** T10: a new operation for the same frozen snapshot. */
  function OperatorRetry(cfg: Config, c: Cell, failed: OperationId, retry: OperationId, now: nat): (Cell, Reply) {
    if c.quote.status != Issuing || c.quote.currentOperation != Some(failed)
       || failed !in c.operations || c.operations[failed].status != Failed then (c, InvalidState(c.quote.status))
    else
      var snapshot := SnapshotOf(c.quote);
      var accepted := c.operations[failed].snapshotHash;
      if snapshot.None? || cfg.snapshotHash(snapshot.value) != accepted then (c, IntegrityFailure)
      else if retry in c.operations then (c, UniqueViolation)
      else
        (c.(operations := c.operations[retry := NewOperation(now, cfg.deadlineMs, accepted, Some(failed))],
            quote := c.quote.(currentOperation := Some(retry), version := c.quote.version + 1),
            audit := Append(c.audit, IssueAccepted(retry, Some(failed), c.quote.version + 1), Some(Issuing), Some(Issuing))),
         RetryCreated(retry, now + cfg.deadlineMs))
  }
}
