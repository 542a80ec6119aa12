/**
 * The answers of issuance and expiry, exactly: when each is given, what it leaves in the rows, and what
 * it means for whoever comes next. Instants and lengths are stated as such, not by the helper functions
 * of the transactions.
 */
module Answers {
  import opened Wrappers
  import opened Arithmetic
  import opened CommercialSnapshot
  import opened Rows
  import opened Transactions
  import opened CellInvariants
  import Guarantees
  import Issuance
  import Deliveries
  import Expiry
  import Commands

  // ---------- refusals ----------

  /** Refusals and thrown errors; everything else is an effect. */
  predicate Refuses(reply: Reply) {
    || reply.Rejected? || reply.NoneAvailable? || reply.StaleFence? || reply.NothingDue? || reply.InvalidState?
    || reply.UniqueViolation? || reply.SnapshotDiffers? || reply.IntegrityFailure? || reply.TotalsDiverge?
    || reply.StoredDataInvalid? || reply.ManifestMissing?
  }

  lemma CommandRefusalsChangeNothing(cfg: Config, c: Cell, tx: Tx, now: nat)
    requires tx.UpdateDraft? || tx.IssueDraft? || tx.CancelQuote?
    ensures Refuses(Apply(cfg, c, tx, now).1) <==> Apply(cfg, c, tx, now).0 == c
  {
    var after := Apply(cfg, c, tx, now).0;
    if !Refuses(Apply(cfg, c, tx, now).1) { assert after.quote.version == c.quote.version + 1; }
  }

  /** Fenced out, refused or failed means zero effect, for every transaction. */
  lemma RefusalsChangeNothing(cfg: Config, c: Cell, tx: Tx, now: nat)
    requires Refuses(Apply(cfg, c, tx, now).1)
    ensures Apply(cfg, c, tx, now).0 == c
  {
    if tx.UpdateDraft? || tx.IssueDraft? || tx.CancelQuote? { CommandRefusalsChangeNothing(cfg, c, tx, now); }
  }

  /** One more entry, with the next sequence. */
  ghost predicate Logs(c: Cell, after: Cell, event: Event, fromStatus: Option<QuoteStatus>, toStatus: Option<QuoteStatus>) {
    after.audit == c.audit + [Entry(|c.audit| + 1, event, fromStatus, toStatus)]
  }

  lemma AppendsNext(c: Cell, event: Event, fromStatus: Option<QuoteStatus>, toStatus: Option<QuoteStatus>)
    requires WellFormed(c.audit)
    ensures Append(c.audit, event, fromStatus, toStatus) == c.audit + [Entry(|c.audit| + 1, event, fromStatus, toStatus)]
  {
    WellFormedSequences(c.audit);
  }

  // ---------- claims and leases ----------

  /** The instant of a column that the row's status requires. */
  function At(instant: Option<nat>): nat { if instant.Some? then instant.value else 0 }

  /** Running under exactly this fence. */
  predicate Holds(c: Cell, f: OperationFence) {
    && f.operation in c.operations && c.operations[f.operation].status == Running
    && c.operations[f.operation].generation == f.generation && c.operations[f.operation].leaseOwner == Some(f.owner)
  }

  /** When a claim is granted, and what it hands out. */
  lemma ClaimIsGrantedIff(cfg: Config, c: Cell, op: OperationId, owner: Owner, now: nat)
    requires Inv(cfg, c)
    ensures var (after, reply) := Issuance.Claim(cfg, c, op, owner, now);
            && (reply.Claimed? <==>
                  && op in c.operations && now < c.operations[op].deadlineAt
                  && ((c.operations[op].status == Pending && At(c.operations[op].nextAttemptAt) <= now)
                      || (c.operations[op].status == Running && At(c.operations[op].leaseExpiresAt) < now)))
            && (!reply.Claimed? ==> reply == NoneAvailable)
            && (reply.Claimed? ==>
                  var (was, got) := (c.operations[op], after.operations[op]);
                  && reply.attempt == Attempt(OperationFence(op, was.generation + 1, owner), was.snapshotHash, was.status == Running)
                  && Holds(after, reply.attempt.fence) && got.attempts == was.attempts + 1 && got.lastAttemptAt == Some(now)
                  && got.deadlineAt == was.deadlineAt && got.acceptedAt == was.acceptedAt && got.snapshotHash == was.snapshotHash
                  && after == c.(operations := c.operations[op := got]))
  {
    if op in c.operations && Active(c.operations[op]) { assert OperationSchedule(cfg, c.operations[op]); }
  }

  /**
   * A claim or a renewal at `now` keeps every other claim out for the configured lease, and no longer:
   * another claim is granted exactly from the end of that lease to the deadline.
   */
  lemma LeasesLastTheirLength(cfg: Config, c: Cell, op: OperationId, owner: Owner, f: OperationFence, now: nat, other: Owner, t: nat)
    requires Inv(cfg, c)
    ensures var (after, reply) := Issuance.Claim(cfg, c, op, owner, now);
            reply.Claimed? ==>
              && (Issuance.Claim(cfg, after, op, other, t).1.Claimed? <==> now + cfg.leaseMs < t < c.operations[op].deadlineAt)
              && (Issuance.FailDeadline(after, op, t).1.DeadlineFailed? <==>
                    t >= c.operations[op].deadlineAt && (t > now + cfg.leaseMs || t > c.operations[op].deadlineAt))
    ensures var (after, reply) := Issuance.RenewLease(cfg, c, f, now);
            reply.Renewed? ==>
              && (Issuance.Claim(cfg, after, f.operation, other, t).1.Claimed? <==> now + cfg.leaseMs < t < c.operations[f.operation].deadlineAt)
              && (Issuance.FailDeadline(after, f.operation, t).1.DeadlineFailed? <==>
                    t >= c.operations[f.operation].deadlineAt && (t > now + cfg.leaseMs || t > c.operations[f.operation].deadlineAt))
  {
    if Issuance.FenceHolds(c, f) { assert Active(c.operations[f.operation]); }
  }

  /** A renewal is granted exactly to the holder before the deadline, and moves nothing but the end of its lease. */
  lemma RenewalIsGrantedIff(cfg: Config, c: Cell, f: OperationFence, now: nat)
    ensures var (after, reply) := Issuance.RenewLease(cfg, c, f, now);
            && (reply.Renewed? <==> Holds(c, f) && now < c.operations[f.operation].deadlineAt)
            && (reply == DeadlineReached <==> Holds(c, f) && now >= c.operations[f.operation].deadlineAt)
            && (reply == StaleFence <==> !Holds(c, f))
            && (reply.Renewed? ==>
                  && reply.until == Min(now + cfg.leaseMs, c.operations[f.operation].deadlineAt)
                  && after == c.(operations := c.operations[f.operation := c.operations[f.operation].(leaseExpiresAt := Some(reply.until))]))
  {
  }

  // ---------- failures and commits ----------

  /** 5 s, 30 s, 2 min, 10 min, 30 min, 60 min: what a failed first, second, … attempt waits. */
  const WAITS: seq<nat> := [5_000, 30_000, 120_000, 600_000, 1_800_000, 3_600_000]

  function WaitAfter(attempts: nat): nat { WAITS[Min(if attempts > 0 then attempts else 1, 6) - 1] }

  /** What a reported failure is answered. */
  lemma FailureIsAnswered(c: Cell, f: OperationFence, failure: Issuance.AttemptFailure, now: nat)
    ensures var (after, reply) := Issuance.FailAttempt(c, f, failure, now);
            && (reply == StaleFence <==> !Holds(c, f))
            && (reply == FailedNonRetryable <==> Holds(c, f) && !failure.retryable)
            && (reply == DeadlineReached <==> Holds(c, f) && failure.retryable && now >= c.operations[f.operation].deadlineAt)
            && (reply.Rescheduled? <==> Holds(c, f) && failure.retryable && now < c.operations[f.operation].deadlineAt)
            && (reply.Rescheduled? ==>
                  && reply.nextAttemptAt == Min(now + WaitAfter(c.operations[f.operation].attempts), c.operations[f.operation].deadlineAt)
                  && after.operations[f.operation].status == Pending)
            && (reply == FailedNonRetryable || reply == DeadlineReached ==>
                  after.operations[f.operation].status == Failed && after.operations[f.operation].completedAt == Some(now))
  {
  }

  /** When the operation of a failed attempt can be claimed again: after its wait, or never. */
  lemma FailureWaits(cfg: Config, c: Cell, f: OperationFence, failure: Issuance.AttemptFailure, now: nat, other: Owner, t: nat)
    requires Inv(cfg, c) && Holds(c, f)
    ensures var (after, reply) := Issuance.FailAttempt(c, f, failure, now);
            var (was, claimed) := (c.operations[f.operation], Issuance.Claim(cfg, after, f.operation, other, t).1.Claimed?);
            && (reply.Rescheduled? ==> (claimed <==> now + WaitAfter(was.attempts) <= t < was.deadlineAt))
            && (!reply.Rescheduled? ==> !claimed)
  {
    assert Active(c.operations[f.operation]);
    FailureIsAnswered(c, f, failure, now);
  }

  /** What a reported failure logs; the quote stays `issuing` and no other row moves. */
  lemma FailureIsLogged(cfg: Config, c: Cell, f: OperationFence, failure: Issuance.AttemptFailure, now: nat)
    requires Inv(cfg, c) && Holds(c, f)
    ensures var (after, reply) := Issuance.FailAttempt(c, f, failure, now);
            && after.quote == c.quote && after.manifest == c.manifest && after.deliveries == c.deliveries
            && (forall op <- c.operations | op != f.operation :: op in after.operations && after.operations[op] == c.operations[op])
            && if reply.Rescheduled? then Logs(c, after, AttemptFailed(f.operation, f.generation), None, None)
               else Logs(c, after, IssueFailed(f.operation, if reply == DeadlineReached then DeadlineByHolder else NonRetryable, f.generation),
                         Some(Issuing), Some(Issuing))
  {
    WellFormedSequences(c.audit);
  }

  /** The fenced commit: when it applies, and the manifest, the quote and the entry it leaves. */
  lemma CommitIsAnswered(cfg: Config, c: Cell, f: OperationFence, document: Document, now: nat)
    requires Inv(cfg, c)
    ensures var (after, reply) := Issuance.CommitIssued(c, f, document, now);
            && (reply == StaleFence <==> !Holds(c, f))
            && (reply == SnapshotDiffers <==> Holds(c, f) && document.snapshotHash != c.operations[f.operation].snapshotHash)
            && (reply.Committed? <==> Holds(c, f) && document.snapshotHash == c.operations[f.operation].snapshotHash)
            && (reply.Committed? ==>
                  && reply.generatedAt == now && after.manifest == Some(Manifest(f.operation, document, now))
                  && after.operations[f.operation].status == Succeeded && after.operations[f.operation].completedAt == Some(now)
                  && after.quote == c.quote.(status := Issued, version := c.quote.version + 1) && after.deliveries == c.deliveries
                  && Logs(c, after, QuoteIssued(f.operation, c.quote.version + 1), Some(Issuing), Some(Issued)))
  {
    if Issuance.FenceHolds(c, f) { assert Active(c.operations[f.operation]); }
    WellFormedSequences(c.audit);
  }

  /** The deadline sweep of one operation: exactly from the deadline on, and for a running one after its lease. */
  lemma DeadlineSweepIsAnswered(cfg: Config, c: Cell, op: OperationId, now: nat)
    requires Inv(cfg, c)
    ensures var (after, reply) := Issuance.FailDeadline(c, op, now);
            && (reply.DeadlineFailed? <==>
                  && op in c.operations && now >= c.operations[op].deadlineAt
                  && (c.operations[op].status == Pending
                      || (c.operations[op].status == Running && At(c.operations[op].leaseExpiresAt) < now)))
            && (!reply.DeadlineFailed? ==> reply == NothingDue)
            && (reply.DeadlineFailed? ==>
                  var was := c.operations[op];
                  && reply == DeadlineFailed(was.status, was.generation + 1)
                  && after.operations[op].status == Failed && after.operations[op].generation == was.generation + 1
                  && after.quote == c.quote && after.manifest == c.manifest && after.deliveries == c.deliveries
                  && Logs(c, after, IssueFailed(op, DeadlineBySweep, was.generation + 1), Some(Issuing), Some(Issuing)))
  {
    if op in c.operations && Active(c.operations[op]) { assert OperationSchedule(cfg, c.operations[op]); }
    WellFormedSequences(c.audit);
  }

  /** An operator retry: for the failed current operation only, with a whole new deadline from now on. */
  lemma RetryIsAnswered(cfg: Config, c: Cell, failed: OperationId, retry: OperationId, now: nat, other: Owner, t: nat)
    requires Inv(cfg, c)
    ensures var (after, reply) := Issuance.OperatorRetry(cfg, c, failed, retry, now);
            var eligible := c.quote.status == Issuing && c.quote.currentOperation == Some(failed) && c.operations[failed].status == Failed;
            && (reply.RetryCreated? <==> eligible && retry !in c.operations)
            && (!reply.RetryCreated? ==> reply == if eligible then UniqueViolation else InvalidState(c.quote.status))
            && (reply.RetryCreated? ==>
                  && reply == RetryCreated(retry, now + cfg.deadlineMs)
                  && after.quote == c.quote.(currentOperation := Some(retry), version := c.quote.version + 1)
                  && after.operations.Keys == c.operations.Keys + {retry}
                  && (forall op <- c.operations :: after.operations[op] == c.operations[op])
                  && after.operations[retry].retryOf == Some(failed) && after.operations[retry].attempts == 0
                  && after.operations[retry].snapshotHash == c.operations[failed].snapshotHash
                  && (Issuance.Claim(cfg, after, retry, other, t).1.Claimed? <==> now <= t < now + cfg.deadlineMs)
                  && Logs(c, after, IssueAccepted(retry, Some(failed), c.quote.version + 1), Some(Issuing), Some(Issuing)))
  {
    Guarantees.RetriesFindTheirSnapshot(cfg, c, failed, retry, now);
    WellFormedSequences(c.audit);
  }

  // ---------- expiry ----------

  /** The job materializes exactly the issued quotes at or past the end of their validity. */
  lemma ExpiryIsAnswered(cfg: Config, c: Cell, now: nat)
    requires Inv(cfg, c)
    ensures var (after, reply) := Expiry.MaterializeExpiry(c, now);
            && (reply.Materialized? <==> c.quote.status == Issued && c.quote.issue.value.validUntil <= now)
            && (!reply.Materialized? ==> reply == NothingDue)
            && (reply.Materialized? ==>
                  && reply.version == c.quote.version + 1
                  && after.quote == c.quote.(status := Expired, version := reply.version, expiredAt := Some(c.quote.issue.value.validUntil))
                  && after.operations == c.operations && after.manifest == c.manifest && after.deliveries == c.deliveries
                  && Logs(c, after, QuoteExpired(reply.version), Some(Issued), Some(Expired)))
  {
    WellFormedSequences(c.audit);
  }
}
