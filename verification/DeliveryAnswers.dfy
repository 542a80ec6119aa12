/** The answers of the email delivery transactions, exactly, and what the provider's outcome has to do with them. */
module DeliveryAnswers {
  import opened Wrappers
  import opened Rows
  import opened Transactions
  import opened CellInvariants
  import opened Answers
  import Deliveries

  // ---------- requests ----------

  /** Issued and not past its validity, on the rows. */
  predicate StillIssued(c: Cell, now: nat) { c.quote.status == Issued && (c.quote.issue.Some? ==> now < c.quote.issue.value.validUntil) }

  /** The status a caller is told: an issued quote past its validity is expired. */
  predicate Told(c: Cell, now: nat, status: QuoteStatus) {
    status == if c.quote.status == Issued && !StillIssued(c, now) then Expired else c.quote.status
  }

  /** When an email request is accepted, and which of its defects a refusal names, the first one first. */
  lemma RequestIsAnswered(cfg: Config, c: Cell, id: DeliveryId, request: Deliveries.DeliveryRequest, now: nat)
    requires Inv(cfg, c)
    ensures var (after, reply) := Deliveries.RequestDelivery(c, id, request, now);
            var asked := request.enabled && request.visible && request.wellFormed && request.hasRecipient;
            && (reply.DeliveryAccepted? <==> asked && id !in c.deliveries && StillIssued(c, now))
            && (reply == Rejected(ProviderDisabled) <==> !request.enabled)
            && (reply == Rejected(QuoteNotFound) <==> request.enabled && !request.visible)
            && (reply == Rejected(ValidationError) <==> request.enabled && request.visible && !request.wellFormed)
            && (reply == Rejected(RecipientMissing) <==> request.enabled && request.visible && request.wellFormed && !request.hasRecipient)
            && (asked && !StillIssued(c, now) ==>
                  reply.Rejected? && reply.reason.InvalidStateTransition? && Told(c, now, reply.reason.status))
            && (asked && StillIssued(c, now) && id in c.deliveries ==> reply == UniqueViolation)
  {
  }

  /** An accepted request queues one row, pinned to the committed document, that can be claimed at once. */
  lemma RequestedIsQueued(cfg: Config, c: Cell, id: DeliveryId, request: Deliveries.DeliveryRequest, now: nat, owner: Owner, t: nat)
    requires Inv(cfg, c) && Deliveries.RequestDelivery(c, id, request, now).1.DeliveryAccepted?
    ensures var (after, reply) := Deliveries.RequestDelivery(c, id, request, now);
            && reply == DeliveryAccepted(id)
            && after.deliveries.Keys == c.deliveries.Keys + {id}
            && (forall other <- c.deliveries :: after.deliveries[other] == c.deliveries[other])
            && c.manifest.Some? && after.deliveries[id].documentSha256 == c.manifest.value.document.pdfSha256
            && after.deliveries[id].status == Queued && after.deliveries[id].attempts == 0 && after.deliveries[id].requestedAt == now
            && after.quote == c.quote && after.operations == c.operations && after.manifest == c.manifest
            && Logs(c, after, DeliveryRequested(id), None, None)
            && (Deliveries.ClaimDelivery(cfg, after, id, owner, t).1.DeliveryClaimed? <==> now <= t && StillIssued(c, t))
  {
    WellFormedSequences(c.audit);
  }

  // ---------- claims ----------

  /** When a delivery is handed out, and why a due one is failed instead. */
  lemma DeliveryClaimIsAnswered(cfg: Config, c: Cell, id: DeliveryId, owner: Owner, now: nat)
    requires Inv(cfg, c)
    ensures var (after, reply) := Deliveries.ClaimDelivery(cfg, c, id, owner, now);
            var due := id in c.deliveries && c.deliveries[id].status == Queued && At(c.deliveries[id].nextAttemptAt) <= now;
            && (reply.DeliveryClaimed? <==> due && StillIssued(c, now))
            && (reply == Ineligible(QuoteCancelledError) <==> due && c.quote.status == Cancelled)
            && (reply == Ineligible(QuoteExpiredError) <==> due && !StillIssued(c, now) && c.quote.status in {Issued, Expired})
            && (reply == NoneAvailable <==> !due)
            && (reply.DeliveryClaimed? ==>
                  var (was, got) := (c.deliveries[id], after.deliveries[id]);
                  && reply == DeliveryClaimed(DeliveryFence(id, was.generation + 1, owner), was.attempts + 1)
                  && got.status == Sending && got.generation == was.generation + 1 && got.attempts == was.attempts + 1
                  && got.leaseOwner == Some(owner) && got.lastAttemptAt == Some(now) && got.requestedAt == was.requestedAt
                  && c.manifest.Some? && got.documentSha256 == was.documentSha256 == c.manifest.value.document.pdfSha256
                  && after == c.(deliveries := c.deliveries[id := got]))
            && (reply.Ineligible? ==>
                  && after.deliveries.Keys == c.deliveries.Keys && after.deliveries[id].status == Undelivered
                  && after.deliveries[id].lastError == Some(reply.error) && after.deliveries[id].generation == c.deliveries[id].generation
                  && (forall other <- c.deliveries | other != id :: after.deliveries[other] == c.deliveries[other])
                  && after.quote == c.quote && Logs(c, after, DeliveryFailed(id, reply.error), None, None))
  {
    if id in c.deliveries { assert DeliverySchedule(c.deliveries[id]); }
    WellFormedSequences(c.audit);
  }

  /** A claimed delivery is nobody else's, and is swept exactly after the configured lease. */
  lemma DeliveryLeaseLastsItsLength(cfg: Config, c: Cell, id: DeliveryId, owner: Owner, now: nat, other: Owner, t: nat)
    requires Deliveries.ClaimDelivery(cfg, c, id, owner, now).1.DeliveryClaimed?
    ensures var after := Deliveries.ClaimDelivery(cfg, c, id, owner, now).0;
            && Deliveries.ClaimDelivery(cfg, after, id, other, t).1 == NoneAvailable
            && (Deliveries.SweepDelivery(after, id, t).1.Swept? <==> t > now + cfg.deliveryLeaseMs)
  {
  }

  // ---------- completions ----------

  predicate HoldsDelivery(c: Cell, f: DeliveryFence) {
    && f.delivery in c.deliveries && c.deliveries[f.delivery].status == Sending
    && c.deliveries[f.delivery].generation == f.generation && c.deliveries[f.delivery].leaseOwner == Some(f.owner)
  }

  /** 1 min, 5 min, 15 min, 1 h, 4 h after the first, second, … attempt. */
  const RETRIES: seq<nat> := [60_000, 300_000, 900_000, 3_600_000, 14_400_000]

  /** A provably refused attempt may be repeated: six attempts, the last within 24 hours of the request. */
  predicate MayRetry(d: Delivery, outcome: Deliveries.Outcome, now: nat)
    requires d.attempts > 0
  {
    outcome.NotAccepted? && outcome.retryable && d.attempts < 6 && now + RETRIES[d.attempts - 1] <= d.requestedAt + 24 * 60 * 60 * 1000
  }

  lemma RetryIsPermittedIff(d: Delivery, code: nat, now: nat)
    requires 0 < d.attempts <= 6
    ensures Deliveries.NextRetry(d.attempts, d.requestedAt, now) ==
            if MayRetry(d, Deliveries.NotAccepted(true, code), now) then Some(now + RETRIES[d.attempts - 1]) else None
  {
  }

  /** Row, answer and entry of a completion, against what the provider was found to have done. */
  ghost predicate CompletedAs(c: Cell, f: DeliveryFence, outcome: Deliveries.Outcome, now: nat, after: Cell, reply: Reply)
    requires HoldsDelivery(c, f) && c.deliveries[f.delivery].attempts > 0 && f.delivery in after.deliveries
  {
    var (was, id, got) := (c.deliveries[f.delivery], f.delivery, after.deliveries[f.delivery]);
    var (again, refused) := (MayRetry(was, outcome, now), outcome.NotAccepted? && !MayRetry(was, outcome, now));
    && (got.status == Sent <==> outcome.ProviderAccepted?)
    && (reply == Completed(CompletedSent) <==> outcome.ProviderAccepted?)
    && (outcome.ProviderAccepted? ==> Logs(c, after, DeliverySent(id), None, None))
    && (got.status == Unknown <==> outcome.Ambiguous?)
    && (reply == Completed(CompletedUnknown) <==> outcome.Ambiguous?)
    && (outcome.Ambiguous? ==> Logs(c, after, DeliveryUnknown(id, AttemptError(outcome.code)), None, None))
    && (got.status == Queued <==> again)
    && (reply == Completed(CompletedRescheduled) <==> again)
    && (again ==> after.audit == c.audit && got.nextAttemptAt == Some(now + RETRIES[was.attempts - 1]))
    && (got.status == Undelivered <==> refused)
    && (reply == Completed(CompletedFailed) <==> refused)
    && (refused ==> Logs(c, after, DeliveryFailed(id, AttemptError(outcome.code)), None, None))
  }

  lemma OutcomeIsCompleted(c: Cell, f: DeliveryFence, outcome: Deliveries.Outcome, now: nat)
    requires WellFormed(c.audit) && HoldsDelivery(c, f) && 0 < c.deliveries[f.delivery].attempts <= 6
    ensures var (after, reply) := Deliveries.CompleteDelivery(c, f, outcome, now);
            f.delivery in after.deliveries && CompletedAs(c, f, outcome, now, after, reply)
  {
    WellFormedSequences(c.audit);
    if outcome.NotAccepted? { RetryIsPermittedIff(c.deliveries[f.delivery], outcome.code, now); }
  }

  /**
   * What the holder's outcome makes of a delivery. Sent, in the row, in the answer and in the log, exactly if the
   * provider accepted; unknown exactly if it may have; otherwise queued again exactly if the retry is permitted,
   * and failed if not.
   */
  lemma CompletionIsAnswered(cfg: Config, c: Cell, f: DeliveryFence, outcome: Deliveries.Outcome, now: nat)
    requires Inv(cfg, c) && HoldsDelivery(c, f)
    ensures c.deliveries[f.delivery].attempts > 0
    ensures var (after, reply) := Deliveries.CompleteDelivery(c, f, outcome, now);
            f.delivery in after.deliveries && CompletedAs(c, f, outcome, now, after, reply)
  {
    assert DeliverySchedule(c.deliveries[f.delivery]);
    OutcomeIsCompleted(c, f, outcome, now);
  }

  /** A completion moves one row, whose fence, attempts and pinned document stay. */
  lemma CompletionMovesOneRow(c: Cell, f: DeliveryFence, outcome: Deliveries.Outcome, now: nat)
    ensures var (after, reply) := Deliveries.CompleteDelivery(c, f, outcome, now);
            && (reply == StaleFence <==> !HoldsDelivery(c, f)) && (reply == StaleFence ==> after == c)
            && after.quote == c.quote && after.operations == c.operations && after.manifest == c.manifest
            && (HoldsDelivery(c, f) ==>
                  var (was, got) := (c.deliveries[f.delivery], after.deliveries[f.delivery]);
                  && after.deliveries.Keys == c.deliveries.Keys
                  && (forall other <- c.deliveries | other != f.delivery :: after.deliveries[other] == c.deliveries[other])
                  && got.generation == was.generation && got.attempts == was.attempts && got.documentSha256 == was.documentSha256
                  && got.requestedAt == was.requestedAt && got.leaseOwner.None? && got.leaseExpiresAt.None?
                  && got.lastError == (if outcome.ProviderAccepted? then was.lastError else Some(AttemptError(outcome.code))))
  {
  }

  /** A completion that landed is found by reading the row back, and one that did not is not. */
  lemma ReadBackFindsTheCompletion(c: Cell, f: DeliveryFence, outcome: Deliveries.Outcome, now: nat)
    requires HoldsDelivery(c, f)
    ensures var (after, reply) := Deliveries.CompleteDelivery(c, f, outcome, now);
            && reply.Completed?
            && Deliveries.ReconcileCompletion(after, f, Some(reply.kind)) == Some(reply.kind)
            && Deliveries.ReconcileCompletion(c, f, Some(reply.kind)) == None
  {
  }

  // ---------- the sweep ----------

  /** The sweep takes exactly the rows whose lease ended, and resolves them as unknown, fencing out their holder. */
  lemma DeliverySweepIsAnswered(cfg: Config, c: Cell, id: DeliveryId, now: nat)
    requires Inv(cfg, c)
    ensures var (after, reply) := Deliveries.SweepDelivery(c, id, now);
            && (reply.Swept? <==> id in c.deliveries && c.deliveries[id].status == Sending && At(c.deliveries[id].leaseExpiresAt) < now)
            && (!reply.Swept? ==> reply == NothingDue)
            && (reply.Swept? ==>
                  && reply.generation == c.deliveries[id].generation + 1 == after.deliveries[id].generation
                  && after.deliveries[id].status == Unknown && after.deliveries[id].lastError == Some(OutcomeUnknownError)
                  && (forall other <- c.deliveries | other != id :: other in after.deliveries && after.deliveries[other] == c.deliveries[other])
                  && after.quote == c.quote && after.operations == c.operations && after.manifest == c.manifest
                  && Logs(c, after, DeliveryUnknown(id, OutcomeUnknownError), None, None))
  {
    if id in c.deliveries { assert DeliverySchedule(c.deliveries[id]); }
    WellFormedSequences(c.audit);
  }
}
