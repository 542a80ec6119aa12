/**
 * The rows of one quote, updated in place under the quote's row lock, statement by statement as the
 * transactions issue them. Every method leaves exactly the rows and gives exactly the answer that
 * Transactions.Apply specifies, so what is proved of Apply holds of these updates.
 */
module QuoteTables {
  import opened Wrappers
  import opened Arithmetic
  import opened CommercialSnapshot
  import opened Rows
  import opened Transactions
  import opened Expiry
  import Issuance
  import Deliveries
  import Commands

  class Tables {
    const cfg: Config
    var quote: Quote
    var operations: map<OperationId, Operation>
    var manifest: Option<Manifest>
    var deliveries: map<DeliveryId, Delivery>
    var audit: seq<Entry>

    /** The rows as one value. */
    ghost function View(): Cell
      reads this
    {
      Cell(quote, operations, manifest, deliveries, audit)
    }

    constructor (cfg: Config, c: Cell)
      ensures View() == c && this.cfg == cfg
    {
      this.cfg := cfg;
      quote, operations, manifest, deliveries, audit := c.quote, c.operations, c.manifest, c.deliveries, c.audit;
    }

    method AppendAudit(event: Event, fromStatus: Option<QuoteStatus>, toStatus: Option<QuoteStatus>)
      modifies this`audit
      ensures audit == Append(old(audit), event, fromStatus, toStatus)
    {
      var sequence := MaxSequence(audit) + 1;
      audit := audit + [Entry(sequence, event, fromStatus, toStatus)];
    }

    // ---------- issuance ----------

    predicate FenceHolds(f: OperationFence)
      reads this
    {
      && f.operation in operations
      && operations[f.operation].status == Running
      && operations[f.operation].generation == f.generation
      && operations[f.operation].leaseOwner == Some(f.owner)
    }

    method Claim(op: OperationId, owner: Owner, now: nat) returns (reply: Reply)
      modifies this`operations
      ensures (View(), reply) == Apply(cfg, old(View()), ClaimOperation(op, owner), now)
    {
      if op !in operations || quote.status != Issuing || quote.currentOperation != Some(op) {
        return NoneAvailable;
      }
      var o := operations[op];
      var pendingDue := o.status == Pending && o.nextAttemptAt.Some? && o.nextAttemptAt.value <= now;
      var leaseExpired := o.status == Running && o.leaseExpiresAt.Some? && o.leaseExpiresAt.value < now;
      if now >= o.deadlineAt || !(pendingDue || leaseExpired) {
        return NoneAvailable;
      }
      var claimed := o.(status := Running, generation := o.generation + 1, attempts := o.attempts + 1,
                        leaseOwner := Some(owner), leaseExpiresAt := Some(Min(now + cfg.leaseMs, o.deadlineAt)),
                        lastAttemptAt := Some(now), nextAttemptAt := None);
      operations := operations[op := claimed];
      reply := Claimed(Attempt(OperationFence(op, claimed.generation, owner), o.snapshotHash, leaseExpired));
    }

    method EndOperation(op: OperationId, status: OperationStatus, generation: nat, now: nat)
      requires op in operations
      modifies this`operations
      ensures operations == old(operations)[op := Issuance.Ended(old(operations)[op], status, now).(generation := generation)]
    {
      var o := operations[op];
      operations := operations[op := o.(status := status, generation := generation, completedAt := Some(now),
                                        leaseOwner := None, leaseExpiresAt := None, nextAttemptAt := None)];
    }

    method FailAttempt(f: OperationFence, failure: Issuance.AttemptFailure, now: nat) returns (reply: Reply)
      modifies this`operations, this`audit
      ensures (View(), reply) == Apply(cfg, old(View()), Tx.FailAttempt(f, failure), now)
    {
      if !FenceHolds(f) {
        return StaleFence;
      }
      var o := operations[f.operation];
      if !failure.retryable {
        EndOperation(f.operation, Failed, o.generation, now);
        AppendAudit(IssueFailed(f.operation, NonRetryable, o.generation), Some(Issuing), Some(Issuing));
        return FailedNonRetryable;
      }
      if now >= o.deadlineAt {
        EndOperation(f.operation, Failed, o.generation, now);
        AppendAudit(IssueFailed(f.operation, DeadlineByHolder, o.generation), Some(Issuing), Some(Issuing));
        return DeadlineReached;
      }
      var backoff := Issuance.BackoffMs(if o.attempts > 0 then o.attempts else 1);
      var next := Min(now + backoff, o.deadlineAt);
      operations := operations[f.operation := o.(status := Pending, leaseOwner := None, leaseExpiresAt := None, nextAttemptAt := Some(next))];
      AppendAudit(AttemptFailed(f.operation, f.generation), None, None);
      reply := Rescheduled(next);
    }

    method CommitIssued(f: OperationFence, document: Document, now: nat) returns (reply: Reply)
      modifies this`operations, this`audit, this`manifest, this`quote
      ensures (View(), reply) == Apply(cfg, old(View()), Tx.CommitIssued(f, document), now)
    {
      if !FenceHolds(f) || quote.status != Issuing || quote.currentOperation != Some(f.operation) {
        return StaleFence;
      }
      if operations[f.operation].snapshotHash != document.snapshotHash {
        return SnapshotDiffers;
      }
      if manifest.Some? {
        return UniqueViolation;
      }
      manifest := Some(Manifest(f.operation, document, now));
      EndOperation(f.operation, Succeeded, operations[f.operation].generation, now);
      quote := quote.(status := Issued, version := quote.version + 1);
      AppendAudit(QuoteIssued(f.operation, quote.version), Some(Issuing), Some(Issued));
      reply := Committed(now);
    }

    method OperatorRetry(failed: OperationId, retry: OperationId, now: nat) returns (reply: Reply)
      modifies this`operations, this`audit, this`quote
      ensures (View(), reply) == Apply(cfg, old(View()), Tx.OperatorRetry(failed, retry), now)
    {
      if quote.status != Issuing || quote.currentOperation != Some(failed)
         || failed !in operations || operations[failed].status != Failed {
        return InvalidState(quote.status);
      }
      var snapshot := SnapshotOf(quote);
      var accepted := operations[failed].snapshotHash;
      if snapshot.None? || cfg.snapshotHash(snapshot.value) != accepted {
        return IntegrityFailure;
      }
      if retry in operations {
        return UniqueViolation;
      }
      operations := operations[retry := Issuance.NewOperation(now, cfg.deadlineMs, accepted, Some(failed))];
      quote := quote.(currentOperation := Some(retry), version := quote.version + 1);
      AppendAudit(IssueAccepted(retry, Some(failed), quote.version), Some(Issuing), Some(Issuing));
      reply := RetryCreated(retry, now + cfg.deadlineMs);
    }

    // ---------- email delivery ----------

    predicate DeliveryFenceHolds(f: DeliveryFence)
      reads this
    {
      && f.delivery in deliveries
      && deliveries[f.delivery].status == Sending
      && deliveries[f.delivery].generation == f.generation
      && deliveries[f.delivery].leaseOwner == Some(f.owner)
    }

    method RequestDelivery(id: DeliveryId, request: Deliveries.DeliveryRequest, now: nat) returns (reply: Reply)
      modifies this`deliveries, this`audit
      ensures (View(), reply) == Apply(cfg, old(View()), Tx.RequestDelivery(id, request), now)
    {
      if !request.enabled {
        return Rejected(ProviderDisabled);
      }
      if !request.visible {
        return Rejected(QuoteNotFound);
      }
      if !request.wellFormed {
        return Rejected(ValidationError);
      }
      if !request.hasRecipient {
        return Rejected(RecipientMissing);
      }
      var effective := EffectiveExpiry(quote, now).status;
      if effective != Issued {
        return Rejected(InvalidStateTransition(effective));
      }
      if manifest.None? {
        return ManifestMissing;
      }
      if id in deliveries {
        return UniqueViolation;
      }
      var d := Delivery(Queued, 0, 0, None, None, now, Some(now), None, manifest.value.document.pdfSha256, None);
      deliveries := deliveries[id := d];
      AppendAudit(DeliveryRequested(id), None, None);
      reply := DeliveryAccepted(id);
    }

    method Release(id: DeliveryId, status: DeliveryStatus, error: Option<DeliveryError>)
      requires id in deliveries
      modifies this`deliveries
      ensures deliveries == old(deliveries)[id := Deliveries.Released(old(deliveries)[id], status, error)]
    {
      var d := deliveries[id];
      deliveries := deliveries[id := d.(status := status, leaseOwner := None, leaseExpiresAt := None,
                                        nextAttemptAt := None, lastError := error)];
    }

    method ClaimDelivery(id: DeliveryId, owner: Owner, now: nat) returns (reply: Reply)
      modifies this`deliveries, this`audit
      ensures (View(), reply) == Apply(cfg, old(View()), Tx.ClaimDelivery(id, owner), now)
    {
      if id !in deliveries || deliveries[id].status != Queued
         || deliveries[id].nextAttemptAt.None? || deliveries[id].nextAttemptAt.value > now {
        return NoneAvailable;
      }
      var effective := EffectiveExpiry(quote, now).status;
      if effective != Issued {
        var error := Deliveries.IneligibleError(effective);
        Release(id, Undelivered, Some(error));
        AppendAudit(DeliveryFailed(id, error), None, None);
        return Ineligible(error);
      }
      var d := deliveries[id];
      deliveries := deliveries[id := d.(status := Sending, generation := d.generation + 1, attempts := d.attempts + 1,
                                        leaseOwner := Some(owner), leaseExpiresAt := Some(now + cfg.deliveryLeaseMs),
                                        lastAttemptAt := Some(now), nextAttemptAt := None)];
      reply := DeliveryClaimed(DeliveryFence(id, d.generation + 1, owner), d.attempts + 1);
    }

    method CompleteDelivery(f: DeliveryFence, outcome: Deliveries.Outcome, now: nat) returns (reply: Reply)
      modifies this`deliveries, this`audit
      ensures (View(), reply) == Apply(cfg, old(View()), Tx.CompleteDelivery(f, outcome), now)
    {
      if !DeliveryFenceHolds(f) {
        return StaleFence;
      }
      var id, row := f.delivery, deliveries[f.delivery];
      if outcome.ProviderAccepted? {
        Release(id, Sent, row.lastError);
        AppendAudit(DeliverySent(id), None, None);
        return Completed(CompletedSent);
      }
      if outcome.Ambiguous? {
        Release(id, Unknown, Some(AttemptError(outcome.code)));
        AppendAudit(DeliveryUnknown(id, AttemptError(outcome.code)), None, None);
        return Completed(CompletedUnknown);
      }
      var next := if outcome.retryable then Deliveries.NextRetry(row.attempts, row.requestedAt, now) else None;
      if next.Some? {
        Release(id, Queued, Some(AttemptError(outcome.code)));
        deliveries := deliveries[id := deliveries[id].(nextAttemptAt := next)];
        assert deliveries == old(deliveries)[id := deliveries[id]];
        return Completed(CompletedRescheduled);
      }
      Release(id, Undelivered, Some(AttemptError(outcome.code)));
      AppendAudit(DeliveryFailed(id, AttemptError(outcome.code)), None, None);
      reply := Completed(CompletedFailed);
    }

    // ---------- drafts ----------

    method UpdateDraft(principal: Principal, expectedVersion: nat, patch: Commands.Patch, now: nat) returns (reply: Reply)
      modifies this`quote, this`audit
      ensures (View(), reply) == Apply(cfg, old(View()), Tx.UpdateDraft(principal, expectedVersion, patch), now)
    {
      if principal != quote.creator {
        return Rejected(QuoteNotFound);
      }
      if !Commands.ValidPatch(patch) {
        return Rejected(ValidationError);
      }
      var refused := Commands.DraftGuard(quote, expectedVersion);
      if refused.Some? {
        return Rejected(refused.value);
      }
      var current := ReadBack(quote.content);
      var content := Commands.Patched(patch, current);
      if !ValidCommercial(content) {
        return StoredDataInvalid;
      }
      var computed := ComputeSnapshot(content);
      if computed.Failure? {
        return Rejected(ValidationError);
      }
      var stored := quote.content;
      quote := quote.(totals := computed.value, version := quote.version + 1,
                      content := stored.(party := Commands.PatchedParty(patch, stored)));
      if patch.lines.Some? {
        quote := quote.(content := quote.content.(lines := MapLines(StoredLine, patch.lines.value)));
      }
      if patch.shipping.SetShipping? {
        quote := quote.(content := quote.content.(shipping := None));
        if patch.shipping.shipping.Some? {
          quote := quote.(content := quote.content.(shipping := Some(StoredCharge(patch.shipping.shipping.value))));
        }
      }
      assert quote.content == Commands.Rewritten(patch, stored);
      AppendAudit(DraftUpdated(quote.version), Some(Draft), Some(Draft));
      reply := Accepted(quote.version);
    }

    method IssueDraft(principal: Principal, expectedVersion: nat, terms: Commands.IssueTerms, now: nat) returns (reply: Reply)
      modifies this`quote, this`operations, this`audit
      ensures (View(), reply) == Apply(cfg, old(View()), Tx.IssueDraft(principal, expectedVersion, terms), now)
    {
      if principal != quote.creator {
        return Rejected(QuoteNotFound);
      }
      var refused := Commands.DraftGuard(quote, expectedVersion);
      if refused.Some? {
        return Rejected(refused.value);
      }
      var content := ReadBack(quote.content);
      if content.lines == [] {
        return Rejected(ValidationError);
      }
      if !ValidCommercial(content) {
        return StoredDataInvalid;
      }
      var computed := ComputeSnapshot(content);
      if computed.Failure? {
        return Rejected(ValidationError);
      }
      if computed.value != quote.totals {
        return TotalsDiverge;
      }
      if !Commands.TotalsAgree(terms.expected, computed.value) {
        return Rejected(ArithmeticMismatch);
      }
      if terms.issue.None? {
        return Rejected(ValidationError);
      }
      if terms.operation in operations {
        return UniqueViolation;
      }
      var issue := terms.issue.value;
      quote := quote.(status := Issuing, version := quote.version + 1, issue := Some(issue), currentOperation := Some(terms.operation));
      var hash := cfg.snapshotHash(SnapshotOf(quote).value);
      operations := operations[terms.operation := Issuance.NewOperation(issue.issuedAt, terms.deadlineMs, hash, None)];
      AppendAudit(IssueAccepted(terms.operation, None, quote.version), Some(Draft), Some(Issuing));
      reply := Accepted(quote.version);
    }

    // ---------- cancel ----------

    /** The queued deliveries, failed in one statement; returns their ids. */
    method FailQueued() returns (failed: set<DeliveryId>)
      modifies this`deliveries
      ensures failed == Commands.PendingDeliveries(old(View()))
      ensures deliveries == Commands.FailPending(old(deliveries))
    {
      failed := set id | id in deliveries && deliveries[id].status == Queued;
      deliveries := map id | id in deliveries ::
        if deliveries[id].status == Queued
        then Deliveries.Released(deliveries[id], Undelivered, Some(QuoteCancelledError))
        else deliveries[id];
    }

    /** One entry per failed delivery, in id order. */
    method LogCancelled(failed: set<DeliveryId>)
      modifies this`audit
      ensures audit == Commands.AppendCancelled(old(audit), failed)
    {
      var remaining := failed;
      while remaining != {}
        invariant Commands.AppendCancelled(audit, remaining) == Commands.AppendCancelled(old(audit), failed)
        decreases |remaining|
      {
        ghost var least := Commands.Smallest(remaining);
        var id :| id in remaining && forall other <- remaining :: id <= other;
        assert id == least;
        AppendAudit(DeliveryFailed(id, QuoteCancelledError), None, None);
        remaining := remaining - {id};
      }
    }

    method CancelQuote(principal: Principal, request: Commands.CancelRequest, now: nat) returns (reply: Reply)
      modifies this`quote, this`deliveries, this`audit
      ensures (View(), reply) == Apply(cfg, old(View()), Tx.CancelQuote(principal, request), now)
    {
      if principal != quote.creator {
        return Rejected(QuoteNotFound);
      }
      if !request.wellFormed {
        return Rejected(ValidationError);
      }
      if quote.status == Issuing {
        if quote.currentOperation.None? || quote.currentOperation.value !in operations
           || operations[quote.currentOperation.value].status != Failed {
          return Rejected(OperationInProgress);
        }
      } else if quote.status == Issued {
        if IsPastValidity(quote.issue, now) {
          return Rejected(InvalidStateTransition(Expired));
        }
      } else if quote.status != Draft {
        return Rejected(InvalidStateTransition(quote.status));
      }
      if quote.version != request.expectedVersion {
        return Rejected(VersionConflict(quote.version));
      }
      var was := quote.status;
      quote := quote.(status := Cancelled, version := quote.version + 1);
      var failed: set<DeliveryId> := {};
      if was == Issued {
        failed := FailQueued();
      }
      AppendAudit(QuoteCancelled(quote.version), Some(was), Some(Cancelled));
      LogCancelled(failed);
      reply := Accepted(quote.version);
    }
  }
}
