/**
 * Email delivery transactions on the rows of one quote
 * (quote-v2-deliveries.ts, quote-v2-delivery-execution.ts, delivery-policy.ts).
 */
module Deliveries {
  import opened Wrappers
  import opened Rows
  import opened Expiry

  const MAX_ATTEMPTS: nat := 6
  const RETRY_WINDOW_MS: nat := 86_400_000

  /** What the worker learned about one attempt, in the mail port's terms. */
  datatype Outcome = ProviderAccepted | NotAccepted(retryable: bool, code: nat) | Ambiguous(code: nat)

  predicate Terminal(status: DeliveryStatus) { status in {Sent, Undelivered, Unknown} }

  predicate FenceHolds(c: Cell, f: DeliveryFence) {
    && f.delivery in c.deliveries
    && var d := c.deliveries[f.delivery];
      d.status == Sending && d.generation == f.generation && d.leaseOwner == Some(f.owner)
  }

  /** 1 m, 5 m, 15 m, 1 h, 4 h after attempt 1..5. */
  function RetryDelayMs(attempts: nat): pos {
    match attempts
    case 0 => 60_000
    case 1 => 60_000
    case 2 => 300_000
    case 3 => 900_000
    case 4 => 3_600_000
    case _ => 14_400_000
  }

  /** The next attempt after a provably refused one, unless attempts or the window are exhausted. */
  function NextRetry(attempts: nat, requestedAt: nat, now: nat): Option<nat> {
    if attempts >= MAX_ATTEMPTS then None
    else
      var next := now + RetryDelayMs(attempts);
      if next > requestedAt + RETRY_WINDOW_MS then None else Some(next)
  }

  function WithDelivery(c: Cell, id: DeliveryId, d: Delivery): Cell {
    c.(deliveries := c.deliveries[id := d])
  }

  /** A row outside `sending` holds no lease. */
  function Released(d: Delivery, status: DeliveryStatus, error: Option<DeliveryError>): Delivery {
    d.(status := status, leaseOwner := None, leaseExpiresAt := None, nextAttemptAt := None, lastError := error)
  }

  function Logged(c: Cell, event: Event): Cell {
    c.(audit := Append(c.audit, event, None, None))
  }

  /** Who asks and whether the request names or inherits a mailbox. */
  datatype DeliveryRequest = DeliveryRequest(enabled: bool, visible: bool, wellFormed: bool, hasRecipient: bool)

  function RequestDelivery(c: Cell, id: DeliveryId, request: DeliveryRequest, now: nat): (Cell, Reply) {
    if !request.enabled then (c, Rejected(ProviderDisabled))
    else if !request.visible then (c, Rejected(QuoteNotFound))
    else if !request.wellFormed then (c, Rejected(ValidationError))
    else if !request.hasRecipient then (c, Rejected(RecipientMissing))
    else
      var effective := EffectiveExpiry(c.quote, now).status;
      if effective != Issued then (c, Rejected(InvalidStateTransition(effective)))
      else if c.manifest.None? then (c, ManifestMissing)
      else if id in c.deliveries then (c, UniqueViolation)
      else
        var d := Delivery(Queued, 0, 0, None, None, now, Some(now), None, c.manifest.value.document.pdfSha256, None);
        (Logged(WithDelivery(c, id, d), DeliveryRequested(id)), DeliveryAccepted(id))
  }

  predicate DeliveryDue(c: Cell, id: DeliveryId, now: nat) {
    && id in c.deliveries
    && c.deliveries[id].status == Queued
    && c.deliveries[id].nextAttemptAt.Some?
    && c.deliveries[id].nextAttemptAt.value <= now
  }

  function IneligibleError(status: QuoteStatus): DeliveryError {
    match status
    case Expired => QuoteExpiredError
    case Cancelled => QuoteCancelledError
    case _ => QuoteNotIssuedError
  }

  /** A due delivery of an effectively issued quote becomes `sending`; of any other quote it fails unsent. */
  function ClaimDelivery(cfg: Config, c: Cell, id: DeliveryId, owner: Owner, now: nat): (Cell, Reply) {
    if !DeliveryDue(c, id, now) then (c, NoneAvailable)
    else
      var d := c.deliveries[id];
      var effective := EffectiveExpiry(c.quote, now).status;
      if effective != Issued then
        var error := IneligibleError(effective);
        (Logged(WithDelivery(c, id, Released(d, Undelivered, Some(error))), DeliveryFailed(id, error)), Ineligible(error))
      else
        var claimed := d.(status := Sending, generation := d.generation + 1, attempts := d.attempts + 1,
                          leaseOwner := Some(owner), leaseExpiresAt := Some(now + cfg.deliveryLeaseMs),
                          lastAttemptAt := Some(now), nextAttemptAt := None);
        (WithDelivery(c, id, claimed), DeliveryClaimed(DeliveryFence(id, claimed.generation, owner), claimed.attempts))
  }

  /** Fenced completion: zero effect unless the row is still `sending` under this fence. */
  function CompleteDelivery(c: Cell, f: DeliveryFence, outcome: Outcome, now: nat): (Cell, Reply) {
    if !FenceHolds(c, f) then (c, StaleFence)
    else
      var id, d := f.delivery, c.deliveries[f.delivery];
      match outcome
      case ProviderAccepted =>
        (Logged(WithDelivery(c, id, Released(d, Sent, d.lastError)), DeliverySent(id)), Completed(CompletedSent))
      case Ambiguous(code) =>
        (Logged(WithDelivery(c, id, Released(d, Unknown, Some(AttemptError(code)))), DeliveryUnknown(id, AttemptError(code))),
         Completed(CompletedUnknown))
      case NotAccepted(retryable, code) =>
        var next := if retryable then NextRetry(d.attempts, d.requestedAt, now) else None;
        if next.Some? then
          (WithDelivery(c, id, Released(d, Queued, Some(AttemptError(code))).(nextAttemptAt := next)), Completed(CompletedRescheduled))
        else
          (Logged(WithDelivery(c, id, Released(d, Undelivered, Some(AttemptError(code)))), DeliveryFailed(id, AttemptError(code))),
           Completed(CompletedFailed))
  }

  /** An expired `sending` lease is resolved to `unknown`, never back to a queued state. */
  function SweepDelivery(c: Cell, id: DeliveryId, now: nat): (Cell, Reply) {
    if id !in c.deliveries || c.deliveries[id].status != Sending
       || c.deliveries[id].leaseExpiresAt.None? || c.deliveries[id].leaseExpiresAt.value >= now then (c, NothingDue)
    else
      var d := c.deliveries[id];
      var swept := Released(d, Unknown, Some(OutcomeUnknownError)).(generation := d.generation + 1);
      (Logged(WithDelivery(c, id, swept), DeliveryUnknown(id, OutcomeUnknownError)), Swept(swept.generation))
  }

  /** How `complete` reads the row back when it never learned whether its COMMIT applied. */
  function ReconcileCompletion(c: Cell, f: DeliveryFence, intended: Option<CompletionKind>): Option<CompletionKind> {
    if FenceHolds(c, f) || f.delivery !in c.deliveries then None
    else
      var d := c.deliveries[f.delivery];
      if d.generation != f.generation || d.leaseOwner.Some? then None
      else
        var landed := match d.status
          case Sent => Some(CompletedSent)
          case Queued => Some(CompletedRescheduled)
          case Undelivered => Some(CompletedFailed)
          case Unknown => Some(CompletedUnknown)
          case Sending => None;
        if landed == intended then landed else None
  }
}
