/** Every transaction on the rows of one quote, and how one entry changes what the audit log adds up to. */
module Transactions {
  import opened Wrappers
  import opened CommercialSnapshot
  import opened Rows
  import Issuance
  import Deliveries
  import Expiry
  import Commands

  datatype Tx =
    | ClaimOperation(operation: OperationId, owner: Owner)
    | RenewLease(fence: OperationFence)
    | FailAttempt(fence: OperationFence, failure: Issuance.AttemptFailure)
    | CommitIssued(fence: OperationFence, document: Document)
    | FailDeadline(operation: OperationId)
    | OperatorRetry(failed: OperationId, retry: OperationId)
    | MaterializeExpiry
    | RequestDelivery(delivery: DeliveryId, request: Deliveries.DeliveryRequest)
    | ClaimDelivery(delivery: DeliveryId, owner: Owner)
    | CompleteDelivery(deliveryFence: DeliveryFence, outcome: Deliveries.Outcome)
    | SweepDelivery(delivery: DeliveryId)
    | UpdateDraft(principal: Principal, expectedVersion: nat, patch: Commands.Patch)
    | IssueDraft(principal: Principal, expectedVersion: nat, terms: Commands.IssueTerms)
    | CancelQuote(principal: Principal, cancel: Commands.CancelRequest)
    | AnswerFromBinding(replayed: bool)

  ghost function Apply(cfg: Config, c: Cell, tx: Tx, now: nat): (Cell, Reply) {
    match tx
    case ClaimOperation(op, owner) => Issuance.Claim(cfg, c, op, owner, now)
    case RenewLease(f) => Issuance.RenewLease(cfg, c, f, now)
    case FailAttempt(f, failure) => Issuance.FailAttempt(c, f, failure, now)
    case CommitIssued(f, document) => Issuance.CommitIssued(c, f, document, now)
    case FailDeadline(op) => Issuance.FailDeadline(c, op, now)
    case OperatorRetry(failed, retry) => Issuance.OperatorRetry(cfg, c, failed, retry, now)
    case MaterializeExpiry => Expiry.MaterializeExpiry(c, now)
    case RequestDelivery(id, request) => Deliveries.RequestDelivery(c, id, request, now)
    case ClaimDelivery(id, owner) => Deliveries.ClaimDelivery(cfg, c, id, owner, now)
    case CompleteDelivery(f, outcome) => Deliveries.CompleteDelivery(c, f, outcome, now)
    case SweepDelivery(id) => Deliveries.SweepDelivery(c, id, now)
    case UpdateDraft(principal, version, patch) => Commands.UpdateDraft(c, principal, version, patch)
    case IssueDraft(principal, version, terms) => Commands.IssueDraft(cfg, c, principal, version, terms)
    case CancelQuote(principal, request) => Commands.CancelQuote(c, principal, request, now)
    case AnswerFromBinding(replayed) => (Deliveries.Logged(c, if replayed then KeyReplayed else KeyConflict), Noted)
  }

  // ---------- what a log adds up to ----------

  /** The entries an accounting question counts. */
  datatype Selector =
    | SweepsOf(operation: OperationId)
    | EndsOf(operation: OperationId)
    | DeliverySweepsOf(delivery: DeliveryId)
    | DeliveryEndsOf(delivery: DeliveryId)

  predicate Selects(s: Selector, e: Event) {
    match s
    case SweepsOf(op) => e.IssueFailed? && e.operation == op && e.cause == DeadlineBySweep
    case EndsOf(op) => (e.IssueFailed? || e.QuoteIssued?) && e.operation == op
    case DeliverySweepsOf(d) => e == DeliveryUnknown(d, OutcomeUnknownError)
    case DeliveryEndsOf(d) => (e.DeliverySent? || e.DeliveryFailed? || e.DeliveryUnknown?) && e.delivery == d
  }

  function Count(audit: seq<Entry>, s: Selector): nat {
    if audit == [] then 0
    else Count(audit[..|audit| - 1], s) + if Selects(s, audit[|audit| - 1].event) then 1 else 0
  }

  predicate CarriesVersion(e: Event) {
    e.DraftCreated? || e.DraftUpdated? || e.IssueAccepted? || e.QuoteIssued? || e.QuoteExpired? || e.QuoteCancelled?
  }

  /** How many entries of the log committed a new version. */
  function Versions(audit: seq<Entry>): nat {
    if audit == [] then 0
    else Versions(audit[..|audit| - 1]) + if CarriesVersion(audit[|audit| - 1].event) then 1 else 0
  }

  /** The status the log leads to. */
  function LoggedStatus(audit: seq<Entry>): Option<QuoteStatus> {
    if audit == [] then None
    else
      var last := audit[|audit| - 1];
      if last.toStatus.Some? then last.toStatus else LoggedStatus(audit[..|audit| - 1])
  }

  /**
   * A well-formed log: sequences are exactly 1..n, every status-bearing entry leaves the
   * status the log had reached, and every version-bearing entry carries the next version.
   */
  ghost predicate WellFormed(audit: seq<Entry>) {
    audit == [] ||
    var before, last := audit[..|audit| - 1], audit[|audit| - 1];
    && WellFormed(before)
    && last.sequence == |audit|
    && (last.toStatus.Some? ==> last.fromStatus == LoggedStatus(before))
    && (last.toStatus.None? ==> last.fromStatus.None?)
    && (CarriesVersion(last.event) ==> last.toStatus.Some? && last.event.version == Versions(before) + 1)
  }

  lemma {:induction false} WellFormedSequences(audit: seq<Entry>)
    requires WellFormed(audit)
    ensures MaxSequence(audit) == |audit|
    decreases |audit|
  {
    if audit != [] { WellFormedSequences(audit[..|audit| - 1]); }
  }

  ghost predicate Fits(audit: seq<Entry>, event: Event, fromStatus: Option<QuoteStatus>, toStatus: Option<QuoteStatus>) {
    && (toStatus.Some? ==> fromStatus == LoggedStatus(audit))
    && (toStatus.None? ==> fromStatus.None?)
    && (CarriesVersion(event) ==> toStatus.Some? && event.version == Versions(audit) + 1)
  }

  /** One appended entry, in every sum of the log. */
  lemma Appended(audit: seq<Entry>, event: Event, fromStatus: Option<QuoteStatus>, toStatus: Option<QuoteStatus>)
    ensures var after := Append(audit, event, fromStatus, toStatus);
            && |after| == |audit| + 1
            && Versions(after) == Versions(audit) + (if CarriesVersion(event) then 1 else 0)
            && LoggedStatus(after) == (if toStatus.Some? then toStatus else LoggedStatus(audit))
            && (forall s :: Count(after, s) == Count(audit, s) + if Selects(s, event) then 1 else 0)
    ensures WellFormed(audit) && Fits(audit, event, fromStatus, toStatus)
            ==> WellFormed(Append(audit, event, fromStatus, toStatus))
  {
    var after := Append(audit, event, fromStatus, toStatus);
    assert after[..|after| - 1] == audit;
    if WellFormed(audit) { WellFormedSequences(audit); }
  }

  /** The entries a cancel appends for the queued deliveries it fails. */
  lemma {:induction false} AppendedCancelled(audit: seq<Entry>, ids: set<DeliveryId>)
    ensures var after := Commands.AppendCancelled(audit, ids);
            && Versions(after) == Versions(audit)
            && LoggedStatus(after) == LoggedStatus(audit)
            && (WellFormed(audit) ==> WellFormed(after))
    decreases |ids|
  {
    if ids != {} {
      var id := Commands.Smallest(ids);
      Appended(audit, DeliveryFailed(id, QuoteCancelledError), None, None);
      AppendedCancelled(Append(audit, DeliveryFailed(id, QuoteCancelledError), None, None), ids - {id});
    }
  }

  lemma {:induction false} CancelledCount(audit: seq<Entry>, ids: set<DeliveryId>, s: Selector)
    ensures Count(Commands.AppendCancelled(audit, ids), s) ==
            Count(audit, s) + if s.DeliveryEndsOf? && s.delivery in ids then 1 else 0
    decreases |ids|
  {
    if ids != {} {
      var id := Commands.Smallest(ids);
      Appended(audit, DeliveryFailed(id, QuoteCancelledError), None, None);
      CancelledCount(Append(audit, DeliveryFailed(id, QuoteCancelledError), None, None), ids - {id}, s);
    }
  }

  /** How a committed cancel changes one count. */
  lemma CancelCount(c: Cell, principal: Principal, request: Commands.CancelRequest, now: nat, s: Selector)
    ensures var after := Commands.CancelQuote(c, principal, request, now).0;
            Count(after.audit, s) ==
            Count(c.audit, s) +
            if after != c && c.quote.status == Issued && s.DeliveryEndsOf? && s.delivery in Commands.PendingDeliveries(c) then 1 else 0
  {
    var entry := QuoteCancelled(c.quote.version + 1);
    Appended(c.audit, entry, Some(c.quote.status), Some(Cancelled));
    CancelledCount(Append(c.audit, entry, Some(c.quote.status), Some(Cancelled)), Commands.PendingDeliveries(c), s);
    CancelLogs(c, principal, request, now);
  }

  /** A cancel that changes anything logs itself, and then the deliveries it failed. */
  lemma CancelLogs(c: Cell, principal: Principal, request: Commands.CancelRequest, now: nat)
    ensures var after := Commands.CancelQuote(c, principal, request, now).0;
            var logged := Append(c.audit, QuoteCancelled(c.quote.version + 1), Some(c.quote.status), Some(Cancelled));
            after == c ||
            after.audit == if c.quote.status == Issued then Commands.AppendCancelled(logged, Commands.PendingDeliveries(c)) else logged
  {
  }
}
