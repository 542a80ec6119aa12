/**
 * Commands of a principal on one quote, after the idempotency lookup found the key
 * unbound (quote-v2-acceptance.ts, quote-v2-drafts.ts, quote-v2-cancel.ts).
 */
module Commands {
  import opened Wrappers
  import opened Arithmetic
  import opened CommercialSnapshot
  import opened Rows
  import opened Expiry
  import Issuance
  import Deliveries

  datatype ExpectedTotals = ExpectedTotals(net: int, tax: int, gross: int)

  predicate TotalsAgree(expected: Option<ExpectedTotals>, t: Totals) {
    expected.Some? ==> expected.value == ExpectedTotals(t.net, t.tax, t.gross)
  }

  /**
   * The issue part of a request. `issue` is what the transaction allocates, or nothing
   * when the requested validity override is out of range.
   */
  datatype IssueTerms = IssueTerms(expected: Option<ExpectedTotals>, issue: Option<Issue>, operation: OperationId, deadlineMs: pos)

  datatype ShippingPatch = KeepShipping | SetShipping(shipping: Option<Charge>)

  datatype Patch = Patch(lines: Option<seq<Line>>, shipping: ShippingPatch, party: Option<nat>)

  predicate ValidPatch(p: Patch) {
    && (p.lines.Some? ==> ValidLines(p.lines.value))
    && (p.shipping.SetShipping? ==> ValidShipping(p.shipping.shipping))
    && (p.lines.Some? || p.shipping.SetShipping? || p.party.Some?)
  }

  function DraftCell(id: QuoteId, creator: Principal, content: Commercial, totals: Totals): Cell {
    Cell(Quote(id, Draft, 1, creator, Stored(content), totals, None, None, None), map[], None, map[], [])
  }

  /** T1. */
  function CreateDraft(id: QuoteId, creator: Principal, content: Commercial): Result<Cell, Reply> {
    if !ValidCommercial(content) then Failure(Rejected(ValidationError))
    else
      match ComputeSnapshot(content)
      case Failure(_) => Failure(Rejected(ValidationError))
      case Success(totals) =>
        var c := DraftCell(id, creator, content, totals);
        Success(c.(audit := Append(c.audit, DraftCreated(1), None, Some(Draft))))
  }

  /**
   * Freezes the issue allocation and adds the pending operation that carries the hash of
   * the rows just frozen (T3 with increment 1, T4 with increment 0).
   */
  function Freeze(cfg: Config, c: Cell, issue: Issue, op: OperationId, deadlineMs: pos, increment: nat, from: Option<QuoteStatus>): (Cell, Reply) {
    var q := c.quote.(status := Issuing, version := c.quote.version + increment, issue := Some(issue), currentOperation := Some(op));
    var snapshot := SnapshotOf(q).value;
    if op in c.operations then (c, UniqueViolation)
    else
      (c.(quote := q,
          operations := c.operations[op := Issuance.NewOperation(issue.issuedAt, deadlineMs, cfg.snapshotHash(snapshot), None)],
          audit := Append(c.audit, IssueAccepted(op, None, q.version), from, Some(Issuing))),
       Accepted(q.version))
  }

  /** T4: one commit at version 1, with no draft event. */
  function CreateAndIssue(cfg: Config, id: QuoteId, creator: Principal, content: Commercial, terms: IssueTerms): Result<Cell, Reply> {
    if !ValidCommercial(content) || content.lines == [] then Failure(Rejected(ValidationError))
    else
      match ComputeSnapshot(content)
      case Failure(_) => Failure(Rejected(ValidationError))
      case Success(totals) =>
        if !TotalsAgree(terms.expected, totals) then Failure(Rejected(ArithmeticMismatch))
        else if terms.issue.None? then Failure(Rejected(ValidationError))
        else Success(Freeze(cfg, DraftCell(id, creator, content, totals), terms.issue.value, terms.operation, terms.deadlineMs, 0, None).0)
  }

  /** Only a draft at exactly the expected version can be edited or issued. */
  function DraftGuard(q: Quote, expectedVersion: nat): Option<Rejection> {
    if q.status == Issuing then Some(OperationInProgress)
    else if q.status != Draft then Some(InvalidStateTransition(q.status))
    else if q.version != expectedVersion then Some(VersionConflict(q.version))
    else None
  }

  function PatchedLines(p: Patch, current: Commercial): seq<Line> {
    if p.lines.Some? then p.lines.value else current.lines
  }

  function PatchedShipping(p: Patch, current: Commercial): Option<Charge> {
    if p.shipping.SetShipping? then p.shipping.shipping else current.shipping
  }

  function PatchedParty(p: Patch, current: Commercial): nat {
    if p.party.Some? then p.party.value else current.party
  }

  /** Totals are computed from what is read back; only replaced members are rewritten. */
  function Patched(p: Patch, current: Commercial): Commercial {
    Commercial(PatchedLines(p, current), PatchedShipping(p, current), PatchedParty(p, current))
  }

  function Rewritten(p: Patch, stored: Commercial): Commercial {
    Commercial(
      if p.lines.Some? then MapLines(StoredLine, p.lines.value) else stored.lines,
      if p.shipping.KeepShipping? then stored.shipping
      else if p.shipping.shipping.Some? then Some(StoredCharge(p.shipping.shipping.value)) else None,
      PatchedParty(p, stored))
  }

  /** T2. */
  function UpdateDraft(c: Cell, principal: Principal, expectedVersion: nat, patch: Patch): (Cell, Reply) {
    if principal != c.quote.creator then (c, Rejected(QuoteNotFound))
    else if !ValidPatch(patch) then (c, Rejected(ValidationError))
    else
      var guard := DraftGuard(c.quote, expectedVersion);
      if guard.Some? then (c, Rejected(guard.value))
      else
        var content := Patched(patch, ReadBack(c.quote.content));
        if !ValidCommercial(content) then (c, StoredDataInvalid)
        else
          match ComputeSnapshot(content)
          case Failure(_) => (c, Rejected(ValidationError))
          case Success(totals) =>
            var version := c.quote.version + 1;
            (c.(quote := c.quote.(content := Rewritten(patch, c.quote.content), totals := totals, version := version),
                audit := Append(c.audit, DraftUpdated(version), Some(Draft), Some(Draft))),
             Accepted(version))
  }

  /** T3. */
  function IssueDraft(cfg: Config, c: Cell, principal: Principal, expectedVersion: nat, terms: IssueTerms): (Cell, Reply) {
    if principal != c.quote.creator then (c, Rejected(QuoteNotFound))
    else
      var guard := DraftGuard(c.quote, expectedVersion);
      var content := ReadBack(c.quote.content);
      if guard.Some? then (c, Rejected(guard.value))
      else if content.lines == [] then (c, Rejected(ValidationError))
      else if !ValidCommercial(content) then (c, StoredDataInvalid)
      else
        match ComputeSnapshot(content)
        case Failure(_) => (c, Rejected(ValidationError))
        case Success(totals) =>
          if totals != c.quote.totals then (c, TotalsDiverge)
          else if !TotalsAgree(terms.expected, totals) then (c, Rejected(ArithmeticMismatch))
          else if terms.issue.None? then (c, Rejected(ValidationError))
          else Freeze(cfg, c, terms.issue.value, terms.operation, terms.deadlineMs, 1, Some(Draft))
  }

  // ---------- cancel ----------

  function SmallestFrom(s: set<nat>, bound: nat): (m: nat)
    requires exists x :: x in s && x <= bound
    ensures m in s && m <= bound
    ensures forall x <- s :: m <= x
    decreases bound
  {
    if bound == 0 || forall x <- s :: x > bound - 1 then
      assert bound in s;
      bound
    else SmallestFrom(s, bound - 1)
  }

  ghost function Smallest(s: set<nat>): (m: nat)
    requires s != {}
    ensures m in s && forall x <- s :: m <= x
  {
    var x :| x in s;
    SmallestFrom(s, x)
  }

  function PendingDeliveries(c: Cell): set<DeliveryId> {
    set id | id in c.deliveries && c.deliveries[id].status == Queued
  }

  /** One `delivery failed` entry per failed delivery, in id order. */
  ghost function AppendCancelled(audit: seq<Entry>, ids: set<DeliveryId>): seq<Entry>
    decreases |ids|
  {
    if ids == {} then audit
    else
      var id := Smallest(ids);
      AppendCancelled(Append(audit, DeliveryFailed(id, QuoteCancelledError), None, None), ids - {id})
  }

  function FailPending(deliveries: map<DeliveryId, Delivery>): map<DeliveryId, Delivery> {
    map id | id in deliveries ::
      if deliveries[id].status == Queued
      then Deliveries.Released(deliveries[id], Undelivered, Some(QuoteCancelledError))
      else deliveries[id]
  }

  datatype CancelRequest = CancelRequest(wellFormed: bool, expectedVersion: nat)

  function CancelGuard(c: Cell, now: nat): Option<Rejection> {
    var q := c.quote;
    if q.status == Issuing then
      if q.currentOperation.Some? && q.currentOperation.value in c.operations
         && c.operations[q.currentOperation.value].status == Failed then None
      else Some(OperationInProgress)
    else if q.status == Issued then
      if IsPastValidity(q.issue, now) then Some(InvalidStateTransition(Expired)) else None
    else if q.status != Draft then Some(InvalidStateTransition(q.status))
    else None
  }

  /** T7, T8 and T11: state is checked before version; T8 also fails the queued deliveries. */
  ghost function CancelQuote(c: Cell, principal: Principal, request: CancelRequest, now: nat): (Cell, Reply) {
    if principal != c.quote.creator then (c, Rejected(QuoteNotFound))
    else if !request.wellFormed then (c, Rejected(ValidationError))
    else
      var guard := CancelGuard(c, now);
      if guard.Some? then (c, Rejected(guard.value))
      else if c.quote.version != request.expectedVersion then (c, Rejected(VersionConflict(c.quote.version)))
      else
        var version := c.quote.version + 1;
        var audit := Append(c.audit, QuoteCancelled(version), Some(c.quote.status), Some(Cancelled));
        var quote := c.quote.(status := Cancelled, version := version);
        if c.quote.status != Issued then (c.(quote := quote, audit := audit), Accepted(version))
        else
          (c.(quote := quote, deliveries := FailPending(c.deliveries), audit := AppendCancelled(audit, PendingDeliveries(c))),
           Accepted(version))
  }
}
