/** The answers of the commands of a principal, exactly: created quotes, edits, issues and cancels. */
module CommandAnswers {
  import opened Wrappers
  import opened Arithmetic
  import opened CommercialSnapshot
  import opened Rows
  import opened Transactions
  import opened CellInvariants
  import opened Answers
  import Guarantees
  import Issuance
  import Deliveries
  import Commands
  import Service

  /** The caller named no totals, or exactly the computed ones. */
  predicate TotalsAsExpected(expected: Option<Commands.ExpectedTotals>, t: Totals) {
    expected.Some? ==> expected.value.net == t.net && expected.value.tax == t.tax && expected.value.gross == t.gross
  }

  // ---------- creation ----------

  /** The rows hold what was requested, and the totals computed from it. */
  predicate HoldsRequest(c: Cell, id: QuoteId, creator: Principal, content: Commercial)
    requires ValidCommercial(content)
  {
    && c.quote.id == id && c.quote.creator == creator && ReadBack(c.quote.content) == content
    && c.quote.totals == SumTotals(Charges(content)) && c.quote.version == 1
    && c.manifest.None? && c.deliveries == map[]
  }

  /** A draft is created exactly from a schema-valid request, and holds it. */
  lemma DraftHoldsTheRequest(id: QuoteId, creator: Principal, content: Commercial)
    ensures var created := Commands.CreateDraft(id, creator, content);
            && (created.Success? <==> ValidCommercial(content))
            && (created.Failure? ==> created.error == Rejected(ValidationError))
            && (created.Success? ==>
                  && HoldsRequest(created.value, id, creator, content)
                  && created.value.quote.status == Draft && created.value.quote.issue.None? && created.value.operations == map[]
                  && created.value.audit == [Entry(1, DraftCreated(1), None, Some(Draft))])
  {
    if ValidCommercial(content) {
      OverflowIsDead(content);
      ReadBackStored(content);
    }
  }

  /** The conditions a create-and-issue checks, in order, and what the first that fails is answered. */
  lemma CreateAndIssueIsAnswered(cfg: Config, id: QuoteId, creator: Principal, content: Commercial, terms: Commands.IssueTerms)
    ensures var created := Commands.CreateAndIssue(cfg, id, creator, content, terms);
            var valid := ValidCommercial(content) && content.lines != [];
            && (created.Success? <==> valid && TotalsAsExpected(terms.expected, SumTotals(Charges(content))) && terms.issue.Some?)
            && (created == Failure(Rejected(ArithmeticMismatch)) <==> valid && !TotalsAsExpected(terms.expected, SumTotals(Charges(content))))
            && (created.Failure? ==> created.error == Rejected(ArithmeticMismatch) || created.error == Rejected(ValidationError))
  {
    if ValidCommercial(content) { OverflowIsDead(content); }
  }

  /**
   * What was requested is what is issued: the rows, the frozen snapshot and the hash the operation
   * carries are those of the request, and the operation can be claimed at once.
   */
  lemma IssuedHoldsTheRequest(cfg: Config, id: QuoteId, creator: Principal, content: Commercial, terms: Commands.IssueTerms, owner: Owner, t: nat)
    requires Commands.CreateAndIssue(cfg, id, creator, content, terms).Success?
    ensures var c := Commands.CreateAndIssue(cfg, id, creator, content, terms).value;
            && ValidCommercial(content) && HoldsRequest(c, id, creator, content)
            && c.quote.status == Issuing && c.quote.issue == terms.issue && c.quote.issue.Some?
            && c.quote.currentOperation == Some(terms.operation) && c.operations.Keys == {terms.operation}
            && SnapshotOf(c.quote) == Some(IssuedSnapshot(id, content, SumTotals(Charges(content)), terms.issue.value))
            && c.operations[terms.operation].snapshotHash == cfg.snapshotHash(SnapshotOf(c.quote).value)
            && (Issuance.Claim(cfg, c, terms.operation, owner, t).1.Claimed? <==>
                  terms.issue.value.issuedAt <= t < terms.issue.value.issuedAt + terms.deadlineMs)
            && c.audit == [Entry(1, IssueAccepted(terms.operation, None, 1), None, Some(Issuing))]
  {
    OverflowIsDead(content);
    ReadBackStored(content);
  }

  /** In the service: a created draft is there, holding its request, and no other row moved. */
  lemma CreatedDraftsHoldTheirRequest(cfg: Config, cells: map<QuoteId, Cell>, q: QuoteId, creator: Principal, content: Commercial, now: nat)
    ensures var (after, reply) := Service.Transact(cfg, cells, q, Service.NewDraft(creator, content), now);
            && (reply == Accepted(1) <==> q !in cells && ValidCommercial(content))
            && (reply == Accepted(1) ==> after.Keys == cells.Keys + {q} && HoldsRequest(after[q], q, creator, content))
            && (forall r <- cells :: r in after && after[r] == cells[r])
  {
    DraftHoldsTheRequest(q, creator, content);
  }

  /** And so is a quote created and issued at once. */
  lemma CreatedIssuesHoldTheirRequest(cfg: Config, cells: map<QuoteId, Cell>, q: QuoteId, creator: Principal, content: Commercial, terms: Commands.IssueTerms, now: nat)
    ensures var (after, reply) := Service.Transact(cfg, cells, q, Service.NewIssue(creator, content, terms), now);
            && (reply == Accepted(1) <==>
                  && q !in cells && ValidCommercial(content) && content.lines != []
                  && TotalsAsExpected(terms.expected, SumTotals(Charges(content))) && terms.issue.Some?)
            && (reply == Accepted(1) ==>
                  && after.Keys == cells.Keys + {q} && HoldsRequest(after[q], q, creator, content)
                  && SnapshotOf(after[q].quote) == Some(IssuedSnapshot(q, content, SumTotals(Charges(content)), terms.issue.value)))
            && (forall r <- cells :: r in after && after[r] == cells[r])
  {
    CreateAndIssueIsAnswered(cfg, q, creator, content, terms);
    if Commands.CreateAndIssue(cfg, q, creator, content, terms).Success? { IssuedHoldsTheRequest(cfg, q, creator, content, terms, 0, 0); }
  }

  // ---------- drafts ----------

  /** Why a draft cannot be edited or issued: the state first, then the version. */
  predicate DraftRefusal(c: Cell, expectedVersion: nat, reason: Rejection) {
    match c.quote.status
    case Draft => c.quote.version != expectedVersion && reason == VersionConflict(c.quote.version)
    case Issuing => reason == OperationInProgress
    case _ => reason == InvalidStateTransition(c.quote.status)
  }

  predicate EditableAt(c: Cell, expectedVersion: nat) { c.quote.status == Draft && c.quote.version == expectedVersion }

  /** When an edit is accepted, and what the first failing check is answered. */
  lemma EditIsAnswered(cfg: Config, c: Cell, principal: Principal, expectedVersion: nat, patch: Commands.Patch)
    requires Inv(cfg, c)
    ensures var (after, reply) := Commands.UpdateDraft(c, principal, expectedVersion, patch);
            && (reply.Accepted? <==> principal == c.quote.creator && Commands.ValidPatch(patch) && EditableAt(c, expectedVersion))
            && (principal != c.quote.creator ==> reply == Rejected(QuoteNotFound))
            && (principal == c.quote.creator && !Commands.ValidPatch(patch) ==> reply == Rejected(ValidationError))
            && (principal == c.quote.creator && Commands.ValidPatch(patch) && !EditableAt(c, expectedVersion) ==>
                  reply.Rejected? && DraftRefusal(c, expectedVersion, reply.reason))
  {
    if Commands.ValidPatch(patch) { OverflowIsDeadForPatch(c, patch); }
  }

  /** An accepted edit takes the next version, logs it, and moves content and totals only. */
  lemma EditIsLogged(c: Cell, principal: Principal, expectedVersion: nat, patch: Commands.Patch)
    requires WellFormed(c.audit) && Commands.UpdateDraft(c, principal, expectedVersion, patch).1.Accepted?
    ensures var (after, reply) := Commands.UpdateDraft(c, principal, expectedVersion, patch);
            && reply.version == after.quote.version == c.quote.version + 1
            && after == c.(quote := c.quote.(content := after.quote.content, totals := after.quote.totals, version := reply.version),
                           audit := after.audit)
            && Logs(c, after, DraftUpdated(reply.version), Some(Draft), Some(Draft))
  {
    AppendsNext(c, DraftUpdated(c.quote.version + 1), Some(Draft), Some(Draft));
  }

  lemma OverflowIsDeadForPatch(c: Cell, patch: Commands.Patch)
    requires ValidCommercial(ReadBack(c.quote.content)) && Commands.ValidPatch(patch)
    ensures var content := Commands.Patched(patch, ReadBack(c.quote.content)); ValidCommercial(content) && ComputeSnapshot(content).Success?
  {
    OverflowIsDead(Commands.Patched(patch, ReadBack(c.quote.content)));
  }

  /** After an edit the draft reads back as asked: present members replaced, all others as they read before. */
  lemma EditsReadBack(cfg: Config, c: Cell, principal: Principal, expectedVersion: nat, patch: Commands.Patch)
    requires Inv(cfg, c) && Commands.UpdateDraft(c, principal, expectedVersion, patch).1.Accepted?
    ensures var (was, got) := (ReadBack(c.quote.content), ReadBack(Commands.UpdateDraft(c, principal, expectedVersion, patch).0.quote.content));
            && got.lines == (if patch.lines.Some? then patch.lines.value else was.lines)
            && got.shipping == (if patch.shipping.SetShipping? then patch.shipping.shipping else was.shipping)
            && got.party == (if patch.party.Some? then patch.party.value else was.party)
            && ValidCommercial(got)
            && Commands.UpdateDraft(c, principal, expectedVersion, patch).0.quote.totals == SumTotals(Charges(got))
  {
    RewrittenReadsAsPatched(patch, c.quote.content);
    OverflowIsDeadForPatch(c, patch);
  }

  /** When a draft is issued, and what the first failing check is answered. */
  lemma IssueIsAnswered(cfg: Config, c: Cell, principal: Principal, expectedVersion: nat, terms: Commands.IssueTerms)
    requires Inv(cfg, c)
    ensures var reply := Commands.IssueDraft(cfg, c, principal, expectedVersion, terms).1;
            var (mine, editable, lines) := (principal == c.quote.creator, EditableAt(c, expectedVersion), ReadBack(c.quote.content).lines);
            var expected := TotalsAsExpected(terms.expected, c.quote.totals);
            && (reply.Accepted? <==> mine && editable && lines != [] && expected && terms.issue.Some?)
            && (!mine ==> reply == Rejected(QuoteNotFound))
            && (mine && !editable ==> reply.Rejected? && DraftRefusal(c, expectedVersion, reply.reason))
            && (mine && editable && lines != [] && !expected ==> reply == Rejected(ArithmeticMismatch))
            && (mine && editable && (lines == [] || (expected && terms.issue.None?)) ==> reply == Rejected(ValidationError))
  {
  }

  /** Issuing a draft freezes exactly what the draft was: nothing is repriced, and the new operation carries its hash. */
  lemma IssueFreezesTheDraft(cfg: Config, c: Cell, principal: Principal, expectedVersion: nat, terms: Commands.IssueTerms, owner: Owner, t: nat)
    requires Inv(cfg, c) && Commands.IssueDraft(cfg, c, principal, expectedVersion, terms).1.Accepted?
    ensures var (after, reply) := Commands.IssueDraft(cfg, c, principal, expectedVersion, terms);
            && reply.version == c.quote.version + 1 && terms.issue.Some?
            && after.quote == c.quote.(status := Issuing, version := reply.version, issue := terms.issue, currentOperation := Some(terms.operation))
            && after.operations.Keys == {terms.operation} && after.deliveries == c.deliveries && after.manifest == c.manifest
            && SnapshotOf(after.quote) == Some(IssuedSnapshot(c.quote.id, ReadBack(c.quote.content), c.quote.totals, terms.issue.value))
            && after.operations[terms.operation].snapshotHash == cfg.snapshotHash(SnapshotOf(after.quote).value)
            && (Issuance.Claim(cfg, after, terms.operation, owner, t).1.Claimed? <==>
                  terms.issue.value.issuedAt <= t < terms.issue.value.issuedAt + terms.deadlineMs)
            && Logs(c, after, IssueAccepted(terms.operation, None, reply.version), Some(Draft), Some(Issuing))
  {
    WellFormedSequences(c.audit);
  }

  // ---------- cancel ----------

  /** A draft, a failed issuance, or an issued quote still valid at this instant. */
  predicate Cancellable(c: Cell, now: nat) {
    || c.quote.status == Draft
    || (c.quote.status == Issuing && c.quote.currentOperation.Some? && c.quote.currentOperation.value in c.operations
        && c.operations[c.quote.currentOperation.value].status == Failed)
    || (c.quote.status == Issued && c.quote.issue.Some? && now < c.quote.issue.value.validUntil)
  }

  /** When a cancel is accepted, and what the first failing check is answered: the state before the version. */
  lemma CancelIsAnswered(cfg: Config, c: Cell, principal: Principal, request: Commands.CancelRequest, now: nat)
    requires Inv(cfg, c)
    ensures var reply := Commands.CancelQuote(c, principal, request, now).1;
            var asked := principal == c.quote.creator && request.wellFormed;
            && (reply.Accepted? <==> asked && Cancellable(c, now) && request.expectedVersion == c.quote.version)
            && (principal != c.quote.creator ==> reply == Rejected(QuoteNotFound))
            && (principal == c.quote.creator && !request.wellFormed ==> reply == Rejected(ValidationError))
            && (asked && !Cancellable(c, now) ==>
                  reply == Rejected(if c.quote.status == Issuing then OperationInProgress
                                    else InvalidStateTransition(if c.quote.status == Issued then Expired else c.quote.status)))
            && (asked && Cancellable(c, now) && request.expectedVersion != c.quote.version ==> reply == Rejected(VersionConflict(c.quote.version)))
  {
  }

  /** A cancel fails every queued delivery, only an issued quote having any, and moves no other row but the quote. */
  lemma CancelFailsQueuedOnly(cfg: Config, c: Cell, principal: Principal, request: Commands.CancelRequest, now: nat, id: DeliveryId)
    requires Inv(cfg, c) && Commands.CancelQuote(c, principal, request, now).1.Accepted?
    ensures var (after, reply) := Commands.CancelQuote(c, principal, request, now);
            && reply.version == c.quote.version + 1
            && after.quote == c.quote.(status := Cancelled, version := reply.version)
            && after.operations == c.operations && after.manifest == c.manifest && after.deliveries.Keys == c.deliveries.Keys
            && (id in c.deliveries ==>
                  if c.deliveries[id].status == Queued
                  then && after.deliveries[id].status == Undelivered && after.deliveries[id].lastError == Some(QuoteCancelledError)
                       && after.deliveries[id].generation == c.deliveries[id].generation && after.deliveries[id].attempts == c.deliveries[id].attempts
                  else after.deliveries[id] == c.deliveries[id])
            && |after.audit| > |c.audit| && after.audit[..|c.audit|] == c.audit
            && after.audit[|c.audit|] == Entry(|c.audit| + 1, QuoteCancelled(reply.version), Some(c.quote.status), Some(Cancelled))
  {
    WellFormedSequences(c.audit);
    var logged := Append(c.audit, QuoteCancelled(c.quote.version + 1), Some(c.quote.status), Some(Cancelled));
    CancelLogs(c, principal, request, now);
    CancelledAppends(logged, Commands.PendingDeliveries(c));
  }

  lemma {:induction false} CancelledAppends(audit: seq<Entry>, ids: set<DeliveryId>)
    ensures audit <= Commands.AppendCancelled(audit, ids)
    decreases |ids|
  {
    if ids != {} {
      var id := Commands.Smallest(ids);
      CancelledAppends(Append(audit, DeliveryFailed(id, QuoteCancelledError), None, None), ids - {id});
    }
  }

  lemma CancelledStays(cfg: Config, c: Cell, tx: Tx, now: nat)
    requires Lifecycle(c) && c.quote.status == Cancelled
    ensures Apply(cfg, c, tx, now).0.quote.status == Cancelled
  {
    Guarantees.EndingsAbsorb(cfg, c, tx, now);
  }

  lemma CancelledIsRefused(cfg: Config, c: Cell, id: DeliveryId, owner: Owner, now: nat)
    requires c.quote.status == Cancelled
    ensures !Deliveries.ClaimDelivery(cfg, c, id, owner, now).1.DeliveryClaimed?
  {
  }

  /** After a cancel nothing of the quote is handed to a delivery worker again, whatever else happens. */
  lemma {:induction false} CancelledIsNotEmailed(cfg: Config, c: Cell, run: seq<(Tx, nat)>, id: DeliveryId, owner: Owner, now: nat)
    requires Lifecycle(c) && c.quote.status == Cancelled
    ensures !Deliveries.ClaimDelivery(cfg, Guarantees.ApplyAll(cfg, c, run), id, owner, now).1.DeliveryClaimed?
    decreases |run|
  {
    if run == [] {
      CancelledIsRefused(cfg, c, id, owner, now);
    } else {
      KeepsLifecycle(cfg, c, run[0].0, run[0].1);
      CancelledStays(cfg, c, run[0].0, run[0].1);
      CancelledIsNotEmailed(cfg, Apply(cfg, c, run[0].0, run[0].1).0, run[1..], id, owner, now);
    }
  }
}
