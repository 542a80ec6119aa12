/** What the invariant of a quote's rows means to its callers. */
module Guarantees {
  import opened Wrappers
  import opened Rows
  import opened CommercialSnapshot
  import opened Transactions
  import opened CellInvariants
  import Issuance
  import Deliveries
  import Expiry
  import Commands

  // ---------- exactly one issuance ----------

  /**
   * A quote is issued by exactly one operation: the manifest exists exactly when an operation
   * succeeded, that operation is the quote's current one and the only one, a quote that is or
   * was issued has it, and an active operation is the current one of an `issuing` quote.
   */
  lemma ExactlyOneIssuance(cfg: Config, c: Cell, x: OperationId, y: OperationId)
    requires Inv(cfg, c) && x in c.operations && y in c.operations
    ensures c.quote.status in {Issued, Expired} ==> c.manifest.Some?
    ensures c.operations[x].status == Succeeded <==> c.manifest.Some? && c.manifest.value.operation == x
    ensures c.operations[x].status == Succeeded ==> c.quote.currentOperation == Some(x)
    ensures Active(c.operations[x]) ==> c.quote.status == Issuing && c.quote.currentOperation == Some(x)
    ensures Active(c.operations[x]) && Active(c.operations[y]) ==> x == y
    ensures c.manifest.Some? ==> c.manifest.value.document.snapshotHash == c.operations[x].snapshotHash
  {
  }

  // ---------- fences ----------

  /** The fence was issued and is no longer the valid one. */
  ghost predicate Spent(c: Cell, f: OperationFence) {
    f.operation in c.operations && f.generation <= c.operations[f.operation].generation && !Issuance.FenceHolds(c, f)
  }

  ghost predicate DeliverySpent(c: Cell, f: DeliveryFence) {
    f.delivery in c.deliveries && f.generation <= c.deliveries[f.delivery].generation && !Deliveries.FenceHolds(c, f)
  }

  ghost function ApplyAll(cfg: Config, c: Cell, run: seq<(Tx, nat)>): Cell
    decreases |run|
  {
    if run == [] then c else ApplyAll(cfg, Apply(cfg, c, run[0].0, run[0].1).0, run[1..])
  }

  lemma FenceStaysSpent(cfg: Config, c: Cell, tx: Tx, now: nat, f: OperationFence)
    requires Spent(c, f)
    ensures Spent(Apply(cfg, c, tx, now).0, f)
  {
    if !WritesOperations(tx) { LeavesOperationRows(cfg, c, tx, now); }
  }

  lemma DeliveryFenceStaysSpent(cfg: Config, c: Cell, tx: Tx, now: nat, f: DeliveryFence)
    requires DeliverySpent(c, f)
    ensures DeliverySpent(Apply(cfg, c, tx, now).0, f)
  {
  }

  /**
   * A spent fence stays spent over any run of transactions, and while it is spent
   * a renewal, a failure, a commit or a completion under it changes nothing.
   */
  lemma {:induction false} SpentFencesAreHarmless(cfg: Config, c: Cell, run: seq<(Tx, nat)>, f: OperationFence, d: DeliveryFence, now: nat)
    ensures Spent(c, f) ==>
              var after := ApplyAll(cfg, c, run);
              && Spent(after, f)
              && Issuance.RenewLease(cfg, after, f, now) == (after, StaleFence)
              && (forall x :: Issuance.FailAttempt(after, f, x, now) == (after, StaleFence))
              && (forall x :: Issuance.CommitIssued(after, f, x, now) == (after, StaleFence))
    ensures DeliverySpent(c, d) ==>
              var after := ApplyAll(cfg, c, run);
              && DeliverySpent(after, d)
              && (forall x :: Deliveries.CompleteDelivery(after, d, x, now) == (after, StaleFence))
    decreases |run|
  {
    if run != [] {
      var (tx, at) := run[0];
      if Spent(c, f) { FenceStaysSpent(cfg, c, tx, at, f); }
      if DeliverySpent(c, d) { DeliveryFenceStaysSpent(cfg, c, tx, at, d); }
      SpentFencesAreHarmless(cfg, Apply(cfg, c, tx, at).0, run[1..], f, d, now);
    }
  }

  /** A claim issues the next generation, and no other fence is valid beside it. */
  lemma ClaimIssuesTheOnlyFence(cfg: Config, c: Cell, op: OperationId, owner: Owner, now: nat, other: OperationFence)
    requires Issuance.Claim(cfg, c, op, owner, now).1.Claimed?
    ensures var (after, reply) := Issuance.Claim(cfg, c, op, owner, now);
            && Issuance.FenceHolds(after, reply.attempt.fence)
            && reply.attempt.fence.generation == c.operations[op].generation + 1
            && (other.operation == op && Issuance.FenceHolds(after, other) ==> other == reply.attempt.fence)
            && (other.operation == op && Issuance.FenceHolds(c, other) ==> Spent(after, other))
  {
  }

  /**
   * A fenced commit is judged by its fence and its hash alone: neither an expired lease nor a passed
   * deadline refuses it, as long as nobody fenced the holder out.
   */
  lemma CommitNeedsOnlyTheFence(cfg: Config, c: Cell, f: OperationFence, document: Document, now: nat)
    requires Inv(cfg, c)
    ensures Issuance.CommitIssued(c, f, document, now).1.Committed? <==>
              Issuance.FenceHolds(c, f) && document.snapshotHash == c.operations[f.operation].snapshotHash
  {
    if Issuance.FenceHolds(c, f) { assert Active(c.operations[f.operation]); }
  }

  // ---------- endings ----------

  /** Ended operations and deliveries, and the final quote states, absorb every transaction. */
  lemma EndingsAbsorb(cfg: Config, c: Cell, tx: Tx, now: nat)
    requires Lifecycle(c)
    ensures var after := Apply(cfg, c, tx, now).0;
            && (forall op <- c.operations :: !Active(c.operations[op]) ==> op in after.operations && after.operations[op] == c.operations[op])
            && (c.manifest.Some? ==> after.manifest == c.manifest)
            && (c.quote.status in {Expired, Cancelled} ==> after.quote == c.quote)
  {
    if WritesOperations(tx) { IssuanceEndingsAbsorb(cfg, c, tx, now); } else { LeavesOperationRows(cfg, c, tx, now); }
  }

  lemma IssuanceEndingsAbsorb(cfg: Config, c: Cell, tx: Tx, now: nat)
    requires WritesOperations(tx) && Lifecycle(c)
    ensures var after := Apply(cfg, c, tx, now).0;
            && (forall op <- c.operations :: !Active(c.operations[op]) ==> op in after.operations && after.operations[op] == c.operations[op])
            && (c.manifest.Some? ==> after.manifest == c.manifest)
            && (c.quote.status in {Expired, Cancelled} ==> after.quote == c.quote)
  {
  }

  lemma CancelLeavesEnded(c: Cell, principal: Principal, request: Commands.CancelRequest, now: nat, id: DeliveryId)
    requires id in c.deliveries && Deliveries.Terminal(c.deliveries[id].status)
    ensures var after := Commands.CancelQuote(c, principal, request, now).0;
            id in after.deliveries && after.deliveries[id] == c.deliveries[id]
  {
  }

  lemma CompletionLeavesEnded(c: Cell, f: DeliveryFence, outcome: Deliveries.Outcome, now: nat, id: DeliveryId)
    requires id in c.deliveries && Deliveries.Terminal(c.deliveries[id].status)
    ensures var after := Deliveries.CompleteDelivery(c, f, outcome, now).0;
            id in after.deliveries && after.deliveries[id] == c.deliveries[id]
  {
  }

  lemma DeliveryEndingsAbsorb(cfg: Config, c: Cell, tx: Tx, now: nat, id: DeliveryId)
    requires id in c.deliveries && Deliveries.Terminal(c.deliveries[id].status)
    ensures var after := Apply(cfg, c, tx, now).0;
            id in after.deliveries && after.deliveries[id] == c.deliveries[id]
  {
    match tx
    case CancelQuote(principal, request) => CancelLeavesEnded(c, principal, request, now, id);
    case CompleteDelivery(f, outcome) => CompletionLeavesEnded(c, f, outcome, now, id);
    case RequestDelivery(_, _) =>
    case ClaimDelivery(_, _) =>
    case SweepDelivery(_) =>
    case _ => assert Apply(cfg, c, tx, now).0.deliveries == c.deliveries;
  }

  lemma {:induction false} CountsNest(audit: seq<Entry>, op: OperationId, id: DeliveryId)
    ensures Count(audit, SweepsOf(op)) <= Count(audit, EndsOf(op))
    ensures Count(audit, DeliverySweepsOf(id)) <= Count(audit, DeliveryEndsOf(id))
    decreases |audit|
  {
    if audit != [] { CountsNest(audit[..|audit| - 1], op, id); }
  }

  lemma {:induction false} CountedIffLogged(audit: seq<Entry>, s: Selector)
    ensures Count(audit, s) > 0 <==> exists i :: 0 <= i < |audit| && Selects(s, audit[i].event)
    decreases |audit|
  {
    if audit != [] {
      var before := audit[..|audit| - 1];
      CountedIffLogged(before, s);
      assert forall i | 0 <= i < |before| :: before[i] == audit[i];
    }
  }

  ghost predicate Logged(c: Cell, s: Selector) {
    exists i :: 0 <= i < |c.audit| && Selects(s, c.audit[i].event)
  }

  /**
   * Generation equals the attempt count, plus one exactly when a sweep ended the row;
   * an end is logged exactly when the row ended, and at most once.
   */
  lemma FencingAccounting(cfg: Config, c: Cell, op: OperationId, id: DeliveryId)
    requires Inv(cfg, c)
    ensures op in c.operations ==>
              var o := c.operations[op];
              && o.generation == o.attempts + (if Logged(c, SweepsOf(op)) then 1 else 0)
              && (Logged(c, EndsOf(op)) <==> !Active(o))
              && Count(c.audit, EndsOf(op)) <= 1
    ensures id in c.deliveries ==>
              var d := c.deliveries[id];
              && d.generation == d.attempts + (if Logged(c, DeliverySweepsOf(id)) then 1 else 0)
              && (Logged(c, DeliveryEndsOf(id)) <==> Deliveries.Terminal(d.status))
              && Count(c.audit, DeliveryEndsOf(id)) <= 1
              && d.attempts <= Deliveries.MAX_ATTEMPTS
  {
    assert OperationSettled(c, op) && DeliverySettled(c, id);
    CountsNest(c.audit, op, id);
    CountedIffLogged(c.audit, SweepsOf(op));
    CountedIffLogged(c.audit, EndsOf(op));
    CountedIffLogged(c.audit, DeliverySweepsOf(id));
    CountedIffLogged(c.audit, DeliveryEndsOf(id));
  }

  // ---------- nothing gets stuck ----------

  datatype Fate = ClaimableNow | BackingOff | LiveLease | SweepableNow

  /** The one thing that can happen next to an active operation at instant t. */
  function FateAt(o: Operation, t: nat): Fate {
    if o.status == Pending then
      if t >= o.deadlineAt then SweepableNow
      else if o.nextAttemptAt.Some? && o.nextAttemptAt.value <= t then ClaimableNow
      else BackingOff
    else if o.leaseExpiresAt.Some? && o.leaseExpiresAt.value >= t then LiveLease
    else if t < o.deadlineAt then ClaimableNow
    else SweepableNow
  }

  /**
   * At every instant an active operation is in exactly one of four situations, the claim and
   * the sweep agree on it, waiting always ends by the deadline, and strictly after the deadline
   * only the sweep is left.
   */
  lemma NoOperationIsStuck(cfg: Config, c: Cell, op: OperationId, t: nat)
    requires Inv(cfg, c) && op in c.operations && Active(c.operations[op])
    ensures var o := c.operations[op];
            && (Issuance.Claimable(c, op, t) <==> FateAt(o, t) == ClaimableNow)
            && (Issuance.Sweepable(o, t) <==> FateAt(o, t) == SweepableNow)
            && (FateAt(o, t) == BackingOff ==> o.nextAttemptAt.Some? && t < o.nextAttemptAt.value <= o.deadlineAt)
            && (FateAt(o, t) == LiveLease ==> o.leaseExpiresAt.Some? && t <= o.leaseExpiresAt.value <= o.deadlineAt)
            && (t > o.deadlineAt ==> FateAt(o, t) == SweepableNow)
  {
    assert OperationSchedule(cfg, c.operations[op]);
  }

  /**
   * A delivery that has not ended is due, waiting for an attempt within 24 hours of its request,
   * under a live lease, or taken by the sweep; nothing else can hold it.
   */
  lemma NoDeliveryIsStuck(cfg: Config, c: Cell, id: DeliveryId, t: nat, owner: Owner)
    requires Inv(cfg, c) && id in c.deliveries && !Deliveries.Terminal(c.deliveries[id].status)
    ensures var (d, claimed, swept) := (c.deliveries[id], Deliveries.ClaimDelivery(cfg, c, id, owner, t).1, Deliveries.SweepDelivery(c, id, t).1);
            && (d.status == Queued ==>
                  && d.nextAttemptAt.Some? && d.nextAttemptAt.value <= d.requestedAt + Deliveries.RETRY_WINDOW_MS
                  && (t >= d.nextAttemptAt.value <==> claimed.DeliveryClaimed? || claimed.Ineligible?))
            && (d.status == Sending ==>
                  && claimed.NoneAvailable? && d.leaseExpiresAt.Some?
                  && (t > d.leaseExpiresAt.value <==> swept.Swept?))
  {
    assert DeliverySchedule(c.deliveries[id]);
  }

  /** Attempts are at least min(5 s, lease) apart and all start before the deadline. */
  lemma AttemptsAreBounded(cfg: Config, c: Cell, op: OperationId)
    requires Inv(cfg, c) && op in c.operations
    ensures var o := c.operations[op];
            (o.attempts - 1) * Min(5_000, cfg.leaseMs) < o.deadlineAt - o.acceptedAt
  {
    var o := c.operations[op];
    assert OperationSchedule(cfg, o);
    if o.attempts == 0 { assert -1 * Gap(cfg) < 0; }
  }

  // ---------- audit log ----------

  lemma {:induction false} SequencesAreOneToN(audit: seq<Entry>, i: nat)
    requires WellFormed(audit) && i < |audit|
    ensures audit[i].sequence == i + 1
    decreases |audit|
  {
    if i < |audit| - 1 { SequencesAreOneToN(audit[..|audit| - 1], i); }
  }

  lemma {:induction false} PrefixIsWellFormed(audit: seq<Entry>, n: nat)
    requires WellFormed(audit) && n <= |audit|
    ensures WellFormed(audit[..n])
    decreases |audit|
  {
    if n == |audit| {
      assert audit[..n] == audit;
    } else {
      var before := audit[..|audit| - 1];
      PrefixIsWellFormed(before, n);
      assert before[..n] == audit[..n];
    }
  }

  lemma {:induction false} VersionsGrow(audit: seq<Entry>, n: nat)
    requires n <= |audit|
    ensures Versions(audit[..n]) <= Versions(audit)
    decreases |audit|
  {
    if n == |audit| {
      assert audit[..n] == audit;
    } else {
      var before := audit[..|audit| - 1];
      VersionsGrow(before, n);
      assert before[..n] == audit[..n];
    }
  }

  /**
   * The log refines the state machine: sequences are exactly 1..n, each status-bearing entry
   * starts from the status the entries before it lead to, the whole log leads to the stored
   * status, and the stored version counts the version-bearing entries.
   */
  lemma LogRefinesStateMachine(cfg: Config, c: Cell, i: nat)
    requires Inv(cfg, c) && i < |c.audit|
    ensures c.audit[i].sequence == i + 1
    ensures c.audit[i].toStatus.Some? ==> c.audit[i].fromStatus == LoggedStatus(c.audit[..i])
    ensures CarriesVersion(c.audit[i].event) ==> c.audit[i].event.version == Versions(c.audit[..i]) + 1 <= c.quote.version
    ensures LoggedStatus(c.audit) == Some(c.quote.status) && Versions(c.audit) == c.quote.version
  {
    SequencesAreOneToN(c.audit, i);
    PrefixIsWellFormed(c.audit, i + 1);
    var upTo := c.audit[..i + 1];
    assert upTo[..|upTo| - 1] == c.audit[..i];
    VersionsGrow(c.audit, i + 1);
  }

  /** No two entries carry the same version, so no two commands succeed from one expected version. */
  lemma VersionsAreDistinct(cfg: Config, c: Cell, i: nat, j: nat)
    requires Inv(cfg, c) && i < j < |c.audit|
    requires CarriesVersion(c.audit[i].event) && CarriesVersion(c.audit[j].event)
    ensures c.audit[i].event.version < c.audit[j].event.version
  {
    LogRefinesStateMachine(cfg, c, i);
    LogRefinesStateMachine(cfg, c, j);
    var upTo := c.audit[..i + 1];
    assert upTo[..|upTo| - 1] == c.audit[..i];
    VersionsGrow(c.audit[..j], i + 1);
    assert c.audit[..j][..i + 1] == upTo;
  }

  /** A successful edit, issue or cancel names the version it found and leaves the next one. */
  lemma CommandsConsumeTheirVersion(cfg: Config, c: Cell, tx: Tx, now: nat)
    requires tx.UpdateDraft? || tx.IssueDraft? || tx.CancelQuote?
    requires Apply(cfg, c, tx, now).1.Accepted?
    ensures c.quote.version == Expected(tx) && Apply(cfg, c, tx, now).0.quote.version == Expected(tx) + 1
  {
  }

  function Expected(tx: Tx): nat
    requires tx.UpdateDraft? || tx.IssueDraft? || tx.CancelQuote?
  {
    if tx.CancelQuote? then tx.cancel.expectedVersion else tx.expectedVersion
  }

  lemma VersionNeverFalls(cfg: Config, c: Cell, tx: Tx, now: nat)
    ensures c.quote.version <= Apply(cfg, c, tx, now).0.quote.version
  {
  }

  lemma {:induction false} VersionNeverFallsInRuns(cfg: Config, c: Cell, run: seq<(Tx, nat)>)
    ensures c.quote.version <= ApplyAll(cfg, c, run).quote.version
    decreases |run|
  {
    if run != [] {
      VersionNeverFalls(cfg, c, run[0].0, run[0].1);
      VersionNeverFallsInRuns(cfg, Apply(cfg, c, run[0].0, run[0].1).0, run[1..]);
    }
  }

  lemma {:induction false} ApplyAllSplits(cfg: Config, c: Cell, run: seq<(Tx, nat)>, n: nat)
    requires n <= |run|
    ensures ApplyAll(cfg, c, run) == ApplyAll(cfg, ApplyAll(cfg, c, run[..n]), run[n..])
    decreases n
  {
    if n > 0 {
      assert run[..n][1..] == run[1..][..n - 1] && run[1..][n - 1..] == run[n..];
      ApplyAllSplits(cfg, Apply(cfg, c, run[0].0, run[0].1).0, run[1..], n - 1);
    } else {
      assert run[..0] == [] && run[0..] == run;
    }
  }

  /** The i-th transaction of a run is an edit, an issue or a cancel, and it succeeds. */
  ghost predicate Succeeds(cfg: Config, c: Cell, run: seq<(Tx, nat)>, i: nat)
    requires i < |run|
  {
    && (run[i].0.UpdateDraft? || run[i].0.IssueDraft? || run[i].0.CancelQuote?)
    && Apply(cfg, ApplyAll(cfg, c, run[..i]), run[i].0, run[i].1).1.Accepted?
  }

  /** Over any run of transactions no two successful edits, issues or cancels of a quote expect the same version. */
  lemma CommandsUseVersionsOnce(cfg: Config, c: Cell, run: seq<(Tx, nat)>, i: nat, j: nat)
    requires i < j < |run| && Succeeds(cfg, c, run, i) && Succeeds(cfg, c, run, j)
    ensures Expected(run[i].0) < Expected(run[j].0)
  {
    var before := ApplyAll(cfg, c, run[..i]);
    CommandsConsumeTheirVersion(cfg, before, run[i].0, run[i].1);
    CommandsConsumeTheirVersion(cfg, ApplyAll(cfg, c, run[..j]), run[j].0, run[j].1);
    ApplyAllSplits(cfg, c, run[..j], i);
    assert run[..j][..i] == run[..i] && run[..j][i..] == run[i..j] && run[i..j][0] == run[i];
    VersionNeverFallsInRuns(cfg, Apply(cfg, before, run[i].0, run[i].1).0, run[i..j][1..]);
  }

  // ---------- dead guards and the frozen snapshot ----------

  ghost predicate Throws(tx: Tx, reply: Reply) {
    || reply.TotalsDiverge? || reply.StoredDataInvalid? || reply.IntegrityFailure? || reply.ManifestMissing?
    || (reply.UniqueViolation? && (tx.CommitIssued? || tx.IssueDraft?))
  }

  /**
   * Under the invariant the thrown errors never happen: the unique indexes on active operations
   * and manifests never fire, stored totals never diverge from the arithmetic, the snapshot
   * check before an operator retry never fails, and an issued quote has its manifest.
   */
  lemma ThrownErrorsAreDead(cfg: Config, c: Cell, tx: Tx, now: nat)
    requires Inv(cfg, c)
    ensures !Throws(tx, Apply(cfg, c, tx, now).1)
  {
    match tx
    case UpdateDraft(principal, version, patch) => EditsComputeValidContent(cfg, c, principal, version, patch);
    case IssueDraft(principal, version, terms) => IssuesReadTheirTotals(cfg, c, principal, version, terms);
    case OperatorRetry(failed, retry) => RetriesFindTheirSnapshot(cfg, c, failed, retry, now);
    case CommitIssued(f, document) => CommitsFindNoManifest(cfg, c, f, document, now);
    case _ => DeliveriesFindTheirManifest(cfg, c, tx, now);
  }

  lemma RetriesFindTheirSnapshot(cfg: Config, c: Cell, failed: OperationId, retry: OperationId, now: nat)
    requires Frozen(cfg, c)
    ensures !Issuance.OperatorRetry(cfg, c, failed, retry, now).1.IntegrityFailure?
  {
    if failed in c.operations { assert SnapshotOf(c.quote).Some?; }
  }

  lemma CommitsFindNoManifest(cfg: Config, c: Cell, f: OperationFence, document: Document, now: nat)
    requires Lifecycle(c)
    ensures !Issuance.CommitIssued(c, f, document, now).1.UniqueViolation?
  {
  }

  lemma DeliveriesFindTheirManifest(cfg: Config, c: Cell, tx: Tx, now: nat)
    requires Lifecycle(c)
    requires !tx.UpdateDraft? && !tx.IssueDraft? && !tx.OperatorRetry? && !tx.CommitIssued?
    ensures !Throws(tx, Apply(cfg, c, tx, now).1)
  {
  }

  lemma EditsComputeValidContent(cfg: Config, c: Cell, principal: Principal, version: nat, patch: Commands.Patch)
    requires Inv(cfg, c)
    ensures var reply := Commands.UpdateDraft(c, principal, version, patch).1; reply.Rejected? || reply.Accepted?
  {
    if Commands.ValidPatch(patch) {
      assert ValidCommercial(Commands.Patched(patch, ReadBack(c.quote.content)));
    }
  }

  lemma IssuesReadTheirTotals(cfg: Config, c: Cell, principal: Principal, version: nat, terms: Commands.IssueTerms)
    requires Inv(cfg, c)
    ensures var reply := Commands.IssueDraft(cfg, c, principal, version, terms).1; reply.Rejected? || reply.Accepted?
  {
  }

  /** From acceptance on, no transaction changes number, validity or any field hashed into the snapshot. */
  lemma AcceptedSnapshotIsFrozen(cfg: Config, c: Cell, tx: Tx, now: nat, op: OperationId)
    requires Inv(cfg, c) && c.quote.issue.Some?
    ensures var after := Apply(cfg, c, tx, now).0;
            && SnapshotOf(after.quote) == SnapshotOf(c.quote)
            && (op in after.operations ==> after.operations[op].snapshotHash == cfg.snapshotHash(SnapshotOf(c.quote).value))
  {
    KeepsFrozen(cfg, c, tx, now);
    if tx.UpdateDraft? || tx.IssueDraft? {
      AcceptedIsNoDraft(cfg, c, tx, now);
    } else {
      SnapshotStays(cfg, c, tx, now);
    }
  }

  lemma AcceptedIsNoDraft(cfg: Config, c: Cell, tx: Tx, now: nat)
    requires Lifecycle(c) && c.quote.issue.Some? && (tx.UpdateDraft? || tx.IssueDraft?)
    ensures Apply(cfg, c, tx, now).0 == c
  {
  }
}
