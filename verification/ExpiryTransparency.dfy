/**
 * The expiry job is invisible. It may run at any time, any number of times or never: effective
 * statuses, `expiredAt`, the answers of commands and claims, and everything the workers do stay
 * the same. Only the stored version and the audit log show that it ran.
 */
module ExpiryTransparency {
  import opened Wrappers
  import opened CommercialSnapshot
  import opened Rows
  import opened Transactions
  import opened Service
  import opened Expiry
  import Issuance
  import Deliveries
  import Commands
  import CellInvariants
  import ServiceSafety

  // ---------- one quote ----------

  datatype Fact = Fact(event: Event, fromStatus: Option<QuoteStatus>, toStatus: Option<QuoteStatus>)

  /** The log without the job's own entries and without numbering. */
  function Facts(audit: seq<Entry>): seq<Fact> {
    if audit == [] then []
    else
      var last := audit[|audit| - 1];
      Facts(audit[..|audit| - 1]) + if last.event.QuoteExpired? then [] else [Fact(last.event, last.fromStatus, last.toStatus)]
  }

  lemma FactAdded(audit: seq<Entry>, event: Event, fromStatus: Option<QuoteStatus>, toStatus: Option<QuoteStatus>)
    ensures Facts(Append(audit, event, fromStatus, toStatus)) ==
            Facts(audit) + if event.QuoteExpired? then [] else [Fact(event, fromStatus, toStatus)]
  {
    var after := Append(audit, event, fromStatus, toStatus);
    assert after[..|after| - 1] == audit;
  }

  /** The job materialized this quote on the left and not on the right. */
  ghost predicate Diverged(left: Cell, right: Cell) {
    && right.quote.status == Issued && right.quote.issue.Some?
    && left == right.(quote := right.quote.(status := Expired, expiredAt := Some(right.quote.issue.value.validUntil),
                                            version := right.quote.version + 1),
                      audit := left.audit)
    && Facts(left.audit) == Facts(right.audit)
  }

  /** Answers with the same code; a refused transition names the stored status in its details. */
  predicate SameCode(a: Reply, b: Reply) {
    || a == b
    || (a.InvalidState? && b.InvalidState?)
    || (a.Rejected? && b.Rejected? && a.reason.InvalidStateTransition? && b.reason.InvalidStateTransition?)
  }

  ghost predicate SameEffect(left: (Cell, Reply), right: (Cell, Reply)) {
    Diverged(left.0, right.0) && SameCode(left.1, right.1)
  }

  lemma AppendsAlike(left: seq<Entry>, right: seq<Entry>)
    requires Facts(left) == Facts(right)
    ensures forall event, f, to :: Facts(Append(left, event, f, to)) == Facts(Append(right, event, f, to))
  {
    forall event, f, to ensures Facts(Append(left, event, f, to)) == Facts(Append(right, event, f, to)) {
      FactAdded(left, event, f, to);
      FactAdded(right, event, f, to);
    }
  }

  lemma IssuanceAlike(cfg: Config, left: Cell, right: Cell, tx: Tx, now: nat)
    requires Diverged(left, right)
    requires tx.ClaimOperation? || tx.RenewLease? || tx.CommitIssued? || tx.OperatorRetry? || tx.UpdateDraft? || tx.IssueDraft?
    ensures SameEffect(Apply(cfg, left, tx, now), Apply(cfg, right, tx, now))
  {
  }

  lemma FailAttemptAlike(left: Cell, right: Cell, f: OperationFence, failure: Issuance.AttemptFailure, now: nat)
    requires Diverged(left, right)
    ensures SameEffect(Issuance.FailAttempt(left, f, failure, now), Issuance.FailAttempt(right, f, failure, now))
  {
    AppendsAlike(left.audit, right.audit);
  }

  lemma FailDeadlineAlike(left: Cell, right: Cell, op: OperationId, now: nat)
    requires Diverged(left, right)
    ensures SameEffect(Issuance.FailDeadline(left, op, now), Issuance.FailDeadline(right, op, now))
  {
    AppendsAlike(left.audit, right.audit);
  }

  lemma ClaimAlike(cfg: Config, left: Cell, right: Cell, id: DeliveryId, owner: Owner, now: nat)
    requires Diverged(left, right) && IsPastValidity(right.quote.issue, now)
    ensures SameEffect(Deliveries.ClaimDelivery(cfg, left, id, owner, now), Deliveries.ClaimDelivery(cfg, right, id, owner, now))
  {
    AppendsAlike(left.audit, right.audit);
  }

  lemma CompletionAlike(left: Cell, right: Cell, f: DeliveryFence, outcome: Deliveries.Outcome, now: nat)
    requires Diverged(left, right)
    ensures SameEffect(Deliveries.CompleteDelivery(left, f, outcome, now), Deliveries.CompleteDelivery(right, f, outcome, now))
  {
    AppendsAlike(left.audit, right.audit);
  }

  lemma SweepAlike(left: Cell, right: Cell, id: DeliveryId, now: nat)
    requires Diverged(left, right)
    ensures SameEffect(Deliveries.SweepDelivery(left, id, now), Deliveries.SweepDelivery(right, id, now))
  {
    AppendsAlike(left.audit, right.audit);
  }

  lemma NoteAlike(left: Cell, right: Cell, event: Event)
    requires Diverged(left, right)
    ensures Diverged(Deliveries.Logged(left, event), Deliveries.Logged(right, event))
  {
    AppendsAlike(left.audit, right.audit);
  }

  lemma RequestAlike(left: Cell, right: Cell, id: DeliveryId, request: Deliveries.DeliveryRequest, now: nat)
    requires Diverged(left, right) && IsPastValidity(right.quote.issue, now)
    ensures SameEffect(Deliveries.RequestDelivery(left, id, request, now), Deliveries.RequestDelivery(right, id, request, now))
  {
  }

  /** Past validity a cancel is refused on both sides: on the stored status, or on the projected one. */
  lemma CancelAlike(left: Cell, right: Cell, principal: Principal, request: Commands.CancelRequest, now: nat)
    requires Diverged(left, right) && IsPastValidity(right.quote.issue, now)
    ensures SameEffect(Commands.CancelQuote(left, principal, request, now), Commands.CancelQuote(right, principal, request, now))
    ensures Commands.CancelQuote(left, principal, request, now).1 == Commands.CancelQuote(right, principal, request, now).1
  {
  }

  /** Once past validity, any transaction has the same effect and answer on either side. */
  lemma SameTransaction(cfg: Config, left: Cell, right: Cell, tx: Tx, now: nat)
    requires Diverged(left, right) && IsPastValidity(right.quote.issue, now) && !tx.MaterializeExpiry?
    ensures SameEffect(Apply(cfg, left, tx, now), Apply(cfg, right, tx, now))
  {
    match tx
    case FailAttempt(f, failure) => FailAttemptAlike(left, right, f, failure, now);
    case FailDeadline(op) => FailDeadlineAlike(left, right, op, now);
    case RequestDelivery(id, request) => RequestAlike(left, right, id, request, now);
    case ClaimDelivery(id, owner) => ClaimAlike(cfg, left, right, id, owner, now);
    case CompleteDelivery(f, outcome) => CompletionAlike(left, right, f, outcome, now);
    case SweepDelivery(id) => SweepAlike(left, right, id, now);
    case AnswerFromBinding(replayed) => NoteAlike(left, right, if replayed then KeyReplayed else KeyConflict);
    case CancelQuote(principal, request) => CancelAlike(left, right, principal, request, now);
    case _ => IssuanceAlike(cfg, left, right, tx, now);
  }

  // ---------- the service ----------

  /** Equal rows, or materialized on the left only, after the end of validity. */
  ghost predicate Alike(left: Cell, right: Cell, at: nat) {
    left == right || (Diverged(left, right) && IsPastValidity(right.quote.issue, at))
  }

  ghost predicate RowsAlike(a: System, b: System, q: QuoteId)
    requires q in a.cells && q in b.cells
  {
    && Alike(a.cells[q], b.cells[q], b.clock)
    && (q in b.doubts ==> Alike(a.cells[q], b.cells[q], b.doubts[q].now))
  }

  /** Two services that differ at most by what the job materialized. */
  ghost predicate Similar(a: System, b: System) {
    && a.clock == b.clock && a.doubts == b.doubts && a.issuers == b.issuers && a.mailers == b.mailers
    && a.artifacts == b.artifacts && a.calls == b.calls
    && a.cells.Keys == b.cells.Keys
    && (forall q <- b.cells :: RowsAlike(a, b, q))
    && (forall q <- b.doubts :: Timely(b, b.doubts[q]))
  }

  /** A COMMIT in doubt read the clock in the past, and the job leaves none in doubt. */
  predicate Timely(s: System, doubt: Doubt) {
    doubt.now <= s.clock && !IsJob(doubt.change)
  }

  predicate IsJob(change: Change) { change.Existing? && change.tx.MaterializeExpiry? }

  lemma AlikeTransaction(cfg: Config, left: Cell, right: Cell, tx: Tx, now: nat, at: nat)
    requires Alike(left, right, now) && now <= at && !tx.MaterializeExpiry?
    ensures var ((a, ra), (b, rb)) := (Apply(cfg, left, tx, now), Apply(cfg, right, tx, now));
            SameCode(ra, rb) && (left == right || Diverged(a, b)) && (left == right ==> a == b)
  {
    if left != right { SameTransaction(cfg, left, right, tx, now); }
  }

  /** The validity a row is past does not move while it is stored as `issued`. */
  lemma StillPast(cfg: Config, c: Cell, tx: Tx, now: nat, at: nat)
    requires c.quote.status == Issued && IsPastValidity(c.quote.issue, now) && now <= at
    ensures IsPastValidity(Apply(cfg, c, tx, now).0.quote.issue, at)
  {
    if tx.UpdateDraft? || tx.IssueDraft? {} else { CellInvariants.SnapshotStays(cfg, c, tx, now); }
  }

  lemma AlikeTransactions(cfg: Config, a: map<QuoteId, Cell>, b: map<QuoteId, Cell>, q: QuoteId, change: Change, now: nat, at: nat)
    requires a.Keys == b.Keys && (q in b ==> Alike(a[q], b[q], now)) && now <= at
    requires !IsJob(change)
    ensures var ((a2, ra), (b2, rb)) := (Transact(cfg, a, q, change, now), Transact(cfg, b, q, change, now));
            && a2.Keys == b2.Keys && SameCode(ra, rb)
            && (forall r | r in b2 && r != q :: r in b && a2[r] == a[r] && b2[r] == b[r])
            && (q in b2 ==> Alike(a2[q], b2[q], at))
  {
    if change.Existing? {
      if q in b {
        AlikeTransaction(cfg, a[q], b[q], change.tx, now, at);
        if a[q] != b[q] { StillPast(cfg, b[q], change.tx, now, at); }
        var (left, right) := (Apply(cfg, a[q], change.tx, now).0, Apply(cfg, b[q], change.tx, now).0);
        assert Alike(left, right, at);
      }
    } else {
      assert q in b ==> Alike(a[q], b[q], at);
    }
  }

  /** Workers read the rows the job never writes. */
  lemma SnapshotsAlike(a: System, b: System, q: QuoteId)
    requires Similar(a, b) && q in b.cells
    ensures SnapshotOf(a.cells[q].quote) == SnapshotOf(b.cells[q].quote)
    ensures a.cells[q].operations == b.cells[q].operations
    ensures a.cells[q].manifest == b.cells[q].manifest
    ensures a.cells[q].deliveries == b.cells[q].deliveries
  {
    assert RowsAlike(a, b, q);
  }

  lemma AdoptionsAlike(a: System, b: System, w: Owner, asked: Option<(QuoteId, OperationId)>, operation: Option<(QuoteId, OperationId)>, delivery: Option<(QuoteId, DeliveryId)>)
    requires Similar(a, b)
    ensures AdoptableOperation(a, w, asked, operation) == AdoptableOperation(b, w, asked, operation)
    ensures AdoptableDelivery(a, w, delivery) == AdoptableDelivery(b, w, delivery)
  {
    forall q <- b.cells ensures a.cells[q].operations == b.cells[q].operations && a.cells[q].deliveries == b.cells[q].deliveries {
      SnapshotsAlike(a, b, q);
    }
  }

  ghost predicate SameProcesses(a: System, b: System) {
    && a.clock == b.clock && a.doubts == b.doubts && a.issuers == b.issuers && a.mailers == b.mailers
    && a.artifacts == b.artifacts && a.calls == b.calls
  }

  lemma SimilarAgain(a: System, b: System, a2: System, b2: System)
    requires Similar(a, b) && SameProcesses(a2, b2)
    requires a2.cells == a.cells && b2.cells == b.cells && b2.doubts == b.doubts && b2.clock >= b.clock
    ensures Similar(a2, b2)
  {
    forall q <- b2.cells ensures RowsAlike(a2, b2, q) { assert RowsAlike(a, b, q); }
  }

  ghost predicate SameReads(a: System, b: System, q: QuoteId) {
    && (q in a.cells <==> q in b.cells)
    && (q in a.cells ==>
          && SnapshotOf(a.cells[q].quote) == SnapshotOf(b.cells[q].quote)
          && a.cells[q].operations == b.cells[q].operations
          && a.cells[q].manifest == b.cells[q].manifest
          && a.cells[q].deliveries == b.cells[q].deliveries)
  }

  lemma ReadsAlike(a: System, b: System, q: QuoteId)
    requires Similar(a, b)
    ensures SameReads(a, b, q)
  {
    if q in b.cells { SnapshotsAlike(a, b, q); }
  }

  lemma IssuerAdoptsAlike(cfg: Config, a: System, b: System, w: Owner, found: Option<(QuoteId, OperationId)>)
    requires SameProcesses(a, b)
    requires IssuerOf(b, w).ClaimInDoubt? ==> AdoptableOperation(a, w, IssuerOf(b, w).asked, found) == AdoptableOperation(b, w, IssuerOf(b, w).asked, found)
    requires found.Some? ==> SameReads(a, b, found.value.0)
    ensures SameProcesses(IssuerLocal(cfg, a, IssuerAdopt(w, found)), IssuerLocal(cfg, b, IssuerAdopt(w, found)))
  {
  }

  lemma IssuerVerifiesAlike(cfg: Config, a: System, b: System, w: Owner)
    requires SameProcesses(a, b) && (IssuerOf(b, w).Holding? ==> SameReads(a, b, IssuerOf(b, w).quote))
    ensures SameProcesses(IssuerLocal(cfg, a, IssuerVerify(w)), IssuerLocal(cfg, b, IssuerVerify(w)))
  {
  }

  lemma IssuerReconcilesAlike(cfg: Config, a: System, b: System, w: Owner)
    requires SameProcesses(a, b) && (IssuerOf(b, w).CommitInDoubt? ==> SameReads(a, b, IssuerOf(b, w).quote))
    ensures SameProcesses(IssuerLocal(cfg, a, IssuerReconcile(w)), IssuerLocal(cfg, b, IssuerReconcile(w)))
  {
  }

  lemma IssuerPublishesAlike(cfg: Config, a: System, b: System, w: Owner)
    requires SameProcesses(a, b)
    ensures SameProcesses(IssuerLocal(cfg, a, IssuerPublish(w)), IssuerLocal(cfg, b, IssuerPublish(w)))
  {
  }

  lemma IssuerStepsAlike(cfg: Config, a: System, b: System, step: Step)
    requires SameProcesses(a, b) && !step.IssuerAdopt? && !step.IssuerVerify? && !step.IssuerReconcile? && !step.IssuerPublish?
    ensures SameProcesses(IssuerLocal(cfg, a, step), IssuerLocal(cfg, b, step))
  {
  }

  lemma MailAdoptsAlike(cfg: Config, a: System, b: System, w: Owner, adopted: Option<(QuoteId, DeliveryId)>)
    requires SameProcesses(a, b) && AdoptableDelivery(a, w, adopted) == AdoptableDelivery(b, w, adopted)
    requires adopted.Some? ==> SameReads(a, b, adopted.value.0)
    ensures SameProcesses(MailLocal(cfg, a, MailAdopt(w, adopted)), MailLocal(cfg, b, MailAdopt(w, adopted)))
  {
  }

  lemma MailPreparesAlike(cfg: Config, a: System, b: System, w: Owner, ready: bool)
    requires SameProcesses(a, b)
    requires MailerOf(b, w).Preparing? ==> SameReads(a, b, MailerOf(b, w).quote)
    ensures SameProcesses(MailLocal(cfg, a, MailPrepare(w, ready)), MailLocal(cfg, b, MailPrepare(w, ready)))
  {
  }

  lemma MailReconcilesAlike(cfg: Config, a: System, b: System, w: Owner)
    requires SameProcesses(a, b)
    requires MailerOf(b, w).CompletionInDoubt? ==> SameReads(a, b, MailerOf(b, w).quote)
    ensures SameProcesses(MailLocal(cfg, a, MailReconcile(w)), MailLocal(cfg, b, MailReconcile(w)))
  {
  }

  lemma MailStepsAlike(cfg: Config, a: System, b: System, step: Step)
    requires SameProcesses(a, b) && !step.MailAdopt? && !step.MailPrepare? && !step.MailReconcile?
    ensures SameProcesses(MailLocal(cfg, a, step), MailLocal(cfg, b, step))
  {
  }

  lemma IssuersAlike(cfg: Config, a: System, b: System, step: Step)
    requires Similar(a, b)
    ensures SameProcesses(IssuerLocal(cfg, a, step), IssuerLocal(cfg, b, step))
  {
    match step
    case IssuerAdopt(w, found) =>
      if IssuerOf(b, w).ClaimInDoubt? { AdoptionsAlike(a, b, w, IssuerOf(b, w).asked, found, None); }
      if found.Some? { ReadsAlike(a, b, found.value.0); }
      IssuerAdoptsAlike(cfg, a, b, w, found);
    case IssuerVerify(w) =>
      if IssuerOf(b, w).Holding? { ReadsAlike(a, b, IssuerOf(b, w).quote); }
      IssuerVerifiesAlike(cfg, a, b, w);
    case IssuerReconcile(w) =>
      if IssuerOf(b, w).CommitInDoubt? { ReadsAlike(a, b, IssuerOf(b, w).quote); }
      IssuerReconcilesAlike(cfg, a, b, w);
    case IssuerPublish(w) => IssuerPublishesAlike(cfg, a, b, w);
    case _ => IssuerStepsAlike(cfg, a, b, step);
  }

  lemma MailersAlike(cfg: Config, a: System, b: System, step: Step)
    requires Similar(a, b)
    ensures SameProcesses(MailLocal(cfg, a, step), MailLocal(cfg, b, step))
  {
    match step
    case MailAdopt(w, adopted) =>
      AdoptionsAlike(a, b, w, None, None, adopted);
      if adopted.Some? { ReadsAlike(a, b, adopted.value.0); }
      MailAdoptsAlike(cfg, a, b, w, adopted);
    case MailPrepare(w, ready) =>
      if MailerOf(b, w).Preparing? { ReadsAlike(a, b, MailerOf(b, w).quote); }
      MailPreparesAlike(cfg, a, b, w, ready);
    case MailReconcile(w) =>
      if MailerOf(b, w).CompletionInDoubt? { ReadsAlike(a, b, MailerOf(b, w).quote); }
      MailReconcilesAlike(cfg, a, b, w);
    case _ => MailStepsAlike(cfg, a, b, step);
  }

  lemma LocalAlike(cfg: Config, a: System, b: System, step: Step)
    requires Similar(a, b) && !step.Resolve?
    ensures Similar(Local(cfg, a, step), Local(cfg, b, step))
  {
    if OfMailer(step) { MailersAlike(cfg, a, b, step); } else if !step.Advance? { IssuersAlike(cfg, a, b, step); }
    ServiceSafety.LocalLeavesTables(cfg, a, step);
    ServiceSafety.LocalLeavesTables(cfg, b, step);
    SimilarAgain(a, b, Local(cfg, a, step), Local(cfg, b, step));
  }

  /** A COMMIT of these tables, in each of the ways it can end. */
  function Ended(s: System, x: Submission, cells: map<QuoteId, Cell>): System {
    match x.ending
    case Answered => s.(cells := cells)
    case UnansweredApplied => s.(cells := cells)
    case UnansweredLost => s
    case UnansweredPending => s.(doubts := s.doubts[x.quote := Doubt(x.change, s.clock)])
  }

  lemma CommitEnds(cfg: Config, s: System, x: Submission)
    ensures Commit(cfg, s, x).0 == Ended(s, x, Transact(cfg, s.cells, x.quote, x.change, s.clock).0)
    ensures Commit(cfg, s, x).1 == Transact(cfg, s.cells, x.quote, x.change, s.clock).1
  {
  }

  lemma TablesAlike(a: System, b: System, q: QuoteId, a2: map<QuoteId, Cell>, b2: map<QuoteId, Cell>)
    requires Similar(a, b) && q !in b.doubts && a2.Keys == b2.Keys
    requires forall r | r in b2 && r != q :: r in b.cells && a2[r] == a.cells[r] && b2[r] == b.cells[r]
    requires q in b2 ==> Alike(a2[q], b2[q], b.clock)
    ensures Similar(a.(cells := a2), b.(cells := b2))
  {
    CommittedAlike(a, b, a.(cells := a2), b.(cells := b2), q);
  }

  lemma DoubtAlike(a: System, b: System, q: QuoteId, change: Change)
    requires Similar(a, b) && !IsJob(change)
    ensures Similar(a.(doubts := a.doubts[q := Doubt(change, a.clock)]), b.(doubts := b.doubts[q := Doubt(change, b.clock)]))
  {
    var (a2, b2) := (a.(doubts := a.doubts[q := Doubt(change, a.clock)]), b.(doubts := b.doubts[q := Doubt(change, b.clock)]));
    if q in b.cells { assert RowsAlike(a, b, q); }
    CommittedAlike(a, b, a2, b2, q);
  }

  lemma CommitAlike(cfg: Config, a: System, b: System, x: Submission)
    requires Similar(a, b) && x.quote !in b.doubts && !IsJob(x.change)
    ensures Similar(Commit(cfg, a, x).0, Commit(cfg, b, x).0)
    ensures SameCode(Commit(cfg, a, x).1, Commit(cfg, b, x).1)
  {
    var q := x.quote;
    if q in b.cells { assert RowsAlike(a, b, q); }
    AlikeTransactions(cfg, a.cells, b.cells, q, x.change, b.clock, b.clock);
    TablesAlike(a, b, q, Transact(cfg, a.cells, q, x.change, a.clock).0, Transact(cfg, b.cells, q, x.change, b.clock).0);
    DoubtAlike(a, b, q, x.change);
    CommitEnds(cfg, a, x);
    CommitEnds(cfg, b, x);
  }

  /** Tables that changed alike at one quote, and at most one new COMMIT in doubt there. */
  lemma CommittedAlike(a: System, b: System, a2: System, b2: System, q: QuoteId)
    requires Similar(a, b) && SameProcesses(a2, b2) && a2.cells.Keys == b2.cells.Keys && b2.clock == b.clock
    requires forall r | r in b2.cells && r != q :: r in b.cells && a2.cells[r] == a.cells[r] && b2.cells[r] == b.cells[r]
    requires q in b2.cells ==> Alike(a2.cells[q], b2.cells[q], b.clock)
    requires q in b2.doubts ==> b2.doubts[q].now == b.clock && !IsJob(b2.doubts[q].change)
    requires forall r <- b2.doubts | r != q :: r in b.doubts && b2.doubts[r] == b.doubts[r]
    ensures Similar(a2, b2)
  {
    forall r <- b2.cells ensures RowsAlike(a2, b2, r) {
      if r != q { assert RowsAlike(a, b, r); }
    }
    forall r <- b2.doubts ensures Timely(b2, b2.doubts[r]) {
      if r != q { assert Timely(b, b.doubts[r]); }
    }
  }

  /** A process only looks at answers that name its claim, its commit or its completion. */
  lemma RefusalsLookAlike(s: System, step: Step, x: Submission, ra: Reply, rb: Reply)
    requires SameCode(ra, rb)
    ensures Observe(s, step, x, ra) == Observe(s, step, x, rb)
  {
  }

  lemma IssuersHearAlike(a: System, b: System, step: Step, x: Submission, reply: Reply)
    requires a.issuers == b.issuers
    ensures Observe(a, step, x, reply).issuers == Observe(b, step, x, reply).issuers
  {
  }

  lemma MailersHearAlike(a: System, b: System, step: Step, x: Submission, reply: Reply)
    requires a.mailers == b.mailers
    ensures Observe(a, step, x, reply).mailers == Observe(b, step, x, reply).mailers
  {
  }

  lemma ObservedAlike(a: System, b: System, step: Step, x: Submission, ra: Reply, rb: Reply)
    requires SameProcesses(a, b) && SameCode(ra, rb)
    ensures SameProcesses(Observe(a, step, x, ra), Observe(b, step, x, rb))
  {
    IssuersHearAlike(a, b, step, x, ra);
    MailersHearAlike(a, b, step, x, ra);
    ServiceSafety.ObserveLeavesTables(a, step, x, ra);
    ServiceSafety.ObserveLeavesTables(b, step, x, ra);
    RefusalsLookAlike(b, step, x, ra, rb);
  }

  /** What the step's own transaction was answered, if it ran one. */
  ghost function Answer(cfg: Config, s: System, step: Step): Option<Reply> {
    var x := Submits(s, step);
    if x.None? || x.value.quote in s.doubts then None else Some(Commit(cfg, s, x.value).1)
  }

  ghost predicate SameAnswer(a: Option<Reply>, b: Option<Reply>) {
    if a.None? || b.None? then a == b else SameCode(a.value, b.value)
  }

  lemma SubmissionsAgree(a: System, b: System, step: Step)
    requires SameProcesses(a, b) && !step.ExpireQuote?
    ensures Submits(a, step) == Submits(b, step)
    ensures Submits(b, step).Some? ==> !IsJob(Submits(b, step).value.change)
  {
  }

  lemma SubmittedAlike(cfg: Config, a: System, b: System, step: Step)
    requires Similar(a, b) && !step.ExpireQuote? && Submits(b, step).Some?
    ensures Similar(After(cfg, a, step), After(cfg, b, step)) && SameAnswer(Answer(cfg, a, step), Answer(cfg, b, step))
  {
    SubmissionsAgree(a, b, step);
    var x := Submits(b, step).value;
    if x.quote !in b.doubts {
      CommitAlike(cfg, a, b, x);
      var ((a2, ra), (b2, rb)) := (Commit(cfg, a, x), Commit(cfg, b, x));
      ObservedAlike(a2, b2, step, x, ra, rb);
      ServiceSafety.ObserveLeavesTables(a2, step, x, ra);
      ServiceSafety.ObserveLeavesTables(b2, step, x, rb);
      SimilarAgain(a2, b2, Observe(a2, step, x, ra), Observe(b2, step, x, rb));
    }
  }

  lemma ResolvedAlike(cfg: Config, a: System, b: System, q: QuoteId, lands: bool)
    requires Similar(a, b)
    ensures Similar(Local(cfg, a, Resolve(q, lands)), Local(cfg, b, Resolve(q, lands)))
  {
    if q in b.doubts {
      var d := b.doubts[q];
      assert Timely(b, d);
      if q in b.cells { assert RowsAlike(a, b, q); }
      AlikeTransactions(cfg, a.cells, b.cells, q, d.change, d.now, b.clock);
      CommittedAlike(a, b, Local(cfg, a, Resolve(q, lands)), Local(cfg, b, Resolve(q, lands)), q);
    }
  }

  /** The same step on both sides. */
  lemma StepAlike(cfg: Config, a: System, b: System, step: Step)
    requires Similar(a, b) && !step.ExpireQuote?
    ensures Similar(After(cfg, a, step), After(cfg, b, step)) && SameAnswer(Answer(cfg, a, step), Answer(cfg, b, step))
  {
    SubmissionsAgree(a, b, step);
    if Submits(b, step).Some? { SubmittedAlike(cfg, a, b, step); }
    else if step.Resolve? { ResolvedAlike(cfg, a, b, step.quote, step.lands); }
    else { LocalAlike(cfg, a, b, step); }
  }

  lemma MaterializingDiverges(c: Cell, now: nat)
    requires c.quote.status == Issued && IsPastValidity(c.quote.issue, now)
    ensures Diverged(Expiry.MaterializeExpiry(c, now).0, c)
  {
    FactAdded(c.audit, QuoteExpired(c.quote.version + 1), Some(Issued), Some(Expired));
  }

  lemma MaterializedAlike(left: Cell, right: Cell, now: nat)
    requires Alike(left, right, now)
    ensures Alike(Expiry.MaterializeExpiry(left, now).0, right, now)
  {
    if left.quote.status == Issued && IsPastValidity(left.quote.issue, now) {
      assert left == right;
      MaterializingDiverges(right, now);
    } else {
      assert Expiry.MaterializeExpiry(left, now).0 == left;
    }
  }

  /** The job runs on the left only. */
  lemma JobAlike(cfg: Config, a: System, b: System, q: QuoteId, ending: Ending)
    requires Similar(a, b) && !ending.UnansweredPending?
    ensures Similar(After(cfg, a, ExpireQuote(q, ending)), b)
  {
    if q !in b.doubts && q in b.cells {
      assert RowsAlike(a, b, q);
      MaterializedAlike(a.cells[q], b.cells[q], b.clock);
      CommittedAlike(a, b, After(cfg, a, ExpireQuote(q, ending)), b, q);
    }
  }

  // ---------- the job's own COMMITs in doubt ----------

  /** The job's unanswered COMMIT may still hold the lock of this quote. */
  ghost predicate JobHolds(s: System, q: QuoteId) { q in s.doubts && IsJob(s.doubts[q].change) }

  /** The same service without the locks the job holds. */
  ghost function Forgotten(s: System): System {
    s.(doubts := map q | q in s.doubts && !IsJob(s.doubts[q].change) :: s.doubts[q])
  }

  /** What the job holds in doubt would materialize the row as it is on the right. */
  ghost predicate HeldAlike(a: System, b: System, q: QuoteId) {
    JobHolds(a, q) ==> a.doubts[q].now <= b.clock && (q in b.cells ==> q in a.cells && Alike(a.cells[q], b.cells[q], a.doubts[q].now))
  }

  ghost predicate Shadows(a: System, b: System) {
    Similar(Forgotten(a), b) && forall q :: HeldAlike(a, b, q)
  }

  /** A step of the job, the end of its COMMIT in doubt, or a transaction that waits for its lock. */
  ghost predicate Hidden(s: System, step: Step) {
    || step.ExpireQuote?
    || (step.Resolve? && JobHolds(s, step.quote))
    || (Submits(s, step).Some? && JobHolds(s, Submits(s, step).value.quote))
  }

  lemma CommitForgets(cfg: Config, s: System, x: Submission)
    requires !JobHolds(s, x.quote) && !IsJob(x.change)
    ensures Commit(cfg, Forgotten(s), x).0 == Forgotten(Commit(cfg, s, x).0)
    ensures Commit(cfg, Forgotten(s), x).1 == Commit(cfg, s, x).1
  {
    if x.ending.UnansweredPending? {
      var doubt := Doubt(x.change, s.clock);
      assert Forgotten(s).doubts[x.quote := doubt] == Forgotten(s.(doubts := s.doubts[x.quote := doubt])).doubts;
    }
  }

  lemma ObserveForgets(s: System, step: Step, x: Submission, reply: Reply)
    ensures Observe(Forgotten(s), step, x, reply) == Forgotten(Observe(s, step, x, reply))
  {
  }

  lemma IssuerForgets(cfg: Config, s: System, step: Step)
    ensures IssuerLocal(cfg, Forgotten(s), step) == Forgotten(IssuerLocal(cfg, s, step))
  {
    if step.IssuerAdopt? { IssuerAdoptForgets(cfg, s, step.worker, step.found); }
    else if step.IssuerPublish? { IssuerPublishForgets(cfg, s, step.worker); }
  }

  lemma IssuerAdoptForgets(cfg: Config, s: System, w: Owner, found: Option<(QuoteId, OperationId)>)
    ensures IssuerLocal(cfg, Forgotten(s), IssuerAdopt(w, found)) == Forgotten(IssuerLocal(cfg, s, IssuerAdopt(w, found)))
  {
    if IssuerOf(s, w).ClaimInDoubt? { AdoptionForgets(s, w, IssuerOf(s, w).asked, found, None); }
  }

  lemma IssuerPublishForgets(cfg: Config, s: System, w: Owner)
    ensures IssuerLocal(cfg, Forgotten(s), IssuerPublish(w)) == Forgotten(IssuerLocal(cfg, s, IssuerPublish(w)))
  {
  }

  lemma MailForgets(cfg: Config, s: System, step: Step)
    ensures MailLocal(cfg, Forgotten(s), step) == Forgotten(MailLocal(cfg, s, step))
  {
    if step.MailAdopt? { AdoptionForgets(s, step.worker, None, None, step.adopted); }
  }

  lemma AdoptionForgets(s: System, w: Owner, asked: Option<(QuoteId, OperationId)>, operation: Option<(QuoteId, OperationId)>, delivery: Option<(QuoteId, DeliveryId)>)
    ensures AdoptableOperation(Forgotten(s), w, asked, operation) == AdoptableOperation(s, w, asked, operation)
    ensures AdoptableDelivery(Forgotten(s), w, delivery) == AdoptableDelivery(s, w, delivery)
  {
  }

  lemma ResolveForgets(cfg: Config, s: System, q: QuoteId, lands: bool)
    requires !JobHolds(s, q)
    ensures Local(cfg, Forgotten(s), Resolve(q, lands)) == Forgotten(Local(cfg, s, Resolve(q, lands)))
  {
    assert Forgotten(s).doubts - {q} == Forgotten(s.(doubts := s.doubts - {q})).doubts;
  }

  lemma LocalForgets(cfg: Config, s: System, step: Step)
    requires step.Resolve? ==> !JobHolds(s, step.quote)
    ensures Local(cfg, Forgotten(s), step) == Forgotten(Local(cfg, s, step))
  {
    if step.Resolve? { ResolveForgets(cfg, s, step.quote, step.lands); }
    else if OfMailer(step) { MailForgets(cfg, s, step); }
    else { IssuerForgets(cfg, s, step); }
  }

  lemma SubmissionForgets(cfg: Config, s: System, step: Step)
    requires !Hidden(s, step) && Submits(s, step).Some?
    ensures After(cfg, Forgotten(s), step) == Forgotten(After(cfg, s, step))
    ensures Answer(cfg, Forgotten(s), step) == Answer(cfg, s, step)
  {
    SubmitsForgets(s, step);
    var x := Submits(s, step).value;
    if x.quote !in s.doubts {
      CommitForgets(cfg, s, x);
      ObserveForgets(Commit(cfg, s, x).0, step, x, Commit(cfg, s, x).1);
    }
  }

  lemma SubmitsForgets(s: System, step: Step)
    ensures Submits(Forgotten(s), step) == Submits(s, step)
    ensures !step.ExpireQuote? && Submits(s, step).Some? ==> !IsJob(Submits(s, step).value.change)
  {
  }

  /** Steps that do not touch the job's locks do not see them. */
  lemma StepForgets(cfg: Config, s: System, step: Step)
    requires !Hidden(s, step)
    ensures After(cfg, Forgotten(s), step) == Forgotten(After(cfg, s, step))
    ensures Answer(cfg, Forgotten(s), step) == Answer(cfg, s, step)
  {
    SubmitsForgets(s, step);
    if Submits(s, step).Some? { SubmissionForgets(cfg, s, step); } else { LocalForgets(cfg, s, step); }
  }

  /** The row of this quote and the COMMIT in doubt on it. */
  ghost predicate Untouched(s: System, after: System, q: QuoteId) {
    && (q in s.cells <==> q in after.cells) && (q in s.cells ==> after.cells[q] == s.cells[q])
    && (JobHolds(after, q) ==> JobHolds(s, q) && after.doubts[q] == s.doubts[q])
    && s.clock <= after.clock
  }

  lemma CommitTouches(cfg: Config, s: System, x: Submission, q: QuoteId)
    requires !IsJob(x.change)
    ensures q != x.quote ==> Untouched(s, Commit(cfg, s, x).0, q)
    ensures !JobHolds(s, x.quote) ==> !JobHolds(Commit(cfg, s, x).0, x.quote)
  {
  }

  /** A step that is not hidden leaves the rows the job holds alone, and takes no lock for it. */
  lemma StepTouches(cfg: Config, s: System, step: Step, q: QuoteId)
    requires !Hidden(s, step)
    ensures JobHolds(s, q) ==> Untouched(s, After(cfg, s, step), q)
    ensures JobHolds(After(cfg, s, step), q) ==> JobHolds(s, q)
  {
    SubmitsForgets(s, step);
    if Submits(s, step).Some? { SubmissionTouches(cfg, s, step, q); }
    else if !step.Resolve? { ServiceSafety.LocalLeavesTables(cfg, s, step); }
  }

  lemma SubmissionTouches(cfg: Config, s: System, step: Step, q: QuoteId)
    requires !Hidden(s, step) && Submits(s, step).Some? && !IsJob(Submits(s, step).value.change)
    ensures JobHolds(s, q) ==> Untouched(s, After(cfg, s, step), q)
    ensures JobHolds(After(cfg, s, step), q) ==> JobHolds(s, q)
  {
    var x := Submits(s, step).value;
    if x.quote !in s.doubts {
      CommitTouches(cfg, s, x, q);
      ServiceSafety.ObserveLeavesTables(Commit(cfg, s, x).0, step, x, Commit(cfg, s, x).1);
    }
  }

  lemma VisibleStepShadows(cfg: Config, a: System, b: System, step: Step)
    requires Shadows(a, b) && !Hidden(a, step)
    ensures !Hidden(b, step)
    ensures Shadows(After(cfg, a, step), After(cfg, b, step)) && SameAnswer(Answer(cfg, a, step), Answer(cfg, b, step))
  {
    SubmissionsAgree(Forgotten(a), b, step);
    SubmitsForgets(a, step);
    NoJobHolds(a, b);
    StepAlike(cfg, Forgotten(a), b, step);
    StepForgets(cfg, a, step);
    forall q ensures HeldAlike(After(cfg, a, step), After(cfg, b, step), q) {
      assert HeldAlike(a, b, q);
      StepTouches(cfg, a, step, q);
      if JobHolds(a, q) { RightStaysHeld(cfg, a, b, step, q); }
    }
  }

  lemma NoJobHolds(a: System, b: System)
    requires Shadows(a, b)
    ensures forall q :: !JobHolds(b, q) && (JobHolds(a, q) ==> q !in b.doubts)
  {
    forall q ensures !JobHolds(b, q) && (JobHolds(a, q) ==> q !in b.doubts) {
      if q in b.doubts { assert Timely(b, b.doubts[q]); }
    }
  }

  lemma VisibleElsewhere(a: System, b: System, step: Step, q: QuoteId)
    requires Shadows(a, b) && !Hidden(a, step) && JobHolds(a, q)
    ensures Submits(b, step).Some? ==> !IsJob(Submits(b, step).value.change) && Submits(b, step).value.quote != q
    ensures step.Resolve? ==> step.quote != q
  {
    SubmissionsAgree(Forgotten(a), b, step);
    SubmitsForgets(a, step);
  }

  /** Where the job holds a lock on the left, a step of both sides touches that row on neither. */
  lemma RightStaysHeld(cfg: Config, a: System, b: System, step: Step, q: QuoteId)
    requires Shadows(a, b) && !Hidden(a, step) && JobHolds(a, q)
    ensures Untouched(b, After(cfg, b, step), q)
  {
    VisibleElsewhere(a, b, step, q);
    if Submits(b, step).Some? {
      SubmissionElsewhere(cfg, b, step, q);
    } else if step.Resolve? {
      ResolveTouches(cfg, b, step.quote, step.lands, q);
    } else {
      ServiceSafety.LocalLeavesTables(cfg, b, step);
    }
  }

  lemma SubmissionElsewhere(cfg: Config, s: System, step: Step, q: QuoteId)
    requires Submits(s, step).Some? && !IsJob(Submits(s, step).value.change) && Submits(s, step).value.quote != q
    ensures Untouched(s, After(cfg, s, step), q)
  {
    var x := Submits(s, step).value;
    if x.quote !in s.doubts {
      CommitTouches(cfg, s, x, q);
      ServiceSafety.ObserveLeavesTables(Commit(cfg, s, x).0, step, x, Commit(cfg, s, x).1);
    }
  }

  lemma ResolveTouches(cfg: Config, s: System, r: QuoteId, lands: bool, q: QuoteId)
    requires q != r
    ensures Untouched(s, Local(cfg, s, Resolve(r, lands)), q)
  {
  }

  lemma AlikeLater(left: Cell, right: Cell, at: nat, later: nat)
    requires Alike(left, right, at) && at <= later
    ensures Alike(left, right, later)
  {
  }

  /** What the end of the job's COMMIT in doubt changes. */
  lemma HeldJobMoves(cfg: Config, s: System, q: QuoteId, lands: bool)
    requires JobHolds(s, q)
    ensures var after := After(cfg, s, Resolve(q, lands));
            && after == s.(doubts := after.doubts, cells := after.cells) && after.doubts == s.doubts - {q}
            && Forgotten(after).doubts == Forgotten(s).doubts
            && after.cells == if lands && q in s.cells then s.cells[q := Expiry.MaterializeExpiry(s.cells[q], s.doubts[q].now).0] else s.cells
  {
    assert Forgotten(After(cfg, s, Resolve(q, lands))).doubts == Forgotten(s).doubts;
  }

  lemma HeldRowEnds(cfg: Config, a: System, b: System, q: QuoteId)
    requires HeldAlike(a, b, q) && JobHolds(a, q)
    ensures q in b.cells ==>
              Alike(a.cells[q], b.cells[q], b.clock) && Alike(Expiry.MaterializeExpiry(a.cells[q], a.doubts[q].now).0, b.cells[q], b.clock)
  {
    if q in b.cells {
      var now := a.doubts[q].now;
      MaterializedAlike(a.cells[q], b.cells[q], now);
      AlikeLater(Expiry.MaterializeExpiry(a.cells[q], now).0, b.cells[q], now, b.clock);
    }
  }

  /** The end of the job's own COMMIT in doubt, on the left only. */
  lemma HeldJobEnds(cfg: Config, a: System, b: System, q: QuoteId, lands: bool)
    requires Shadows(a, b) && JobHolds(a, q)
    ensures Shadows(After(cfg, a, Resolve(q, lands)), b)
  {
    var after := After(cfg, a, Resolve(q, lands));
    NoJobHolds(a, b);
    HeldJobMoves(cfg, a, q, lands);
    HeldRowEnds(cfg, a, b, q);
    CommittedAlike(Forgotten(a), b, Forgotten(after), b, q);
    forall r ensures HeldAlike(after, b, r) { assert HeldAlike(a, b, r); }
  }

  lemma JobShadows(cfg: Config, a: System, b: System, q: QuoteId, ending: Ending)
    requires Shadows(a, b)
    ensures Shadows(After(cfg, a, ExpireQuote(q, ending)), b)
  {
    if q !in a.doubts {
      if ending.UnansweredPending? {
        JobHeldShadows(cfg, a, b, q);
      } else {
        var after := After(cfg, a, ExpireQuote(q, ending));
        JobAlike(cfg, Forgotten(a), b, q, ending);
        assert Forgotten(after) == After(cfg, Forgotten(a), ExpireQuote(q, ending));
        forall r ensures HeldAlike(after, b, r) { assert HeldAlike(a, b, r); }
      }
    }
  }

  function JobDoubted(s: System, q: QuoteId): System {
    s.(doubts := s.doubts[q := Doubt(Existing(MaterializeExpiry), s.clock)])
  }

  lemma JobTakesLock(cfg: Config, s: System, q: QuoteId)
    requires q !in s.doubts
    ensures After(cfg, s, ExpireQuote(q, UnansweredPending)) == JobDoubted(s, q)
    ensures Forgotten(JobDoubted(s, q)) == Forgotten(s)
  {
    assert Forgotten(JobDoubted(s, q)).doubts == Forgotten(s).doubts;
  }

  lemma JobHeldShadows(cfg: Config, a: System, b: System, q: QuoteId)
    requires Shadows(a, b) && q !in a.doubts
    ensures Shadows(After(cfg, a, ExpireQuote(q, UnansweredPending)), b)
  {
    JobTakesLock(cfg, a, q);
    if q in b.cells { assert RowsAlike(Forgotten(a), b, q); }
    forall r ensures HeldAlike(JobDoubted(a, q), b, r) { assert HeldAlike(a, b, r); }
  }

  lemma HiddenStepShadows(cfg: Config, a: System, b: System, step: Step)
    requires Shadows(a, b) && Hidden(a, step)
    ensures Shadows(After(cfg, a, step), b)
  {
    if step.ExpireQuote? { JobShadows(cfg, a, b, step.quote, step.ending); }
    else if step.Resolve? { HeldJobEnds(cfg, a, b, step.quote, step.lands); }
  }

  // ---------- runs ----------

  /** The run without the job: its steps, and the transactions that only waited for its locks, are gone. */
  ghost function WithoutJob(cfg: Config, s: System, steps: seq<Step>): seq<Step>
    decreases |steps|
  {
    if steps == [] then []
    else
      var rest := WithoutJob(cfg, After(cfg, s, steps[0]), steps[1..]);
      if Hidden(s, steps[0]) then rest else [steps[0]] + rest
  }

  /** The answers of the transactions of a run, in order, leaving out the job's own and what waits for it. */
  ghost function Answers(cfg: Config, s: System, steps: seq<Step>): seq<Option<Reply>>
    decreases |steps|
  {
    if steps == [] then []
    else
      var rest := Answers(cfg, After(cfg, s, steps[0]), steps[1..]);
      if Hidden(s, steps[0]) then rest else [Answer(cfg, s, steps[0])] + rest
  }

  ghost predicate SameAnswers(a: seq<Option<Reply>>, b: seq<Option<Reply>>) {
    |a| == |b| && forall i | 0 <= i < |a| :: SameAnswer(a[i], b[i])
  }

  ghost predicate RunTogether(cfg: Config, a: System, b: System, left: seq<Step>, right: seq<Step>) {
    Shadows(Run(cfg, a, left), Run(cfg, b, right)) && SameAnswers(Answers(cfg, a, left), Answers(cfg, b, right))
  }

  lemma JobThenTogether(cfg: Config, a: System, b: System, step: Step, left: seq<Step>, right: seq<Step>)
    requires Hidden(a, step) && RunTogether(cfg, After(cfg, a, step), b, left, right)
    ensures RunTogether(cfg, a, b, [step] + left, right)
  {
    assert ([step] + left)[1..] == left;
  }

  lemma StepThenTogether(cfg: Config, a: System, b: System, step: Step, left: seq<Step>, right: seq<Step>)
    requires !Hidden(a, step) && !Hidden(b, step) && SameAnswer(Answer(cfg, a, step), Answer(cfg, b, step))
    requires RunTogether(cfg, After(cfg, a, step), After(cfg, b, step), left, right)
    ensures RunTogether(cfg, a, b, [step] + left, [step] + right)
  {
    assert ([step] + left)[1..] == left && ([step] + right)[1..] == right;
  }

  lemma {:induction false} RunsAlike(cfg: Config, a: System, b: System, steps: seq<Step>)
    requires Shadows(a, b)
    ensures RunTogether(cfg, a, b, steps, WithoutJob(cfg, a, steps))
    decreases |steps|
  {
    if steps != [] {
      var (step, rest) := (steps[0], steps[1..]);
      assert steps == [step] + rest;
      var next := After(cfg, a, step);
      if Hidden(a, step) {
        HiddenStepShadows(cfg, a, b, step);
        RunsAlike(cfg, next, b, rest);
        JobThenTogether(cfg, a, b, step, rest, WithoutJob(cfg, next, rest));
      } else {
        VisibleStepShadows(cfg, a, b, step);
        RunsAlike(cfg, next, After(cfg, b, step), rest);
        StepThenTogether(cfg, a, b, step, rest, WithoutJob(cfg, next, rest));
      }
    }
  }

  /** What is left out: the job and the end of its COMMITs, and steps that changed nothing while its lock was held. */
  lemma WithoutJobKeepsTheRest(cfg: Config, s: System, step: Step, rest: seq<Step>)
    ensures var left := WithoutJob(cfg, s, [step] + rest);
            left == (if Hidden(s, step) then [] else [step]) + WithoutJob(cfg, After(cfg, s, step), rest)
    ensures Hidden(s, step) && !step.ExpireQuote? && !step.Resolve? ==> After(cfg, s, step) == s
  {
    assert ([step] + rest)[1..] == rest;
  }

  /** What a reader of the quote sees at instant t. */
  lemma ReadersSeeTheSame(a: System, b: System, q: QuoteId, t: nat)
    requires Shadows(a, b) && q in b.cells && t >= b.clock
    ensures q in a.cells && EffectiveExpiry(a.cells[q].quote, t) == EffectiveExpiry(b.cells[q].quote, t)
  {
    assert RowsAlike(Forgotten(a), b, q);
  }

  /**
   * Dropping the expiry job from a run, with whatever only waited for its locks, changes no effective
   * status, no `expiredAt`, no answer code, no provider call, no stored document and no worker,
   * however the job's own COMMITs end; the rows differ at most by the materialized status, one
   * version and the job's own log entries.
   */
  lemma ExpiryJobIsTransparent(cfg: Config, steps: seq<Step>, q: QuoteId, t: nat)
    ensures var (a, b) := (Run(cfg, INITIAL, steps), Run(cfg, INITIAL, WithoutJob(cfg, INITIAL, steps)));
            && Similar(Forgotten(a), b)
            && SameAnswers(Answers(cfg, INITIAL, steps), Answers(cfg, INITIAL, WithoutJob(cfg, INITIAL, steps)))
            && (q in a.cells <==> q in b.cells)
            && (q in b.cells && t >= b.clock ==> EffectiveExpiry(a.cells[q].quote, t) == EffectiveExpiry(b.cells[q].quote, t))
  {
    assert Forgotten(INITIAL) == INITIAL;
    assert Similar(INITIAL, INITIAL);
    RunsAlike(cfg, INITIAL, INITIAL, steps);
    var (a, b) := (Run(cfg, INITIAL, steps), Run(cfg, INITIAL, WithoutJob(cfg, INITIAL, steps)));
    if q in b.cells && t >= b.clock { ReadersSeeTheSame(a, b, q, t); }
  }
}
