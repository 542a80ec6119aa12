/**
 * The whole service as a state machine: the tables, issuance workers, delivery workers,
 * commands, jobs and operators, with a COMMIT whose outcome may never be learned.
 * Everything a run chooses (who moves, what the renderer and the provider do, how a COMMIT
 * ends, which candidate a SKIP LOCKED claim gets) is in its steps, so a run is a sequence of steps.
 */
module Service {
  import opened Wrappers
  import opened CommercialSnapshot
  import opened Rows
  import opened Transactions
  import Issuance
  import Deliveries
  import Commands

  /** A transaction body: on the rows of an existing quote, or creating one. */
  datatype Change =
    | Existing(tx: Tx)
    | NewDraft(creator: Principal, content: Commercial)
    | NewIssue(creator: Principal, content: Commercial, terms: Commands.IssueTerms)

  /**
   * How a COMMIT ends for its caller (postgres.ts:67-87): answered, or unanswered with the
   * transaction applied, lost, or still holding its locks until the server resolves it.
   */
  datatype Ending = Answered | UnansweredApplied | UnansweredLost | UnansweredPending

  /** A COMMIT still in doubt on the server, with the instant its transaction read. */
  datatype Doubt = Doubt(change: Change, now: nat)

  datatype Issuer =
    | IssuerIdle
    | ClaimInDoubt(asked: Option<(QuoteId, OperationId)>)
    | Holding(quote: QuoteId, attempt: Attempt)
    | Verified(quote: QuoteId, attempt: Attempt)
    | Rendered(quote: QuoteId, attempt: Attempt, pdf: Bytes)
    | Published(quote: QuoteId, attempt: Attempt, document: Document, tries: nat)
    | CommitInDoubt(quote: QuoteId, attempt: Attempt, document: Document, tries: nat)
    | IssuerSucceeded(quote: QuoteId, attempt: Attempt, document: Document)
    | IssuerStopped

  datatype Mailer =
    | MailerIdle
    | MailClaimInDoubt
    | Preparing(quote: QuoteId, fence: DeliveryFence)
    | Ready(quote: QuoteId, fence: DeliveryFence, pdf: Bytes)
    | Recording(quote: QuoteId, fence: DeliveryFence, outcome: Deliveries.Outcome)
    | CompletionInDoubt(quote: QuoteId, fence: DeliveryFence, intended: Option<CompletionKind>)
    | Finished(quote: QuoteId, fence: DeliveryFence, result: Option<CompletionKind>)
    | MailerStopped

  /** One call of the mail port, with what the provider answered for it. */
  datatype Call = Call(quote: QuoteId, fence: DeliveryFence, outcome: Deliveries.Outcome, pdf: Bytes)

  datatype System = System(
    clock: nat,
    cells: map<QuoteId, Cell>,
    doubts: map<QuoteId, Doubt>,
    issuers: map<Owner, Issuer>,
    mailers: map<Owner, Mailer>,
    artifacts: map<Digest, Bytes>,
    calls: seq<Call>)

  const INITIAL := System(0, map[], map[], map[], map[], map[], [])

  datatype Step =
    | Advance(ms: nat)
    | Serve(quote: QuoteId, change: Change, ending: Ending)
    | ExpireQuote(quote: QuoteId, ending: Ending)
    | Resolve(quote: QuoteId, lands: bool)
    | IssuerClaim(worker: Owner, quote: QuoteId, operation: OperationId, only: bool, ending: Ending)
    | IssuerAdopt(worker: Owner, found: Option<(QuoteId, OperationId)>)
    | IssuerVerify(worker: Owner)
    | IssuerRender(worker: Owner, pdf: Bytes)
    | IssuerPublish(worker: Owner)
    | IssuerRenew(worker: Owner, ending: Ending)
    | IssuerCommit(worker: Owner, ending: Ending)
    | IssuerReconcile(worker: Owner)
    | IssuerFail(worker: Owner, failure: Issuance.AttemptFailure, ending: Ending)
    | IssuerAbandon(worker: Owner)
    | IssuerStop(worker: Owner)
    | MailClaim(worker: Owner, quote: QuoteId, delivery: DeliveryId, ending: Ending)
    | MailAdopt(worker: Owner, adopted: Option<(QuoteId, DeliveryId)>)
    | MailPrepare(worker: Owner, ready: bool)
    | MailInterrupt(worker: Owner)
    | MailSend(worker: Owner, outcome: Deliveries.Outcome)
    | MailRecord(worker: Owner, ending: Ending)
    | MailReconcile(worker: Owner)
    | MailDrop(worker: Owner)
    | MailStop(worker: Owner)

  function IssuerOf(s: System, w: Owner): Issuer { if w in s.issuers then s.issuers[w] else IssuerIdle }

  function MailerOf(s: System, w: Owner): Mailer { if w in s.mailers then s.mailers[w] else MailerIdle }

  function WithIssuer(s: System, w: Owner, p: Issuer): System { s.(issuers := s.issuers[w := p]) }

  function WithMailer(s: System, w: Owner, p: Mailer): System { s.(mailers := s.mailers[w := p]) }

  // ---------- transactions ----------

  /** One transaction against the tables at instant `now`; a thrown or rejected one leaves them unchanged. */
  ghost function Transact(cfg: Config, cells: map<QuoteId, Cell>, q: QuoteId, change: Change, now: nat): (map<QuoteId, Cell>, Reply) {
    match change
    case Existing(tx) =>
      if q !in cells then (cells, Rejected(QuoteNotFound))
      else var (c, reply) := Apply(cfg, cells[q], tx, now); (cells[q := c], reply)
    case NewDraft(creator, content) =>
      if q in cells then (cells, UniqueViolation)
      else Insert(cells, q, Commands.CreateDraft(q, creator, content))
    case NewIssue(creator, content, terms) =>
      if q in cells then (cells, UniqueViolation)
      else Insert(cells, q, Commands.CreateAndIssue(cfg, q, creator, content, terms))
  }

  function Insert(cells: map<QuoteId, Cell>, q: QuoteId, created: Result<Cell, Reply>): (map<QuoteId, Cell>, Reply) {
    match created
    case Success(c) => (cells[q := c], Accepted(c.quote.version))
    case Failure(reply) => (cells, reply)
  }

  datatype Submission = Submission(quote: QuoteId, change: Change, ending: Ending)

  ghost function Commit(cfg: Config, s: System, x: Submission): (System, Reply) {
    var (cells, reply) := Transact(cfg, s.cells, x.quote, x.change, s.clock);
    (match x.ending
     case Answered => s.(cells := cells)
     case UnansweredApplied => s.(cells := cells)
     case UnansweredLost => s
     case UnansweredPending => s.(doubts := s.doubts[x.quote := Doubt(x.change, s.clock)]),
     reply)
  }

  // ---------- steps ----------

  /** Within an attempt: it may renew its lease, fail or be dropped, also when reading back a commit throws. */
  predicate Attempting(p: Issuer) { p.Holding? || p.Verified? || p.Rendered? || p.Published? || p.CommitInDoubt? }

  predicate IssuerFree(p: Issuer) { p.IssuerIdle? || p.IssuerSucceeded? }

  /** A completion, or a read after an unanswered claim or completion, may throw; the tick ends there. */
  predicate MayDrop(p: Mailer) { p.Recording? || p.MailClaimInDoubt? || p.CompletionInDoubt? }

  predicate MailerFree(p: Mailer) { p.MailerIdle? || p.Finished? }

  /** What a command, a job or an operator may submit; worker transactions carry a worker's own fence. */
  predicate Public(change: Change) {
    change.Existing? ==>
      || change.tx.FailDeadline? || change.tx.OperatorRetry? || change.tx.RequestDelivery? || change.tx.SweepDelivery?
      || change.tx.UpdateDraft? || change.tx.IssueDraft? || change.tx.CancelQuote? || change.tx.AnswerFromBinding?
  }

  predicate LeasedTo(c: Cell, d: DeliveryId, w: Owner) {
    d in c.deliveries && c.deliveries[d].status == Sending && c.deliveries[d].leaseOwner == Some(w)
  }

  predicate RunningUnder(c: Cell, op: OperationId, w: Owner) {
    op in c.operations && c.operations[op].status == Running && c.operations[op].leaseOwner == Some(w)
  }

  /** A claim of the inline path asks for one operation only. */
  predicate Sought(asked: Option<(QuoteId, OperationId)>, c: Cell, q: QuoteId, op: OperationId, w: Owner) {
    (asked.None? || asked.value == (q, op)) && RunningUnder(c, op, w)
  }

  /** The row an unanswered issuance claim adopts: leased to the caller and asked for, the latest attempt first. */
  ghost predicate AdoptableOperation(s: System, w: Owner, asked: Option<(QuoteId, OperationId)>, found: Option<(QuoteId, OperationId)>) {
    if found.None? then forall q <- s.cells, op <- s.cells[q].operations :: !Sought(asked, s.cells[q], q, op, w)
    else
      var (q, op) := found.value;
      && q in s.cells && Sought(asked, s.cells[q], q, op, w)
      && forall q2 <- s.cells, op2 <- s.cells[q2].operations | Sought(asked, s.cells[q2], q2, op2, w) ::
           Later(s.cells[q].operations[op].lastAttemptAt, s.cells[q2].operations[op2].lastAttemptAt)
  }

  ghost predicate AdoptableDelivery(s: System, w: Owner, adopted: Option<(QuoteId, DeliveryId)>) {
    if adopted.None? then forall q <- s.cells, d <- s.cells[q].deliveries :: !LeasedTo(s.cells[q], d, w)
    else
      var (q, d) := adopted.value;
      && q in s.cells && LeasedTo(s.cells[q], d, w)
      && forall q2 <- s.cells, d2 <- s.cells[q2].deliveries | LeasedTo(s.cells[q2], d2, w) ::
           Later(s.cells[q].deliveries[d].lastAttemptAt, s.cells[q2].deliveries[d2].lastAttemptAt)
  }

  predicate Later(a: Option<nat>, b: Option<nat>) { b.None? || (a.Some? && b.value <= a.value) }

  /** The transaction a step submits, if it submits one. */
  function Submits(s: System, step: Step): Option<Submission> {
    match step
    case Serve(q, change, ending) => if Public(change) then Some(Submission(q, change, ending)) else None
    case ExpireQuote(q, ending) => Some(Submission(q, Existing(MaterializeExpiry), ending))
    case IssuerClaim(w, q, op, _, ending) =>
      if IssuerFree(IssuerOf(s, w)) then Some(Submission(q, Existing(ClaimOperation(op, w)), ending)) else None
    case IssuerRenew(w, ending) =>
      var p := IssuerOf(s, w);
      if Attempting(p) then Some(Submission(p.quote, Existing(RenewLease(p.attempt.fence)), ending)) else None
    case IssuerCommit(w, ending) =>
      var p := IssuerOf(s, w);
      if p.Published? then Some(Submission(p.quote, Existing(CommitIssued(p.attempt.fence, p.document)), ending)) else None
    case IssuerFail(w, failure, ending) =>
      var p := IssuerOf(s, w);
      if Attempting(p) then Some(Submission(p.quote, Existing(FailAttempt(p.attempt.fence, failure)), ending)) else None
    case MailClaim(w, q, d, ending) =>
      if MailerFree(MailerOf(s, w)) then Some(Submission(q, Existing(ClaimDelivery(d, w)), ending)) else None
    case MailRecord(w, ending) =>
      var p := MailerOf(s, w);
      if p.Recording? then Some(Submission(p.quote, Existing(CompleteDelivery(p.fence, p.outcome)), ending)) else None
    case _ => None
  }

  function Asked(q: QuoteId, op: OperationId, only: bool): Option<(QuoteId, OperationId)> { if only then Some((q, op)) else None }

  /** Where an issuing worker stands after its claim, its fenced commit or the end of its attempt. */
  function ClaimHeard(q: QuoteId, asked: Option<(QuoteId, OperationId)>, answered: bool, reply: Reply): Issuer {
    if !answered then ClaimInDoubt(asked) else if reply.Claimed? then Holding(q, reply.attempt) else IssuerIdle
  }

  function CommitHeard(p: Issuer, answered: bool, reply: Reply): Issuer {
    if !p.Published? then p
    else if !answered then CommitInDoubt(p.quote, p.attempt, p.document, p.tries)
    else if reply.Committed? then IssuerSucceeded(p.quote, p.attempt, p.document)
    else IssuerIdle
  }

  /** Where a delivery worker stands after its claim or its completion. */
  function MailClaimHeard(q: QuoteId, answered: bool, reply: Reply): Mailer {
    if !answered then MailClaimInDoubt else if reply.DeliveryClaimed? then Preparing(q, reply.fence) else MailerIdle
  }

  function RecordHeard(p: Mailer, answered: bool, reply: Reply): Mailer {
    if !p.Recording? then p
    else
      var kind := if reply.Completed? then Some(reply.kind) else None;
      if answered then Finished(p.quote, p.fence, kind) else CompletionInDoubt(p.quote, p.fence, kind)
  }

  /** How the submitting process moves on the answer. */
  function Observe(s: System, step: Step, x: Submission, reply: Reply): System {
    var answered := x.ending.Answered?;
    match step
    case IssuerClaim(w, q, op, only, _) => WithIssuer(s, w, ClaimHeard(q, Asked(q, op, only), answered, reply))
    case IssuerCommit(w, _) => WithIssuer(s, w, CommitHeard(IssuerOf(s, w), answered, reply))
    case IssuerFail(w, _, _) => WithIssuer(s, w, IssuerIdle)
    case MailClaim(w, q, _, _) => WithMailer(s, w, MailClaimHeard(q, answered, reply))
    case MailRecord(w, _) => WithMailer(s, w, RecordHeard(MailerOf(s, w), answered, reply))
    case _ => s
  }

  /** commitIssued after an unanswered COMMIT: durable, provably ours and untouched (one more try), or abandoned. */
  function Reconciled(s: System, p: Issuer): Issuer
    requires p.CommitInDoubt?
  {
    if p.quote !in s.cells then IssuerIdle
    else
      var c, f := s.cells[p.quote], p.attempt.fence;
      if f.operation in c.operations && c.operations[f.operation].status == Succeeded
         && c.operations[f.operation].generation == f.generation
         && c.manifest.Some? && c.manifest.value.operation == f.operation
      then IssuerSucceeded(p.quote, p.attempt, p.document)
      else if Issuance.FenceHolds(c, f) && c.manifest.None? && p.tries == 0
      then Published(p.quote, p.attempt, p.document, 1)
      else IssuerIdle
  }

  /** The committed bytes an email may carry: the manifest's, pinned by the delivery, verified again. */
  function VerifiedBytes(cfg: Config, s: System, q: QuoteId, d: DeliveryId): Option<Bytes> {
    if q !in s.cells || d !in s.cells[q].deliveries || s.cells[q].manifest.None? then None
    else
      var pinned := s.cells[q].deliveries[d].documentSha256;
      var document := s.cells[q].manifest.value.document;
      if document.pdfSha256 != pinned || pinned !in s.artifacts then None
      else
        var bytes := s.artifacts[pinned];
        if |bytes| == document.byteLength && cfg.sha256(bytes) == pinned then Some(bytes) else None
  }

  const PREPARATION_FAILED := Deliveries.NotAccepted(true, 0)

  /** Steps of an issuance worker that submit nothing. */
  ghost function IssuerLocal(cfg: Config, s: System, step: Step): System {
    match step
    case IssuerAdopt(w, found) =>
      if !IssuerOf(s, w).ClaimInDoubt? || !AdoptableOperation(s, w, IssuerOf(s, w).asked, found) then s
      else if found.None? then WithIssuer(s, w, IssuerIdle)
      else
        var (q, op) := found.value;
        var o := s.cells[q].operations[op];
        WithIssuer(s, w, Holding(q, Attempt(OperationFence(op, o.generation, w), o.snapshotHash, false)))
    case IssuerVerify(w) =>
      var p := IssuerOf(s, w);
      if !p.Holding? || p.quote !in s.cells || SnapshotOf(s.cells[p.quote].quote).None?
         || cfg.snapshotHash(SnapshotOf(s.cells[p.quote].quote).value) != p.attempt.snapshotHash then s
      else WithIssuer(s, w, Verified(p.quote, p.attempt))
    case IssuerRender(w, pdf) =>
      var p := IssuerOf(s, w);
      if !p.Verified? then s else WithIssuer(s, w, Rendered(p.quote, p.attempt, pdf))
    case IssuerPublish(w) =>
      var p := IssuerOf(s, w);
      if !p.Rendered? then s
      else
        var key := cfg.sha256(p.pdf);
        var document := Document(p.attempt.snapshotHash, key, |p.pdf|);
        if key in s.artifacts && (|s.artifacts[key]| != |p.pdf| || cfg.sha256(s.artifacts[key]) != key) then s
        else
          WithIssuer(if key in s.artifacts then s else s.(artifacts := s.artifacts[key := p.pdf]), w,
                     Published(p.quote, p.attempt, document, 0))
    case IssuerReconcile(w) =>
      var p := IssuerOf(s, w);
      if !p.CommitInDoubt? then s else WithIssuer(s, w, Reconciled(s, p))
    case IssuerAbandon(w) =>
      if Attempting(IssuerOf(s, w)) || IssuerOf(s, w).ClaimInDoubt? then WithIssuer(s, w, IssuerIdle) else s
    case IssuerStop(w) => WithIssuer(s, w, IssuerStopped)
    case _ => s
  }

  /** Steps of a delivery worker that submit nothing. */
  ghost function MailLocal(cfg: Config, s: System, step: Step): System {
    match step
    case MailAdopt(w, adopted) =>
      if !MailerOf(s, w).MailClaimInDoubt? || !AdoptableDelivery(s, w, adopted) then s
      else if adopted.None? then WithMailer(s, w, MailerIdle)
      else
        var (q, d) := adopted.value;
        WithMailer(s, w, Preparing(q, DeliveryFence(d, s.cells[q].deliveries[d].generation, w)))
    case MailPrepare(w, ready) =>
      var p := MailerOf(s, w);
      if !p.Preparing? then s
      else
        var bytes := VerifiedBytes(cfg, s, p.quote, p.fence.delivery);
        WithMailer(s, w, if ready && bytes.Some? then Ready(p.quote, p.fence, bytes.value)
                         else Recording(p.quote, p.fence, PREPARATION_FAILED))
    case MailInterrupt(w) =>
      var p := MailerOf(s, w);
      if p.Ready? then WithMailer(s, w, Recording(p.quote, p.fence, PREPARATION_FAILED)) else s
    case MailSend(w, outcome) =>
      var p := MailerOf(s, w);
      if !p.Ready? then s
      else WithMailer(s.(calls := s.calls + [Call(p.quote, p.fence, outcome, p.pdf)]), w, Recording(p.quote, p.fence, outcome))
    case MailReconcile(w) =>
      var p := MailerOf(s, w);
      if !p.CompletionInDoubt? then s
      else
        WithMailer(s, w, Finished(p.quote, p.fence,
          if p.quote in s.cells then Deliveries.ReconcileCompletion(s.cells[p.quote], p.fence, p.intended) else None))
    case MailDrop(w) =>
      if MayDrop(MailerOf(s, w)) then WithMailer(s, w, MailerIdle) else s
    case MailStop(w) => WithMailer(s, w, MailerStopped)
    case _ => s
  }

  predicate OfMailer(step: Step) {
    || step.MailClaim? || step.MailAdopt? || step.MailPrepare? || step.MailInterrupt? || step.MailSend?
    || step.MailRecord? || step.MailReconcile? || step.MailDrop? || step.MailStop?
  }

  /** Steps that submit nothing. */
  ghost function Local(cfg: Config, s: System, step: Step): System {
    match step
    case Advance(ms) => s.(clock := s.clock + ms)
    case Resolve(q, lands) =>
      if q !in s.doubts then s
      else
        var left := s.(doubts := s.doubts - {q});
        if lands then left.(cells := Transact(cfg, s.cells, q, s.doubts[q].change, s.doubts[q].now).0) else left
    case _ => if OfMailer(step) then MailLocal(cfg, s, step) else IssuerLocal(cfg, s, step)
  }

  /** A disabled step changes nothing; a quote with a COMMIT in doubt is locked and every other transaction on it waits. */
  ghost function After(cfg: Config, s: System, step: Step): System {
    var x := Submits(s, step);
    if x.None? then Local(cfg, s, step)
    else if x.value.quote in s.doubts then s
    else
      var (committed, reply) := Commit(cfg, s, x.value);
      Observe(committed, step, x.value, reply)
  }

  ghost function Run(cfg: Config, s: System, steps: seq<Step>): System
    decreases |steps|
  {
    if steps == [] then s else Run(cfg, After(cfg, s, steps[0]), steps[1..])
  }
}
