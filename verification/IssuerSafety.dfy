/** What issuance workers can rely on, and what their answers mean, over every run of the service. */
module IssuerSafety {
  import opened Wrappers
  import opened Rows
  import opened Transactions
  import opened Service
  import opened ServiceSafety
  import Issuance
  import Commands
  import CellInvariants
  import Guarantees

  // ---------- attempts carry the hash of the frozen rows ----------

  ghost predicate HasHash(s: System, q: QuoteId, op: OperationId, hash: Digest) {
    q in s.cells && op in s.cells[q].operations && s.cells[q].operations[op].snapshotHash == hash
  }

  predicate HasAttempt(p: Issuer) { !p.IssuerIdle? && !p.ClaimInDoubt? && !p.IssuerStopped? }

  ghost predicate AttemptOk(s: System, p: Issuer) {
    && (HasAttempt(p) ==> HasHash(s, p.quote, p.attempt.fence.operation, p.attempt.snapshotHash))
    && (Names(p) ==> p.document.snapshotHash == p.attempt.snapshotHash)
  }

  ghost predicate AttemptsOk(s: System) { forall w :: AttemptOk(s, IssuerOf(s, w)) }

  lemma HashesStay(cfg: Config, c: Cell, tx: Tx, now: nat, op: OperationId)
    requires op in c.operations
    ensures var after := Apply(cfg, c, tx, now).0;
            op in after.operations && after.operations[op].snapshotHash == c.operations[op].snapshotHash
  {
    if tx.IssueDraft? { IssueLeavesOthers(cfg, c, tx.principal, tx.expectedVersion, tx.terms, op); }
    else if !CellInvariants.WritesOperations(tx) { CellInvariants.LeavesManifest(cfg, c, tx, now); }
  }

  lemma IssueLeavesOthers(cfg: Config, c: Cell, principal: Principal, version: nat, terms: Commands.IssueTerms, op: OperationId)
    requires op in c.operations
    ensures var after := Commands.IssueDraft(cfg, c, principal, version, terms).0;
            op in after.operations && after.operations[op] == c.operations[op]
  {
  }

  lemma TransactionKeepsHash(cfg: Config, s: System, q: QuoteId, change: Change, now: nat, r: QuoteId, op: OperationId, hash: Digest)
    requires HasHash(s, r, op, hash)
    ensures HasHash(s.(cells := Transact(cfg, s.cells, q, change, now).0), r, op, hash)
  {
    if r == q && change.Existing? { HashesStay(cfg, s.cells[q], change.tx, now, op); }
  }

  /** The tables keep every hash, and the workers are where they were. */
  ghost predicate KeepsHashes(s: System, after: System) {
    && after.issuers == s.issuers
    && forall q, op, hash :: HasHash(s, q, op, hash) ==> HasHash(after, q, op, hash)
  }

  lemma AttemptsCarry(s: System, after: System)
    requires AttemptsOk(s) && KeepsHashes(s, after)
    ensures AttemptsOk(after)
  {
    forall w ensures AttemptOk(after, IssuerOf(after, w)) { assert AttemptOk(s, IssuerOf(s, w)); }
  }

  lemma TransactionKeepsHashes(cfg: Config, s: System, q: QuoteId, change: Change, now: nat)
    ensures KeepsHashes(s, s.(cells := Transact(cfg, s.cells, q, change, now).0))
  {
    forall r, op, hash | HasHash(s, r, op, hash)
      ensures HasHash(s.(cells := Transact(cfg, s.cells, q, change, now).0), r, op, hash)
    {
      TransactionKeepsHash(cfg, s, q, change, now, r, op, hash);
    }
  }

  lemma CommitKeepsHashes(cfg: Config, s: System, x: Submission)
    ensures KeepsHashes(s, Commit(cfg, s, x).0)
  {
    match x.ending
    case UnansweredLost =>
    case UnansweredPending =>
    case _ => TransactionKeepsHashes(cfg, s, x.quote, x.change, s.clock);
  }

  lemma MoveIssuer(s: System, w: Owner, p: Issuer)
    requires AttemptsOk(s) && AttemptOk(s, p)
    ensures AttemptsOk(WithIssuer(s, w, p))
  {
    var after := WithIssuer(s, w, p);
    forall x ensures AttemptOk(after, IssuerOf(after, x)) { assert AttemptOk(s, IssuerOf(s, x)); }
  }

  /** A claim hands out the hash of the row it claimed. */
  lemma ClaimedHashIsRowHash(cfg: Config, s: System, w: Owner, q: QuoteId, op: OperationId, asked: Option<(QuoteId, OperationId)>, ending: Ending)
    ensures var (committed, reply) := Commit(cfg, s, Submission(q, Existing(ClaimOperation(op, w)), ending));
            AttemptOk(committed, ClaimHeard(q, asked, ending.Answered?, reply))
  {
  }

  lemma HeardKeepsAttempts(s: System, step: Step, x: Submission, reply: Reply)
    requires AttemptsOk(s)
    requires step.IssuerClaim? ==> AttemptOk(s, ClaimHeard(step.quote, Asked(step.quote, step.operation, step.only), x.ending.Answered?, reply))
    ensures AttemptsOk(Observe(s, step, x, reply))
  {
    match step
    case IssuerClaim(w, q, op, only, _) => MoveIssuer(s, w, ClaimHeard(q, Asked(q, op, only), x.ending.Answered?, reply));
    case IssuerCommit(w, _) =>
      assert AttemptOk(s, IssuerOf(s, w));
      MoveIssuer(s, w, CommitHeard(IssuerOf(s, w), x.ending.Answered?, reply));
    case IssuerFail(w, _, _) => MoveIssuer(s, w, IssuerIdle);
    case _ => assert KeepsHashes(s, Observe(s, step, x, reply)); AttemptsCarry(s, Observe(s, step, x, reply));
  }

  lemma SubmissionKeepsAttempts(cfg: Config, s: System, step: Step)
    requires AttemptsOk(s) && Submits(s, step).Some?
    ensures AttemptsOk(After(cfg, s, step))
  {
    var x := Submits(s, step).value;
    if x.quote !in s.doubts {
      CommitKeepsHashes(cfg, s, x);
      AttemptsCarry(s, Commit(cfg, s, x).0);
      if step.IssuerClaim? { ClaimedHashIsRowHash(cfg, s, step.worker, step.quote, step.operation, Asked(step.quote, step.operation, step.only), step.ending); }
      HeardKeepsAttempts(Commit(cfg, s, x).0, step, x, Commit(cfg, s, x).1);
    }
  }

  lemma PublishKeepsAttempts(cfg: Config, s: System, w: Owner)
    requires AttemptsOk(s)
    ensures AttemptsOk(IssuerLocal(cfg, s, IssuerPublish(w)))
  {
    var p := IssuerOf(s, w);
    var after := IssuerLocal(cfg, s, IssuerPublish(w));
    assert AttemptOk(s, p);
    if after != s {
      var key := cfg.sha256(p.pdf);
      var stored := if key in s.artifacts then s else s.(artifacts := s.artifacts[key := p.pdf]);
      assert KeepsHashes(s, stored);
      AttemptsCarry(s, stored);
      MoveIssuer(stored, w, Published(p.quote, p.attempt, Document(p.attempt.snapshotHash, key, |p.pdf|), 0));
    }
  }

  lemma AdoptKeepsAttempts(cfg: Config, s: System, w: Owner, found: Option<(QuoteId, OperationId)>)
    requires AttemptsOk(s)
    ensures AttemptsOk(IssuerLocal(cfg, s, IssuerAdopt(w, found)))
  {
    var after := IssuerLocal(cfg, s, IssuerAdopt(w, found));
    if after != s { MoveIssuer(s, w, IssuerOf(after, w)); }
  }

  lemma ReconcileKeepsAttempts(cfg: Config, s: System, w: Owner)
    requires AttemptsOk(s)
    ensures AttemptsOk(IssuerLocal(cfg, s, IssuerReconcile(w)))
  {
    assert AttemptOk(s, IssuerOf(s, w));
    if IssuerOf(s, w).CommitInDoubt? { MoveIssuer(s, w, Reconciled(s, IssuerOf(s, w))); }
  }

  /** Every other local step moves one worker on under the attempt it has, or out of it. */
  lemma IssuerStepKeepsAttempts(cfg: Config, s: System, step: Step)
    requires AttemptsOk(s)
    requires step.IssuerVerify? || step.IssuerRender? || step.IssuerAbandon? || step.IssuerStop?
    ensures AttemptsOk(IssuerLocal(cfg, s, step))
  {
    var after := IssuerLocal(cfg, s, step);
    assert AttemptOk(s, IssuerOf(s, step.worker));
    if after != s {
      assert after == WithIssuer(s, step.worker, IssuerOf(after, step.worker));
      MoveIssuer(s, step.worker, IssuerOf(after, step.worker));
    }
  }

  lemma LocalKeepsAttempts(cfg: Config, s: System, step: Step)
    requires AttemptsOk(s)
    ensures AttemptsOk(Local(cfg, s, step))
  {
    if step.Resolve? {
      if step.quote in s.doubts {
        TransactionKeepsHashes(cfg, s, step.quote, s.doubts[step.quote].change, s.doubts[step.quote].now);
        AttemptsCarry(s, Local(cfg, s, step));
      }
    } else if step.IssuerPublish? {
      PublishKeepsAttempts(cfg, s, step.worker);
    } else if OfMailer(step) {
      MailLocalIsLocal(cfg, s, step);
      AttemptsCarry(s, MailLocal(cfg, s, step));
    } else if step.Advance? {
      AttemptsCarry(s, Local(cfg, s, step));
    } else if step.IssuerAdopt? {
      AdoptKeepsAttempts(cfg, s, step.worker, step.found);
    } else if step.IssuerReconcile? {
      ReconcileKeepsAttempts(cfg, s, step.worker);
    } else if step.IssuerVerify? || step.IssuerRender? || step.IssuerAbandon? || step.IssuerStop? {
      IssuerStepKeepsAttempts(cfg, s, step);
    } else {
      assert IssuerLocal(cfg, s, step) == s;
    }
  }

  lemma {:induction false} RunKeepsAttempts(cfg: Config, s: System, steps: seq<Step>)
    requires AttemptsOk(s)
    ensures AttemptsOk(Run(cfg, s, steps))
    decreases |steps|
  {
    if steps != [] {
      if Submits(s, steps[0]).Some? { SubmissionKeepsAttempts(cfg, s, steps[0]); } else { LocalKeepsAttempts(cfg, s, steps[0]); }
      RunKeepsAttempts(cfg, After(cfg, s, steps[0]), steps[1..]);
    }
  }

  /**
   * In every run the snapshot a worker loads hashes to what its attempt was accepted with, whatever
   * retries, cancels and zombies did in between; and its commit is answered COMMITTED or STALE_FENCE,
   * never with a differing snapshot and never by a second manifest.
   */
  lemma IntegrityErrorsAreDead(cfg: Config, steps: seq<Step>, w: Owner)
    ensures var s := Run(cfg, INITIAL, steps);
            var p := IssuerOf(s, w);
            && (HasAttempt(p) ==>
                  && p.quote in s.cells && SnapshotOf(s.cells[p.quote].quote).Some?
                  && cfg.snapshotHash(SnapshotOf(s.cells[p.quote].quote).value) == p.attempt.snapshotHash)
            && (p.Published? ==>
                  var reply := Issuance.CommitIssued(s.cells[p.quote], p.attempt.fence, p.document, s.clock).1;
                  reply.Committed? || reply.StaleFence?)
  {
    var s := Run(cfg, INITIAL, steps);
    RunKeepsAttempts(cfg, INITIAL, steps);
    RunKeepsInv(cfg, INITIAL, steps);
    assert AttemptOk(s, IssuerOf(s, w));
    AttemptMatchesRows(cfg, s, IssuerOf(s, w));
    if IssuerOf(s, w).Published? { PublishedIsCommittedOrStale(cfg, s, IssuerOf(s, w)); }
  }

  lemma PublishedIsCommittedOrStale(cfg: Config, s: System, p: Issuer)
    requires TablesOk(cfg, s) && AttemptOk(s, p) && p.Published?
    requires p.quote in s.cells && SnapshotOf(s.cells[p.quote].quote).Some?
    ensures var reply := Issuance.CommitIssued(s.cells[p.quote], p.attempt.fence, p.document, s.clock).1;
            reply.Committed? || reply.StaleFence?
  {
    assert CellOk(cfg, p.quote, s.cells[p.quote]);
    Guarantees.CommitsFindNoManifest(cfg, s.cells[p.quote], p.attempt.fence, p.document, s.clock);
  }

  lemma AttemptMatchesRows(cfg: Config, s: System, p: Issuer)
    requires TablesOk(cfg, s) && AttemptOk(s, p)
    ensures HasAttempt(p) ==>
              && p.quote in s.cells && SnapshotOf(s.cells[p.quote].quote).Some?
              && cfg.snapshotHash(SnapshotOf(s.cells[p.quote].quote).value) == p.attempt.snapshotHash
  {
    if HasAttempt(p) { assert CellOk(cfg, p.quote, s.cells[p.quote]); }
  }

  // ---------- what an answer means ----------

  lemma IssuedByStays(cfg: Config, s: System, q: QuoteId, change: Change, now: nat, r: QuoteId, op: OperationId)
    requires TablesOk(cfg, s) && IssuedBy(s, r, op)
    ensures IssuedBy(s.(cells := Transact(cfg, s.cells, q, change, now).0), r, op)
  {
    ManifestMoves(cfg, s.cells, q, change, now, r);
  }

  lemma CommitKeepsIssued(cfg: Config, s: System, x: Submission, q: QuoteId, op: OperationId)
    requires TablesOk(cfg, s) && IssuedBy(s, q, op)
    ensures IssuedBy(Commit(cfg, s, x).0, q, op)
  {
    match x.ending
    case UnansweredLost =>
    case UnansweredPending =>
    case _ => IssuedByStays(cfg, s, x.quote, x.change, s.clock, q, op);
  }

  lemma ResolveKeepsIssued(cfg: Config, s: System, r: QuoteId, lands: bool, q: QuoteId, op: OperationId)
    requires TablesOk(cfg, s) && IssuedBy(s, q, op)
    ensures IssuedBy(Local(cfg, s, Resolve(r, lands)), q, op)
  {
    if r in s.doubts { IssuedByStays(cfg, s, r, s.doubts[r].change, s.doubts[r].now, q, op); }
  }

  lemma HearingKeepsIssued(s: System, step: Step, x: Submission, reply: Reply, q: QuoteId, op: OperationId)
    requires IssuedBy(s, q, op)
    ensures IssuedBy(Observe(s, step, x, reply), q, op)
  {
    ObserveLeavesTables(s, step, x, reply);
  }

  lemma SubmissionKeepsIssued(cfg: Config, s: System, step: Step, q: QuoteId, op: OperationId)
    requires TablesOk(cfg, s) && IssuedBy(s, q, op) && Submits(s, step).Some?
    ensures IssuedBy(After(cfg, s, step), q, op)
  {
    var x := Submits(s, step).value;
    if x.quote !in s.doubts {
      CommitKeepsIssued(cfg, s, x, q, op);
      HearingKeepsIssued(Commit(cfg, s, x).0, step, x, Commit(cfg, s, x).1, q, op);
    }
  }

  lemma LocalKeepsIssued(cfg: Config, s: System, step: Step, q: QuoteId, op: OperationId)
    requires IssuedBy(s, q, op) && !step.Resolve?
    ensures IssuedBy(Local(cfg, s, step), q, op)
  {
    LocalLeavesTables(cfg, s, step);
  }

  lemma StepKeepsIssued(cfg: Config, s: System, step: Step, q: QuoteId, op: OperationId)
    requires TablesOk(cfg, s) && IssuedBy(s, q, op)
    ensures IssuedBy(After(cfg, s, step), q, op)
  {
    if Submits(s, step).Some? { SubmissionKeepsIssued(cfg, s, step, q, op); }
    else if step.Resolve? { ResolveKeepsIssued(cfg, s, step.quote, step.lands, q, op); }
    else { LocalKeepsIssued(cfg, s, step, q, op); }
  }

  lemma {:induction false} RunKeepsIssued(cfg: Config, s: System, steps: seq<Step>, q: QuoteId, op: OperationId)
    requires SystemInv(cfg, s) && IssuedBy(s, q, op)
    ensures IssuedBy(Run(cfg, s, steps), q, op)
    decreases |steps|
  {
    if steps != [] {
      StepKeepsIssued(cfg, s, steps[0], q, op);
      StepKeepsInv(cfg, s, steps[0]);
      RunKeepsIssued(cfg, After(cfg, s, steps[0]), steps[1..], q, op);
    }
  }

  /** COMMITTED, heard or concluded from the two-try reconciliation, is durable: the manifest stays that operation's. */
  lemma CommittedIsDurable(cfg: Config, before: seq<Step>, later: seq<Step>, w: Owner)
    ensures var s := Run(cfg, INITIAL, before);
            IssuerOf(s, w).IssuerSucceeded? ==>
              IssuedBy(Run(cfg, s, later), IssuerOf(s, w).quote, IssuerOf(s, w).attempt.fence.operation)
  {
    var s := Run(cfg, INITIAL, before);
    RunKeepsInv(cfg, INITIAL, before);
    if IssuerOf(s, w).IssuerSucceeded? {
      assert w in s.issuers;
      RunKeepsIssued(cfg, s, later, IssuerOf(s, w).quote, IssuerOf(s, w).attempt.fence.operation);
    }
  }

  /**
   * Exactly one issuance, in every state of every run: the operation facts of one quote, and its
   * committed bytes at their content address with the recorded hash and length.
   */
  lemma IssuedQuotesHaveTheirBytes(cfg: Config, steps: seq<Step>, q: QuoteId, x: OperationId, y: OperationId)
    ensures var s := Run(cfg, INITIAL, steps);
            q in s.cells && x in s.cells[q].operations && y in s.cells[q].operations ==>
            var c := s.cells[q];
            && (c.quote.status in {Issued, Expired} ==> c.manifest.Some?)
            && (c.manifest.Some? ==> HasBytes(cfg, s, c.manifest.value.document))
            && (c.operations[x].status == Succeeded <==> c.manifest.Some? && c.manifest.value.operation == x)
            && (c.operations[x].status == Succeeded ==> c.quote.currentOperation == Some(x))
            && (CellInvariants.Active(c.operations[x]) ==> c.quote.status == Issuing && c.quote.currentOperation == Some(x))
            && (CellInvariants.Active(c.operations[x]) && CellInvariants.Active(c.operations[y]) ==> x == y)
  {
    RunKeepsInv(cfg, INITIAL, steps);
    var s := Run(cfg, INITIAL, steps);
    if q in s.cells && x in s.cells[q].operations && y in s.cells[q].operations {
      assert CellOk(cfg, q, s.cells[q]);
      Guarantees.ExactlyOneIssuance(cfg, s.cells[q], x, y);
    }
  }

  /** While a fence holds, nothing was committed and its operation is the current one. */
  lemma NothingCommittedYet(cfg: Config, s: System, q: QuoteId, f: OperationFence)
    requires TablesOk(cfg, s) && q in s.cells && Issuance.FenceHolds(s.cells[q], f)
    ensures s.cells[q].manifest.None? && Issuance.IsCurrent(s.cells[q], f.operation)
  {
    assert CellOk(cfg, q, s.cells[q]) && CellInvariants.Active(s.cells[q].operations[f.operation]);
  }
}
