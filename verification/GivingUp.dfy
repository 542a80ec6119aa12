/**
 * What STALE_FENCE and NOT_APPLIED are worth. A worker that gave up its commit may still see it land:
 * exactly if it had landed when the answer was concluded, or was still in doubt under a valid fence.
 * And as long as its fence is valid, the same process may take the row up again and commit after all.
 */
module GivingUp {
  import opened Wrappers
  import opened Rows
  import opened Transactions
  import opened Service
  import opened ServiceSafety
  import opened IssuerSafety
  import Issuance
  import Commands
  import CellInvariants
  import Guarantees

  // ---------- what was committed under a fence ----------

  predicate SucceededUnder(c: Cell, f: OperationFence) {
    f.operation in c.operations && c.operations[f.operation].status == Succeeded && c.operations[f.operation].generation == f.generation
  }

  /** The manifest is this operation's, and was committed by the attempt that held this fence. */
  ghost predicate IssuedUnder(s: System, q: QuoteId, f: OperationFence) {
    IssuedBy(s, q, f.operation) && SucceededUnder(s.cells[q], f)
  }

  lemma SucceededIsIssued(cfg: Config, s: System, q: QuoteId, f: OperationFence)
    requires TablesOk(cfg, s) && q in s.cells
    ensures IssuedUnder(s, q, f) <==> SucceededUnder(s.cells[q], f)
  {
    assert CellOk(cfg, q, s.cells[q]);
    if f.operation in s.cells[q].operations { Guarantees.ExactlyOneIssuance(cfg, s.cells[q], f.operation, f.operation); }
  }

  /** A commit that would apply to these rows under this fence. */
  predicate Lands(c: Cell, tx: Tx, f: OperationFence) {
    && tx.CommitIssued? && tx.fence == f && Issuance.FenceHolds(c, f)
    && tx.document.snapshotHash == c.operations[f.operation].snapshotHash
  }

  /** The commit of this fence is in doubt and would apply if the server still resolves it in its favour. */
  predicate CommitPending(s: System, q: QuoteId, f: OperationFence) {
    q in s.cells && q in s.doubts && s.doubts[q].change.Existing? && Lands(s.cells[q], s.doubts[q].change.tx, f)
  }

  // ---------- who holds a fence ----------

  /** The fence was handed out for this row, and nobody else holds its generation. */
  predicate HandedOut(c: Cell, f: OperationFence) {
    && f.operation in c.operations
    && var o := c.operations[f.operation];
      && f.generation <= o.generation
      && (o.generation == f.generation && o.status == Running ==> o.leaseOwner == Some(f.owner))
  }

  predicate Carries(p: Issuer, q: QuoteId, f: OperationFence) { HasAttempt(p) && p.quote == q && p.attempt.fence == f }

  /** A worker acts only under fences handed out to it. */
  ghost predicate Owned(s: System, w: Owner, p: Issuer) {
    HasAttempt(p) ==> p.attempt.fence.owner == w && p.quote in s.cells && HandedOut(s.cells[p.quote], p.attempt.fence)
  }

  ghost predicate AllOwned(s: System) { forall w :: Owned(s, w, IssuerOf(s, w)) }

  lemma RowStaysHandedOut(cfg: Config, c: Cell, tx: Tx, now: nat, f: OperationFence)
    requires HandedOut(c, f)
    ensures HandedOut(Apply(cfg, c, tx, now).0, f)
  {
    if tx.IssueDraft? { IssueLeavesOthers(cfg, c, tx.principal, tx.expectedVersion, tx.terms, f.operation); }
    else if !CellInvariants.WritesOperations(tx) { CellInvariants.LeavesOperationRows(cfg, c, tx, now); }
  }

  lemma TransactStaysHandedOut(cfg: Config, cells: map<QuoteId, Cell>, x: QuoteId, change: Change, now: nat, q: QuoteId, f: OperationFence)
    requires q in cells && HandedOut(cells[q], f)
    ensures var after := Transact(cfg, cells, x, change, now).0; q in after && HandedOut(after[q], f)
  {
    if x == q && change.Existing? { RowStaysHandedOut(cfg, cells[q], change.tx, now, f); }
  }

  ghost predicate KeepsHandedOut(s: System, after: System) {
    forall q, f | q in s.cells && HandedOut(s.cells[q], f) :: q in after.cells && HandedOut(after.cells[q], f)
  }

  lemma OwnedCarries(s: System, after: System)
    requires AllOwned(s) && KeepsHandedOut(s, after) && after.issuers == s.issuers
    ensures AllOwned(after)
  {
    forall w ensures Owned(after, w, IssuerOf(after, w)) { assert Owned(s, w, IssuerOf(s, w)); }
  }

  lemma MoveOwner(s: System, w: Owner, p: Issuer)
    requires AllOwned(s) && Owned(s, w, p)
    ensures AllOwned(WithIssuer(s, w, p))
  {
    var after := WithIssuer(s, w, p);
    forall x ensures Owned(after, x, IssuerOf(after, x)) { assert Owned(s, x, IssuerOf(s, x)); }
  }

  lemma CommitKeepsHandedOut(cfg: Config, s: System, x: Submission)
    ensures KeepsHandedOut(s, Commit(cfg, s, x).0)
  {
    forall q, f | q in s.cells && HandedOut(s.cells[q], f)
      ensures q in Commit(cfg, s, x).0.cells && HandedOut(Commit(cfg, s, x).0.cells[q], f)
    {
      TransactStaysHandedOut(cfg, s.cells, x.quote, x.change, s.clock, q, f);
    }
  }

  /** A claim hands its fence to the claimer. */
  lemma ClaimIsOwned(cfg: Config, s: System, w: Owner, q: QuoteId, op: OperationId, asked: Option<(QuoteId, OperationId)>, ending: Ending)
    ensures var (committed, reply) := Commit(cfg, s, Submission(q, Existing(ClaimOperation(op, w)), ending));
            Owned(committed, w, ClaimHeard(q, asked, ending.Answered?, reply))
  {
  }

  lemma ObserveKeepsOwned(s: System, step: Step, x: Submission, reply: Reply)
    requires AllOwned(s)
    requires step.IssuerClaim? ==> Owned(s, step.worker, ClaimHeard(step.quote, Asked(step.quote, step.operation, step.only), x.ending.Answered?, reply))
    ensures AllOwned(Observe(s, step, x, reply))
  {
    match step
    case IssuerClaim(w, q, op, only, _) => MoveOwner(s, w, ClaimHeard(q, Asked(q, op, only), x.ending.Answered?, reply));
    case IssuerCommit(w, _) =>
      assert Owned(s, w, IssuerOf(s, w));
      MoveOwner(s, w, CommitHeard(IssuerOf(s, w), x.ending.Answered?, reply));
    case IssuerFail(w, _, _) => MoveOwner(s, w, IssuerIdle);
    case _ => OwnedCarries(s, Observe(s, step, x, reply));
  }

  lemma SubmissionKeepsOwned(cfg: Config, s: System, step: Step)
    requires AllOwned(s) && Submits(s, step).Some?
    ensures AllOwned(After(cfg, s, step))
  {
    var x := Submits(s, step).value;
    if x.quote !in s.doubts {
      CommitKeepsHandedOut(cfg, s, x);
      CommitLeavesIssuers(cfg, s, x);
      OwnedCarries(s, Commit(cfg, s, x).0);
      if step.IssuerClaim? { ClaimIsOwned(cfg, s, step.worker, step.quote, step.operation, Asked(step.quote, step.operation, step.only), step.ending); }
      ObserveKeepsOwned(Commit(cfg, s, x).0, step, x, Commit(cfg, s, x).1);
    }
  }

  lemma ResolveKeepsOwned(cfg: Config, s: System, q: QuoteId, lands: bool)
    requires AllOwned(s)
    ensures AllOwned(Local(cfg, s, Resolve(q, lands)))
  {
    var after := Local(cfg, s, Resolve(q, lands));
    forall r, f | r in s.cells && HandedOut(s.cells[r], f) ensures r in after.cells && HandedOut(after.cells[r], f) {
      if q in s.doubts { TransactStaysHandedOut(cfg, s.cells, q, s.doubts[q].change, s.doubts[q].now, r, f); }
    }
    OwnedCarries(s, after);
  }

  /** A local step of a worker moves it on under its own fence, out of its attempt, or onto a row leased to it. */
  lemma LocalIsOwned(cfg: Config, s: System, step: Step, w: Owner)
    requires Owned(s, w, IssuerOf(s, w))
    ensures Owned(s, w, IssuerOf(IssuerLocal(cfg, s, step), w))
  {
    if step.IssuerAdopt? { AdoptIsOwned(cfg, s, step.worker, step.found, w); }
  }

  lemma AdoptIsOwned(cfg: Config, s: System, w: Owner, found: Option<(QuoteId, OperationId)>, x: Owner)
    requires Owned(s, x, IssuerOf(s, x))
    ensures Owned(s, x, IssuerOf(IssuerLocal(cfg, s, IssuerAdopt(w, found)), x))
  {
  }

  lemma LocalKeepsOwned(cfg: Config, s: System, step: Step)
    requires AllOwned(s) && !step.Resolve?
    ensures AllOwned(Local(cfg, s, step))
  {
    var after := Local(cfg, s, step);
    LocalLeavesTables(cfg, s, step);
    forall w ensures Owned(after, w, IssuerOf(after, w)) {
      assert Owned(s, w, IssuerOf(s, w));
      if OfMailer(step) { MailLocalIsLocal(cfg, s, step); } else if !step.Advance? { LocalIsOwned(cfg, s, step, w); }
    }
  }

  lemma {:induction false} RunKeepsOwned(cfg: Config, s: System, steps: seq<Step>)
    requires AllOwned(s)
    ensures AllOwned(Run(cfg, s, steps))
    decreases |steps|
  {
    if steps != [] {
      var step := steps[0];
      if Submits(s, step).Some? { SubmissionKeepsOwned(cfg, s, step); }
      else if step.Resolve? { ResolveKeepsOwned(cfg, s, step.quote, step.lands); }
      else { LocalKeepsOwned(cfg, s, step); }
      RunKeepsOwned(cfg, After(cfg, s, step), steps[1..]);
    }
  }

  // ---------- giving up ----------

  /** NOT_APPLIED: the row read after an unanswered COMMIT shows no commit of this attempt, or it was the second try. */
  predicate ConcludesNotApplied(s: System, w: Owner) {
    IssuerOf(s, w).CommitInDoubt? && Reconciled(s, IssuerOf(s, w)).IssuerIdle?
  }

  /** STALE_FENCE: the answered transaction found the fence broken. */
  ghost predicate AnsweredStale(cfg: Config, s: System, w: Owner) {
    && IssuerOf(s, w).Published? && IssuerOf(s, w).quote !in s.doubts
    && Commit(cfg, s, Submits(s, IssuerCommit(w, Answered)).value).1.StaleFence?
  }

  ghost predicate GivesUp(cfg: Config, s: System, w: Owner, step: Step) {
    || (step == IssuerReconcile(w) && ConcludesNotApplied(s, w))
    || (step == IssuerCommit(w, Answered) && AnsweredStale(cfg, s, w))
  }

  lemma StaleLeavesRows(cfg: Config, s: System, w: Owner)
    requires AnsweredStale(cfg, s, w)
    ensures After(cfg, s, IssuerCommit(w, Answered)) == WithIssuer(s, w, IssuerIdle)
  {
    var p := IssuerOf(s, w);
    if p.quote in s.cells { assert s.cells[p.quote := s.cells[p.quote]] == s.cells; }
  }

  lemma GivingUpLeavesRows(cfg: Config, s: System, w: Owner, step: Step)
    requires GivesUp(cfg, s, w, step)
    ensures After(cfg, s, step) == WithIssuer(s, w, IssuerIdle)
  {
    if step.IssuerCommit? { StaleLeavesRows(cfg, s, w); }
  }

  // ---------- an attempt that cannot land any more ----------

  /** The fence was handed out, and nothing was committed under it. */
  predicate Unused(c: Cell, f: OperationFence) { HandedOut(c, f) && !SucceededUnder(c, f) }

  lemma OthersLeaveUnused(cfg: Config, c: Cell, tx: Tx, now: nat, f: OperationFence)
    requires Unused(c, f) && !Lands(c, tx, f)
    ensures Unused(Apply(cfg, c, tx, now).0, f)
  {
    RowStaysHandedOut(cfg, c, tx, now, f);
    if tx.IssueDraft? { IssueLeavesOthers(cfg, c, tx.principal, tx.expectedVersion, tx.terms, f.operation); }
    else if !CellInvariants.WritesOperations(tx) { CellInvariants.LeavesOperationRows(cfg, c, tx, now); }
  }

  lemma TransactLeavesUnused(cfg: Config, cells: map<QuoteId, Cell>, x: QuoteId, change: Change, now: nat, q: QuoteId, f: OperationFence)
    requires q in cells && Unused(cells[q], f)
    requires x == q && change.Existing? ==> !Lands(cells[q], change.tx, f)
    ensures var after := Transact(cfg, cells, x, change, now).0; q in after && Unused(after[q], f)
  {
    if x == q && change.Existing? { OthersLeaveUnused(cfg, cells[q], change.tx, now, f); }
  }

  /** Nothing was committed under the fence, and no commit of it is in doubt. */
  ghost predicate Gone(s: System, q: QuoteId, f: OperationFence) {
    q in s.cells && Unused(s.cells[q], f) && !CommitPending(s, q, f)
  }

  /** Only a worker that carries the fence submits a commit of it. */
  lemma OnlyCarriersCommit(s: System, step: Step, q: QuoteId, f: OperationFence)
    requires AllOwned(s) && !Carries(IssuerOf(s, f.owner), q, f) && Submits(s, step).Some?
    ensures var x := Submits(s, step).value;
            x.quote == q && x.change.Existing? ==> !(x.change.tx.CommitIssued? && x.change.tx.fence == f)
  {
    if step.IssuerCommit? { assert Owned(s, step.worker, IssuerOf(s, step.worker)); }
  }

  lemma CommitLeavesGone(cfg: Config, s: System, x: Submission, q: QuoteId, f: OperationFence)
    requires Gone(s, q, f) && x.quote !in s.doubts
    requires x.quote == q && x.change.Existing? ==> !(x.change.tx.CommitIssued? && x.change.tx.fence == f)
    ensures Gone(Commit(cfg, s, x).0, q, f)
  {
    TransactLeavesUnused(cfg, s.cells, x.quote, x.change, s.clock, q, f);
    if x.quote != q && q in s.doubts { TransactOthers(cfg, s.cells, x.quote, x.change, s.clock, q); }
  }

  lemma TransactOthers(cfg: Config, cells: map<QuoteId, Cell>, x: QuoteId, change: Change, now: nat, q: QuoteId)
    requires q != x && q in cells
    ensures var after := Transact(cfg, cells, x, change, now).0; q in after && after[q] == cells[q]
  {
  }

  lemma SubmissionLeavesGone(cfg: Config, s: System, step: Step, q: QuoteId, f: OperationFence)
    requires AllOwned(s) && Gone(s, q, f) && !Carries(IssuerOf(s, f.owner), q, f) && Submits(s, step).Some?
    ensures Gone(After(cfg, s, step), q, f)
  {
    var x := Submits(s, step).value;
    if x.quote !in s.doubts {
      OnlyCarriersCommit(s, step, q, f);
      CommitLeavesGone(cfg, s, x, q, f);
      ObserveLeavesTables(Commit(cfg, s, x).0, step, x, Commit(cfg, s, x).1);
    }
  }

  lemma ResolveLeavesGone(cfg: Config, s: System, r: QuoteId, lands: bool, q: QuoteId, f: OperationFence)
    requires Gone(s, q, f)
    ensures Gone(Local(cfg, s, Resolve(r, lands)), q, f)
  {
    if r in s.doubts {
      TransactLeavesUnused(cfg, s.cells, r, s.doubts[r].change, s.doubts[r].now, q, f);
      if r != q { TransactOthers(cfg, s.cells, r, s.doubts[r].change, s.doubts[r].now, q); }
    }
  }

  lemma StepLeavesGone(cfg: Config, s: System, step: Step, q: QuoteId, f: OperationFence)
    requires AllOwned(s) && Gone(s, q, f) && !Carries(IssuerOf(s, f.owner), q, f)
    ensures Gone(After(cfg, s, step), q, f)
  {
    if Submits(s, step).Some? { SubmissionLeavesGone(cfg, s, step, q, f); }
    else if step.Resolve? { ResolveLeavesGone(cfg, s, step.quote, step.lands, q, f); }
    else { LocalLeavesTables(cfg, s, step); }
  }

  lemma StepKeepsOwned(cfg: Config, s: System, step: Step)
    requires AllOwned(s)
    ensures AllOwned(After(cfg, s, step))
  {
    if Submits(s, step).Some? { SubmissionKeepsOwned(cfg, s, step); }
    else if step.Resolve? { ResolveKeepsOwned(cfg, s, step.quote, step.lands); }
    else { LocalKeepsOwned(cfg, s, step); }
  }

  /** The holder of the fence never acts under it again, not even by adopting its row. */
  ghost predicate NeverRetaken(cfg: Config, s: System, steps: seq<Step>, q: QuoteId, f: OperationFence)
    decreases |steps|
  {
    !Carries(IssuerOf(s, f.owner), q, f) && (steps == [] || NeverRetaken(cfg, After(cfg, s, steps[0]), steps[1..], q, f))
  }

  lemma {:induction false} RunLeavesGone(cfg: Config, s: System, steps: seq<Step>, q: QuoteId, f: OperationFence)
    requires AllOwned(s) && Gone(s, q, f) && NeverRetaken(cfg, s, steps, q, f)
    ensures Gone(Run(cfg, s, steps), q, f)
    decreases |steps|
  {
    if steps != [] {
      StepLeavesGone(cfg, s, steps[0], q, f);
      StepKeepsOwned(cfg, s, steps[0]);
      RunLeavesGone(cfg, After(cfg, s, steps[0]), steps[1..], q, f);
    }
  }

  /** What was submitted before the answer is committed after all, with nobody acting under the fence again. */
  ghost predicate MayStillLand(cfg: Config, s: System, q: QuoteId, f: OperationFence) {
    exists later :: NeverRetaken(cfg, s, later, q, f) && IssuedUnder(Run(cfg, s, later), q, f)
  }

  lemma PendingMayLand(cfg: Config, s: System, q: QuoteId, f: OperationFence)
    requires TablesOk(cfg, s) && CommitPending(s, q, f) && !Carries(IssuerOf(s, f.owner), q, f)
    ensures MayStillLand(cfg, s, q, f)
  {
    NothingCommittedYet(cfg, s, q, f);
    PendingLands(cfg, s, q, f, s.doubts[q].change.tx.document);
    LandsInOneStep(cfg, s, Resolve(q, true), q, f);
  }

  lemma LandsInOneStep(cfg: Config, s: System, step: Step, q: QuoteId, f: OperationFence)
    requires !Carries(IssuerOf(s, f.owner), q, f)
    requires var after := After(cfg, s, step); !Carries(IssuerOf(after, f.owner), q, f) && IssuedUnder(after, q, f)
    ensures MayStillLand(cfg, s, q, f)
  {
    OneStep(cfg, s, step);
    assert NeverRetaken(cfg, After(cfg, s, step), [], q, f);
    assert [step][1..] == [];
    assert NeverRetaken(cfg, s, [step], q, f) && IssuedUnder(Run(cfg, s, [step]), q, f);
  }

  lemma OneStep(cfg: Config, s: System, step: Step)
    ensures Run(cfg, s, [step]) == After(cfg, s, step)
  {
    assert Run(cfg, After(cfg, s, step), []) == After(cfg, s, step);
  }

  lemma PendingLands(cfg: Config, s: System, q: QuoteId, f: OperationFence, document: Document)
    requires q in s.doubts && s.doubts[q].change == Existing(CommitIssued(f, document)) && q in s.cells
    requires Issuance.FenceHolds(s.cells[q], f) && Issuance.IsCurrent(s.cells[q], f.operation) && s.cells[q].manifest.None?
    requires document.snapshotHash == s.cells[q].operations[f.operation].snapshotHash
    ensures var after := After(cfg, s, Resolve(q, true)); IssuedUnder(after, q, f) && after.issuers == s.issuers
  {
  }

  lemma IssuedMayLand(cfg: Config, s: System, q: QuoteId, f: OperationFence)
    requires IssuedUnder(s, q, f) && !Carries(IssuerOf(s, f.owner), q, f)
    ensures MayStillLand(cfg, s, q, f)
  {
    assert Run(cfg, s, []) == s && NeverRetaken(cfg, s, [], q, f);
  }

  lemma LandsOnlyIf(cfg: Config, s: System, q: QuoteId, f: OperationFence)
    requires SystemInv(cfg, s) && AllOwned(s) && q in s.cells && HandedOut(s.cells[q], f)
    requires MayStillLand(cfg, s, q, f)
    ensures IssuedUnder(s, q, f) || CommitPending(s, q, f)
  {
    SucceededIsIssued(cfg, s, q, f);
    var later :| NeverRetaken(cfg, s, later, q, f) && IssuedUnder(Run(cfg, s, later), q, f);
    if Gone(s, q, f) { RunLeavesGone(cfg, s, later, q, f); }
  }

  /**
   * When STALE_FENCE or NOT_APPLIED is the last word on the attempt: in any run, what the worker submitted
   * is committed after its answer exactly if it already was, or is in doubt while the fence holds.
   * The rows and the doubts are those before the answer.
   */
  lemma GivingUpIsFinalIff(cfg: Config, steps: seq<Step>, w: Owner, step: Step)
    ensures var s := Run(cfg, INITIAL, steps);
            GivesUp(cfg, s, w, step) ==>
              var (q, f) := (IssuerOf(s, w).quote, IssuerOf(s, w).attempt.fence);
              MayStillLand(cfg, After(cfg, s, step), q, f) <==> IssuedUnder(s, q, f) || CommitPending(s, q, f)
  {
    var s := Run(cfg, INITIAL, steps);
    if GivesUp(cfg, s, w, step) {
      RunKeepsInv(cfg, INITIAL, steps);
      RunKeepsOwned(cfg, INITIAL, steps);
      AnswerIsFinalIff(cfg, s, w, step);
    }
  }

  lemma AnswerIsFinalIff(cfg: Config, s: System, w: Owner, step: Step)
    requires SystemInv(cfg, s) && AllOwned(s) && GivesUp(cfg, s, w, step)
    ensures var (q, f) := (IssuerOf(s, w).quote, IssuerOf(s, w).attempt.fence);
            MayStillLand(cfg, After(cfg, s, step), q, f) <==> IssuedUnder(s, q, f) || CommitPending(s, q, f)
  {
    var (q, f) := (IssuerOf(s, w).quote, IssuerOf(s, w).attempt.fence);
    assert Owned(s, w, IssuerOf(s, w));
    if IssuedUnder(s, q, f) || CommitPending(s, q, f) { GivenUpMayLand(cfg, s, w, step, q, f); }
    else if MayStillLand(cfg, After(cfg, s, step), q, f) { GivenUpLandsOnlyIf(cfg, s, w, step, q, f); }
  }

  lemma GivenUpMayLand(cfg: Config, s: System, w: Owner, step: Step, q: QuoteId, f: OperationFence)
    requires TablesOk(cfg, s) && GivesUp(cfg, s, w, step) && (IssuedUnder(s, q, f) || CommitPending(s, q, f)) && f.owner == w
    ensures MayStillLand(cfg, After(cfg, s, step), q, f)
  {
    GivingUpLeavesRows(cfg, s, w, step);
    var after := WithIssuer(s, w, IssuerIdle);
    if IssuedUnder(s, q, f) { IssuedMayLand(cfg, after, q, f); } else { PendingMayLand(cfg, after, q, f); }
  }

  lemma GivenUpLandsOnlyIf(cfg: Config, s: System, w: Owner, step: Step, q: QuoteId, f: OperationFence)
    requires SystemInv(cfg, s) && AllOwned(s) && GivesUp(cfg, s, w, step)
    requires q in s.cells && HandedOut(s.cells[q], f) && MayStillLand(cfg, After(cfg, s, step), q, f)
    ensures IssuedUnder(s, q, f) || CommitPending(s, q, f)
  {
    GivingUpLeavesRows(cfg, s, w, step);
    GivenUpState(cfg, s, w, step);
    LandsOnlyIf(cfg, After(cfg, s, step), q, f);
  }

  /** The state in which the worker has given up. */
  lemma GivenUpState(cfg: Config, s: System, w: Owner, step: Step)
    requires SystemInv(cfg, s) && AllOwned(s)
    ensures SystemInv(cfg, After(cfg, s, step)) && AllOwned(After(cfg, s, step))
  {
    StepKeepsInv(cfg, s, step);
    StepKeepsOwned(cfg, s, step);
  }

  // ---------- an attempt whose fence is broken ----------

  /** Something is committed under this fence after all, whoever does it. */
  ghost predicate MayEverLand(cfg: Config, s: System, q: QuoteId, f: OperationFence) {
    exists later :: IssuedUnder(Run(cfg, s, later), q, f)
  }

  /** The fence is broken and nothing was committed under it. */
  predicate Dead(c: Cell, f: OperationFence) { Unused(c, f) && !Issuance.FenceHolds(c, f) }

  lemma TransactLeavesDead(cfg: Config, cells: map<QuoteId, Cell>, x: QuoteId, change: Change, now: nat, q: QuoteId, f: OperationFence)
    requires q in cells && Dead(cells[q], f)
    ensures var after := Transact(cfg, cells, x, change, now).0; q in after && Dead(after[q], f)
  {
    TransactLeavesUnused(cfg, cells, x, change, now, q, f);
    if x == q && change.Existing? { Guarantees.FenceStaysSpent(cfg, cells[q], change.tx, now, f); }
    else if x != q { TransactOthers(cfg, cells, x, change, now, q); }
  }

  lemma CommitLeavesDead(cfg: Config, s: System, x: Submission, q: QuoteId, f: OperationFence)
    requires q in s.cells && Dead(s.cells[q], f)
    ensures q in Commit(cfg, s, x).0.cells && Dead(Commit(cfg, s, x).0.cells[q], f)
  {
    TransactLeavesDead(cfg, s.cells, x.quote, x.change, s.clock, q, f);
  }

  lemma SubmissionLeavesDead(cfg: Config, s: System, step: Step, q: QuoteId, f: OperationFence)
    requires q in s.cells && Dead(s.cells[q], f) && Submits(s, step).Some?
    ensures q in After(cfg, s, step).cells && Dead(After(cfg, s, step).cells[q], f)
  {
    var x := Submits(s, step).value;
    if x.quote !in s.doubts {
      CommitLeavesDead(cfg, s, x, q, f);
      ObserveLeavesTables(Commit(cfg, s, x).0, step, x, Commit(cfg, s, x).1);
    }
  }

  lemma ResolveLeavesDead(cfg: Config, s: System, r: QuoteId, lands: bool, q: QuoteId, f: OperationFence)
    requires q in s.cells && Dead(s.cells[q], f)
    ensures q in Local(cfg, s, Resolve(r, lands)).cells && Dead(Local(cfg, s, Resolve(r, lands)).cells[q], f)
  {
    if r in s.doubts { TransactLeavesDead(cfg, s.cells, r, s.doubts[r].change, s.doubts[r].now, q, f); }
  }

  lemma {:induction false} RunLeavesDead(cfg: Config, s: System, steps: seq<Step>, q: QuoteId, f: OperationFence)
    requires q in s.cells && Dead(s.cells[q], f)
    ensures q in Run(cfg, s, steps).cells && Dead(Run(cfg, s, steps).cells[q], f)
    decreases |steps|
  {
    if steps != [] {
      var step := steps[0];
      if Submits(s, step).Some? { SubmissionLeavesDead(cfg, s, step, q, f); }
      else if step.Resolve? { ResolveLeavesDead(cfg, s, step.quote, step.lands, q, f); }
      else { LocalLeavesTables(cfg, s, step); }
      RunLeavesDead(cfg, After(cfg, s, step), steps[1..], q, f);
    }
  }

  lemma DeadNeverLands(cfg: Config, s: System, q: QuoteId, f: OperationFence)
    requires q in s.cells && Dead(s.cells[q], f)
    ensures !MayEverLand(cfg, s, q, f)
  {
    forall later ensures !IssuedUnder(Run(cfg, s, later), q, f) { RunLeavesDead(cfg, s, later, q, f); }
  }

  // ---------- the row taken up again ----------

  ghost predicate Reaches(cfg: Config, s: System, after: System) { exists steps :: after == Run(cfg, s, steps) }

  lemma {:induction false} RunsJoin(cfg: Config, s: System, first: seq<Step>, more: seq<Step>)
    ensures Run(cfg, s, first + more) == Run(cfg, Run(cfg, s, first), more)
    decreases |first|
  {
    if first == [] {
      assert first + more == more;
    } else {
      assert (first + more)[0] == first[0] && (first + more)[1..] == first[1..] + more;
      RunsJoin(cfg, After(cfg, s, first[0]), first[1..], more);
    }
  }

  lemma ReachesOn(cfg: Config, s: System, middle: System, after: System)
    requires Reaches(cfg, s, middle) && Reaches(cfg, middle, after)
    ensures Reaches(cfg, s, after)
  {
    var first :| middle == Run(cfg, s, first);
    var more :| after == Run(cfg, middle, more);
    RunsJoin(cfg, s, first, more);
  }

  lemma ReachesStep(cfg: Config, s: System, step: Step)
    ensures Reaches(cfg, s, After(cfg, s, step))
  {
    OneStep(cfg, s, step);
  }

  lemma ReachesSteps(cfg: Config, s: System, a: Step, b: Step)
    ensures Reaches(cfg, s, After(cfg, After(cfg, s, a), b))
  {
    ReachesStep(cfg, s, a);
    ReachesStep(cfg, After(cfg, s, a), b);
    ReachesOn(cfg, s, After(cfg, s, a), After(cfg, After(cfg, s, a), b));
  }

  lemma ReachedIsValid(cfg: Config, s: System, after: System)
    requires SystemInv(cfg, s) && Reaches(cfg, s, after)
    ensures SystemInv(cfg, after)
  {
    var steps :| after == Run(cfg, s, steps);
    RunKeepsInv(cfg, s, steps);
  }

  lemma ReachedLands(cfg: Config, s: System, after: System, q: QuoteId, f: OperationFence)
    requires Reaches(cfg, s, after) && MayEverLand(cfg, after, q, f)
    ensures MayEverLand(cfg, s, q, f)
  {
    var first :| after == Run(cfg, s, first);
    var more :| IssuedUnder(Run(cfg, after, more), q, f);
    RunsJoin(cfg, s, first, more);
  }

  type Row = (QuoteId, OperationId)

  predicate HasRow(s: System, row: Row) { row.0 in s.cells && row.1 in s.cells[row.0].operations }

  function RowOf(s: System, row: Row): Operation
    requires HasRow(s, row)
  {
    s.cells[row.0].operations[row.1]
  }

  /** The rows leased to a worker. */
  ghost function LeasedRows(s: System, w: Owner): set<Row> {
    set q, op | q in s.cells && op in s.cells[q].operations && RunningUnder(s.cells[q], op, w) :: (q, op)
  }

  ghost function AttemptedAt(s: System, row: Row): Option<nat> {
    if HasRow(s, row) then RowOf(s, row).lastAttemptAt else None
  }

  /** Some row of a nonempty set was attempted last. */
  lemma {:induction false} LatestRow(s: System, rows: set<Row>) returns (latest: Row)
    requires rows != {}
    ensures latest in rows && forall row <- rows :: Later(AttemptedAt(s, latest), AttemptedAt(s, row))
    decreases |rows|
  {
    latest :| latest in rows;
    var others := rows - {latest};
    if others == {} {
      assert rows == {latest};
    } else {
      var first := latest;
      var other := LatestRow(s, others);
      if !Later(AttemptedAt(s, first), AttemptedAt(s, other)) { latest := other; }
      forall row | row in rows ensures Later(AttemptedAt(s, latest), AttemptedAt(s, row)) {
        if row != first { assert row in others; }
      }
    }
  }

  lemma LatestIsAdoptable(s: System, w: Owner, row: Row)
    requires row in LeasedRows(s, w) && forall x <- LeasedRows(s, w) :: Later(AttemptedAt(s, row), AttemptedAt(s, x))
    ensures AdoptableOperation(s, w, None, Some(row))
  {
    forall q2 <- s.cells, op2 <- s.cells[q2].operations | Sought(None, s.cells[q2], q2, op2, w)
      ensures Later(s.cells[row.0].operations[row.1].lastAttemptAt, s.cells[q2].operations[op2].lastAttemptAt)
    {
      assert (q2, op2) in LeasedRows(s, w);
    }
  }

  /** A COMMIT in doubt on this quote is lost. */
  lemma Unlocks(cfg: Config, s: System, q: QuoteId)
    ensures After(cfg, s, Resolve(q, false)) == s.(doubts := s.doubts - {q})
  {
    if q !in s.doubts { assert s.doubts - {q} == s.doubts; }
  }

  lemma AsksInVain(cfg: Config, s: System, w: Owner, q: QuoteId, op: OperationId)
    requires IssuerFree(IssuerOf(s, w)) && q !in s.doubts
    ensures After(cfg, s, IssuerClaim(w, q, op, false, UnansweredLost)) == WithIssuer(s, w, ClaimInDoubt(None))
  {
  }

  function AttemptAt(s: System, w: Owner, row: Row): Attempt
    requires HasRow(s, row)
  {
    Attempt(OperationFence(row.1, RowOf(s, row).generation, w), RowOf(s, row).snapshotHash, false)
  }

  lemma Adopts(cfg: Config, s: System, w: Owner, row: Row)
    requires IssuerOf(s, w) == ClaimInDoubt(None) && AdoptableOperation(s, w, None, Some(row)) && HasRow(s, row)
    ensures After(cfg, s, IssuerAdopt(w, Some(row))) == WithIssuer(s, w, Holding(row.0, AttemptAt(s, w, row)))
  {
  }

  /** The worker took this row up again, and nothing is in doubt on the quote it gave up. */
  ghost predicate TookUp(s: System, after: System, w: Owner, row: Row, q: QuoteId) {
    && after.cells == s.cells && after.artifacts == s.artifacts && q !in after.doubts
    && HasRow(s, row) && IssuerOf(after, w) == Holding(row.0, AttemptAt(s, w, row))
  }

  /** The next claim of a free worker goes unanswered, with its quote unlocked. */
  lemma AsksAgain(cfg: Config, s: System, w: Owner, q: QuoteId, op: OperationId) returns (asking: System)
    requires IssuerFree(IssuerOf(s, w))
    ensures Reaches(cfg, s, asking) && IssuerOf(asking, w) == ClaimInDoubt(None)
    ensures asking.cells == s.cells && asking.artifacts == s.artifacts && q !in asking.doubts
  {
    var unlock, ask := Resolve(q, false), IssuerClaim(w, q, op, false, UnansweredLost);
    Unlocks(cfg, s, q);
    AsksInVain(cfg, After(cfg, s, unlock), w, q, op);
    asking := After(cfg, After(cfg, s, unlock), ask);
    ReachesSteps(cfg, s, unlock, ask);
  }

  /** It then takes up the row leased to it that was attempted last. */
  lemma TakesLatest(cfg: Config, s: System, w: Owner, q: QuoteId, op: OperationId) returns (after: System, row: Row)
    requires IssuerFree(IssuerOf(s, w)) && (q, op) in LeasedRows(s, w)
    ensures Reaches(cfg, s, after) && row in LeasedRows(s, w) && TookUp(s, after, w, row, q)
  {
    var asking := AsksAgain(cfg, s, w, q, op);
    assert LeasedRows(asking, w) == LeasedRows(s, w);
    row := LatestRow(asking, LeasedRows(asking, w));
    LatestIsAdoptable(asking, w, row);
    Adopts(cfg, asking, w, row);
    ReachesStep(cfg, asking, IssuerAdopt(w, Some(row)));
    after := After(cfg, asking, IssuerAdopt(w, Some(row)));
    ReachesOn(cfg, s, asking, after);
  }

  lemma SnapshotMatches(cfg: Config, s: System, q: QuoteId, op: OperationId)
    requires TablesOk(cfg, s) && q in s.cells && op in s.cells[q].operations
    ensures var c := s.cells[q];
            SnapshotOf(c.quote).Some? && cfg.snapshotHash(SnapshotOf(c.quote).value) == c.operations[op].snapshotHash
  {
    assert CellOk(cfg, q, s.cells[q]);
  }

  lemma RendersAgain(cfg: Config, s: System, w: Owner, q: QuoteId, attempt: Attempt, pdf: Bytes)
    requires IssuerOf(s, w) == Holding(q, attempt) && q in s.cells && SnapshotOf(s.cells[q].quote).Some?
    requires cfg.snapshotHash(SnapshotOf(s.cells[q].quote).value) == attempt.snapshotHash
    ensures Reaches(cfg, s, WithIssuer(s, w, Rendered(q, attempt, pdf)))
  {
    var verified := After(cfg, s, IssuerVerify(w));
    assert verified == WithIssuer(s, w, Verified(q, attempt));
    assert s.issuers[w := Verified(q, attempt)][w := Rendered(q, attempt, pdf)] == s.issuers[w := Rendered(q, attempt, pdf)];
    assert After(cfg, verified, IssuerRender(w, pdf)) == WithIssuer(s, w, Rendered(q, attempt, pdf));
    ReachesSteps(cfg, s, IssuerVerify(w), IssuerRender(w, pdf));
  }

  lemma Republishes(cfg: Config, s: System, w: Owner, q: QuoteId, attempt: Attempt, pdf: Bytes)
    requires IssuerOf(s, w) == Rendered(q, attempt, pdf)
    requires cfg.sha256(pdf) in s.artifacts && s.artifacts[cfg.sha256(pdf)] == pdf
    ensures After(cfg, s, IssuerPublish(w)) ==
            WithIssuer(s, w, Published(q, attempt, Document(attempt.snapshotHash, cfg.sha256(pdf), |pdf|), 0))
  {
  }

  lemma CommitsRepublished(cfg: Config, s: System, q: QuoteId, attempt: Attempt, document: Document)
    requires IssuerOf(s, attempt.fence.owner) == Published(q, attempt, document, 0) && q in s.cells && q !in s.doubts
    requires var c, f := s.cells[q], attempt.fence;
             && Issuance.FenceHolds(c, f) && Issuance.IsCurrent(c, f.operation) && c.manifest.None?
             && c.operations[f.operation].snapshotHash == document.snapshotHash
    ensures MayEverLand(cfg, s, q, attempt.fence)
  {
    var step := IssuerCommit(attempt.fence.owner, Answered);
    OneStep(cfg, s, step);
    assert IssuedUnder(After(cfg, s, step), q, attempt.fence);
    assert IssuedUnder(Run(cfg, s, [step]), q, attempt.fence);
  }

  /** The row given up is verified, rendered to the stored document, published and committed. */
  lemma FinishesAttempt(cfg: Config, s: System, q: QuoteId, attempt: Attempt, document: Document)
    requires TablesOk(cfg, s) && q in s.cells && Issuance.FenceHolds(s.cells[q], attempt.fence) && q !in s.doubts
    requires IssuerOf(s, attempt.fence.owner) == Holding(q, attempt)
    requires attempt.snapshotHash == s.cells[q].operations[attempt.fence.operation].snapshotHash
    requires HasBytes(cfg, s, document)
    ensures MayEverLand(cfg, s, q, attempt.fence)
  {
    SnapshotMatches(cfg, s, q, attempt.fence.operation);
    NothingCommittedYet(cfg, s, q, attempt.fence);
    RendersAndCommits(cfg, s, q, attempt, document);
  }

  lemma RendersAndCommits(cfg: Config, s: System, q: QuoteId, attempt: Attempt, document: Document)
    requires q in s.cells && q !in s.doubts && IssuerOf(s, attempt.fence.owner) == Holding(q, attempt) && HasBytes(cfg, s, document)
    requires var c, f := s.cells[q], attempt.fence;
             && Issuance.FenceHolds(c, f) && Issuance.IsCurrent(c, f.operation) && c.manifest.None?
             && c.operations[f.operation].snapshotHash == attempt.snapshotHash
             && SnapshotOf(c.quote).Some? && cfg.snapshotHash(SnapshotOf(c.quote).value) == attempt.snapshotHash
    ensures MayEverLand(cfg, s, q, attempt.fence)
  {
    var w, f, pdf := attempt.fence.owner, attempt.fence, s.artifacts[document.pdfSha256];
    var rendered := WithIssuer(s, w, Rendered(q, attempt, pdf));
    RendersAgain(cfg, s, w, q, attempt, pdf);
    Republishes(cfg, rendered, w, q, attempt, pdf);
    ReachesStep(cfg, rendered, IssuerPublish(w));
    CommitsRepublished(cfg, After(cfg, rendered, IssuerPublish(w)), q, attempt, Document(attempt.snapshotHash, document.pdfSha256, |pdf|));
    ReachedLands(cfg, rendered, After(cfg, rendered, IssuerPublish(w)), q, f);
    ReachedLands(cfg, s, rendered, q, f);
  }

  /** What ending one leased row leaves. */
  ghost predicate MadeWay(s: System, after: System, w: Owner, row: Row) {
    && IssuerOf(after, w).IssuerIdle? && after.artifacts == s.artifacts && after.cells.Keys == s.cells.Keys
    && (forall r <- s.cells | r != row.0 :: after.cells[r] == s.cells[r])
    && HasRow(s, row)
    && after.cells[row.0].operations == s.cells[row.0].operations[row.1 := Issuance.Ended(RowOf(s, row), Failed, s.clock)]
  }

  lemma FailsRow(cfg: Config, s: System, w: Owner, row: Row)
    requires row in LeasedRows(s, w) && HasRow(s, row) && row.0 !in s.doubts
    requires IssuerOf(s, w) == Holding(row.0, AttemptAt(s, w, row))
    ensures MadeWay(s, After(cfg, s, IssuerFail(w, Issuance.AttemptFailure(false), Answered)), w, row)
  {
    assert Issuance.FenceHolds(s.cells[row.0], AttemptAt(s, w, row).fence);
  }

  /** A row that is in the way is ended by recording a failure that is not retryable. */
  lemma MakesWay(cfg: Config, s: System, w: Owner, row: Row) returns (after: System)
    requires row in LeasedRows(s, w) && HasRow(s, row)
    requires IssuerOf(s, w) == Holding(row.0, AttemptAt(s, w, row))
    ensures Reaches(cfg, s, after) && MadeWay(s, after, w, row)
  {
    var unlock, fail := Resolve(row.0, false), IssuerFail(w, Issuance.AttemptFailure(false), Answered);
    Unlocks(cfg, s, row.0);
    var unlocked := After(cfg, s, unlock);
    assert LeasedRows(unlocked, w) == LeasedRows(s, w);
    FailsRow(cfg, unlocked, w, row);
    ReachesSteps(cfg, s, unlock, fail);
    after := After(cfg, unlocked, fail);
  }

  lemma FewerLeased(s: System, after: System, w: Owner, row: Row)
    requires row in LeasedRows(s, w) && MadeWay(s, after, w, row)
    ensures |LeasedRows(after, w)| < |LeasedRows(s, w)|
  {
    assert LeasedRows(after, w) <= LeasedRows(s, w) - {row};
    SmallerSet(LeasedRows(after, w), LeasedRows(s, w) - {row});
  }

  lemma {:induction false} SmallerSet<T>(a: set<T>, b: set<T>)
    requires a <= b
    ensures |a| <= |b|
    decreases |a|
  {
    if a != {} {
      var x :| x in a;
      SmallerSet(a - {x}, b - {x});
    }
  }

  lemma FenceStaysHeld(s: System, after: System, row: Row, q: QuoteId, f: OperationFence)
    requires row != (q, f.operation) && MadeWay(s, after, f.owner, row) && q in s.cells && Issuance.FenceHolds(s.cells[q], f)
    ensures q in after.cells && Issuance.FenceHolds(after.cells[q], f)
  {
    if row.0 == q { assert after.cells[q].operations[f.operation] == s.cells[q].operations[f.operation]; }
  }

  /** A worker that is free again, while the row it gave up is still leased to it and its document is stored. */
  ghost predicate CanRetake(cfg: Config, s: System, q: QuoteId, f: OperationFence, document: Document) {
    && IssuerFree(IssuerOf(s, f.owner)) && q in s.cells && Issuance.FenceHolds(s.cells[q], f) && HasBytes(cfg, s, document)
  }

  /** The worker ends the rows attempted later, and then takes its own row up again and commits it. */
  lemma {:induction false} RetakesAndLands(cfg: Config, s: System, q: QuoteId, f: OperationFence, document: Document)
    requires SystemInv(cfg, s) && CanRetake(cfg, s, q, f, document)
    ensures MayEverLand(cfg, s, q, f)
    decreases |LeasedRows(s, f.owner)|
  {
    assert (q, f.operation) in LeasedRows(s, f.owner);
    var taken, row := TakesLatest(cfg, s, f.owner, q, f.operation);
    ReachedIsValid(cfg, s, taken);
    if row == (q, f.operation) {
      FinishesTaken(cfg, s, taken, q, f, document);
    } else {
      var cleared := Clears(cfg, s, taken, row, q, f, document);
      ReachedIsValid(cfg, taken, cleared);
      RetakesAndLands(cfg, cleared, q, f, document);
      ReachedLands(cfg, taken, cleared, q, f);
    }
    ReachedLands(cfg, s, taken, q, f);
  }

  lemma FinishesTaken(cfg: Config, s: System, taken: System, q: QuoteId, f: OperationFence, document: Document)
    requires TablesOk(cfg, taken) && CanRetake(cfg, s, q, f, document) && TookUp(s, taken, f.owner, (q, f.operation), q)
    ensures MayEverLand(cfg, taken, q, f)
  {
    assert AttemptAt(s, f.owner, (q, f.operation)).fence == f;
    FinishesAttempt(cfg, taken, q, AttemptAt(s, f.owner, (q, f.operation)), document);
  }

  lemma Clears(cfg: Config, s: System, taken: System, row: Row, q: QuoteId, f: OperationFence, document: Document) returns (after: System)
    requires CanRetake(cfg, s, q, f, document) && TookUp(s, taken, f.owner, row, q)
    requires row in LeasedRows(s, f.owner) && row != (q, f.operation)
    ensures Reaches(cfg, taken, after) && CanRetake(cfg, after, q, f, document)
    ensures |LeasedRows(after, f.owner)| < |LeasedRows(s, f.owner)|
  {
    assert LeasedRows(taken, f.owner) == LeasedRows(s, f.owner);
    after := MakesWay(cfg, taken, f.owner, row);
    FewerLeased(taken, after, f.owner, row);
    FenceStaysHeld(taken, after, row, q, f);
  }

  /**
   * When STALE_FENCE or NOT_APPLIED is the last word on the fence, adoption of its row included:
   * in any run, something is committed under it after the answer exactly if it already was, or the
   * fence still holds.
   */
  lemma GivingUpIsFinalForeverIff(cfg: Config, steps: seq<Step>, w: Owner, step: Step)
    ensures var s := Run(cfg, INITIAL, steps);
            GivesUp(cfg, s, w, step) ==>
              var (q, f) := (IssuerOf(s, w).quote, IssuerOf(s, w).attempt.fence);
              MayEverLand(cfg, After(cfg, s, step), q, f) <==> IssuedUnder(s, q, f) || (q in s.cells && Issuance.FenceHolds(s.cells[q], f))
  {
    var s := Run(cfg, INITIAL, steps);
    if GivesUp(cfg, s, w, step) {
      RunKeepsInv(cfg, INITIAL, steps);
      RunKeepsOwned(cfg, INITIAL, steps);
      AnswerIsFinalForeverIff(cfg, s, w, step);
    }
  }

  lemma AnswerIsFinalForeverIff(cfg: Config, s: System, w: Owner, step: Step)
    requires SystemInv(cfg, s) && AllOwned(s) && GivesUp(cfg, s, w, step)
    ensures var (q, f) := (IssuerOf(s, w).quote, IssuerOf(s, w).attempt.fence);
            MayEverLand(cfg, After(cfg, s, step), q, f) <==> IssuedUnder(s, q, f) || (q in s.cells && Issuance.FenceHolds(s.cells[q], f))
  {
    var (q, f) := (IssuerOf(s, w).quote, IssuerOf(s, w).attempt.fence);
    assert Owned(s, w, IssuerOf(s, w));
    if IssuedUnder(s, q, f) {
      GivenUpIsIssued(cfg, s, w, step);
    } else if Issuance.FenceHolds(s.cells[q], f) {
      GivenUpIsRetaken(cfg, s, w, step);
    } else {
      GivenUpIsDead(cfg, s, w, step);
    }
  }

  lemma GivenUpIsIssued(cfg: Config, s: System, w: Owner, step: Step)
    requires GivesUp(cfg, s, w, step) && IssuedUnder(s, IssuerOf(s, w).quote, IssuerOf(s, w).attempt.fence)
    ensures MayEverLand(cfg, After(cfg, s, step), IssuerOf(s, w).quote, IssuerOf(s, w).attempt.fence)
  {
    GivingUpLeavesRows(cfg, s, w, step);
    assert Run(cfg, After(cfg, s, step), []) == After(cfg, s, step);
  }

  lemma GivenUpIsRetaken(cfg: Config, s: System, w: Owner, step: Step)
    requires SystemInv(cfg, s) && GivesUp(cfg, s, w, step) && IssuerOf(s, w).attempt.fence.owner == w
    requires IssuerOf(s, w).quote in s.cells && Issuance.FenceHolds(s.cells[IssuerOf(s, w).quote], IssuerOf(s, w).attempt.fence)
    ensures MayEverLand(cfg, After(cfg, s, step), IssuerOf(s, w).quote, IssuerOf(s, w).attempt.fence)
  {
    GivingUpLeavesRows(cfg, s, w, step);
    StepKeepsInv(cfg, s, step);
    DocumentIsStored(cfg, s, w);
    RetakesAndLands(cfg, After(cfg, s, step), IssuerOf(s, w).quote, IssuerOf(s, w).attempt.fence, IssuerOf(s, w).document);
  }

  lemma GivenUpIsDead(cfg: Config, s: System, w: Owner, step: Step)
    requires TablesOk(cfg, s) && GivesUp(cfg, s, w, step) && Owned(s, w, IssuerOf(s, w))
    requires var (q, f) := (IssuerOf(s, w).quote, IssuerOf(s, w).attempt.fence);
             !IssuedUnder(s, q, f) && !Issuance.FenceHolds(s.cells[q], f)
    ensures !MayEverLand(cfg, After(cfg, s, step), IssuerOf(s, w).quote, IssuerOf(s, w).attempt.fence)
  {
    SucceededIsIssued(cfg, s, IssuerOf(s, w).quote, IssuerOf(s, w).attempt.fence);
    GivingUpLeavesRows(cfg, s, w, step);
    DeadNeverLands(cfg, After(cfg, s, step), IssuerOf(s, w).quote, IssuerOf(s, w).attempt.fence);
  }

  lemma DocumentIsStored(cfg: Config, s: System, w: Owner)
    requires IssuersStored(cfg, s) && (IssuerOf(s, w).Published? || IssuerOf(s, w).CommitInDoubt?)
    ensures HasBytes(cfg, s, IssuerOf(s, w).document)
  {
    assert w in s.issuers && Names(s.issuers[w]);
  }

  /**
   * The row read back after an unanswered COMMIT, in every run: COMMITTED is concluded exactly if this attempt
   * is what issued the quote, one more try exactly if the fence still holds and none was made yet, and nothing else.
   */
  lemma ReadBackIsExact(cfg: Config, steps: seq<Step>, w: Owner)
    ensures var s := Run(cfg, INITIAL, steps);
            var p := IssuerOf(s, w);
            p.CommitInDoubt? ==>
              && p.quote in s.cells
              && (Reconciled(s, p).IssuerSucceeded? <==> IssuedUnder(s, p.quote, p.attempt.fence))
              && (Reconciled(s, p) == Published(p.quote, p.attempt, p.document, 1) <==>
                    Issuance.FenceHolds(s.cells[p.quote], p.attempt.fence) && p.tries == 0)
              && (Reconciled(s, p).IssuerSucceeded? || Reconciled(s, p).Published? || Reconciled(s, p).IssuerIdle?)
  {
    var s := Run(cfg, INITIAL, steps);
    RunKeepsInv(cfg, INITIAL, steps);
    RunKeepsOwned(cfg, INITIAL, steps);
    assert Owned(s, w, IssuerOf(s, w));
    if IssuerOf(s, w).CommitInDoubt? { ReadBackOfRow(cfg, s, IssuerOf(s, w)); }
  }

  lemma ReadBackOfRow(cfg: Config, s: System, p: Issuer)
    requires TablesOk(cfg, s) && p.CommitInDoubt? && p.quote in s.cells
    ensures Reconciled(s, p).IssuerSucceeded? <==> IssuedUnder(s, p.quote, p.attempt.fence)
    ensures Reconciled(s, p) == Published(p.quote, p.attempt, p.document, 1) <==>
              Issuance.FenceHolds(s.cells[p.quote], p.attempt.fence) && p.tries == 0
    ensures Reconciled(s, p).IssuerSucceeded? || Reconciled(s, p).Published? || Reconciled(s, p).IssuerIdle?
  {
    if Issuance.FenceHolds(s.cells[p.quote], p.attempt.fence) { NothingCommittedYet(cfg, s, p.quote, p.attempt.fence); }
  }
}
