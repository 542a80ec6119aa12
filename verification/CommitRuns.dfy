/**
 * Runs from the empty service in which a fenced commit does not do what its answer or its clock
 * suggests: given up as NOT_APPLIED and committed afterwards, answered STALE_FENCE though committed,
 * and committed after lease and deadline.
 */
module CommitRuns {
  import opened Wrappers
  import opened Rows
  import opened Transactions
  import opened Service
  import opened ServiceSafety
  import opened ResendRun
  import opened GivingUp
  import Issuance

  /** The quote accepted, claimed and rendered, its document published, and the commit about to be submitted. */
  ghost predicate AboutToCommit(s: System, tries: nat) {
    var p := IssuerOf(s, ISSUER);
    && p.Published? && p.quote == Q && p.tries == tries && Q in s.cells
    && var c, f := s.cells[Q], p.attempt.fence;
      && f.operation == OP && Issuance.FenceHolds(c, f) && Issuance.IsCurrent(c, OP) && c.manifest.None?
      && c.operations[OP].snapshotHash == p.document.snapshotHash
  }

  lemma ReachesCommit(cfg: Config) returns (s: System)
    ensures Reachable(cfg, s) && s.doubts == map[] && AboutToCommit(s, 0)
  {
    ContentIsValid();
    var accepted := Accepts(cfg, CONTENT);
    var rendered := Renders(cfg, accepted);
    NothingIssuedYet(cfg, rendered);
    s := Publishes(cfg, rendered);
    FirstTry(cfg, rendered);
  }

  lemma FirstTry(cfg: Config, s: System)
    requires IssuerOf(s, ISSUER).Rendered?
    ensures var p := IssuerOf(After(cfg, s, IssuerPublish(ISSUER)), ISSUER); p.Published? ==> p.tries == 0
  {
  }

  function InDoubt(p: Issuer): Issuer
    requires p.Published?
  {
    CommitInDoubt(p.quote, p.attempt, p.document, p.tries)
  }

  function Again(p: Issuer): Issuer
    requires p.Published?
  {
    Published(p.quote, p.attempt, p.document, 1)
  }

  function CommitOf(p: Issuer): Change
    requires p.Published?
  {
    Existing(CommitIssued(p.attempt.fence, p.document))
  }

  function Doubted(s: System): System
    requires IssuerOf(s, ISSUER).Published?
  {
    s.(doubts := s.doubts[Q := Doubt(CommitOf(IssuerOf(s, ISSUER)), s.clock)])
  }

  lemma CommitIsLost(cfg: Config, s: System)
    requires AboutToCommit(s, 0) && s.doubts == map[]
    ensures After(cfg, s, IssuerCommit(ISSUER, UnansweredLost)) == WithIssuer(s, ISSUER, InDoubt(IssuerOf(s, ISSUER)))
  {
  }

  lemma CommitIsPending(cfg: Config, s: System, tries: nat)
    requires AboutToCommit(s, tries) && s.doubts == map[]
    ensures After(cfg, s, IssuerCommit(ISSUER, UnansweredPending)) == WithIssuer(Doubted(s), ISSUER, InDoubt(IssuerOf(s, ISSUER)))
  {
  }

  /** The row read back is untouched, so the commit is tried once more. */
  lemma TriesAgain(cfg: Config, s: System, p: Issuer)
    requires AboutToCommit(WithIssuer(s, ISSUER, p), 0) && IssuerOf(s, ISSUER) == InDoubt(p)
    ensures After(cfg, s, IssuerReconcile(ISSUER)) == WithIssuer(s, ISSUER, Again(p))
  {
  }

  /**
   * In some run a worker concludes NOT_APPLIED while nothing is committed, and what it submitted is
   * committed afterwards, without anybody acting under its fence again.
   */
  lemma NotAppliedMayStillLand(cfg: Config)
    ensures exists steps, w ::
              var s := Run(cfg, INITIAL, steps);
              && ConcludesNotApplied(s, w)
              && !IssuedUnder(s, IssuerOf(s, w).quote, IssuerOf(s, w).attempt.fence)
              && MayStillLand(cfg, After(cfg, s, IssuerReconcile(w)), IssuerOf(s, w).quote, IssuerOf(s, w).attempt.fence)
  {
    var s := SecondTryPending(cfg);
    var steps :| s == Run(cfg, INITIAL, steps);
    assert GivesUp(cfg, s, ISSUER, IssuerReconcile(ISSUER));
    GivingUpIsFinalIff(cfg, steps, ISSUER, IssuerReconcile(ISSUER));
    assert ConcludesNotApplied(Run(cfg, INITIAL, steps), ISSUER);
  }

  lemma SecondTryPending(cfg: Config) returns (s: System)
    ensures Reachable(cfg, s) && ConcludesNotApplied(s, ISSUER)
    ensures var (q, f) := (IssuerOf(s, ISSUER).quote, IssuerOf(s, ISSUER).attempt.fence); CommitPending(s, q, f) && !IssuedUnder(s, q, f)
  {
    var first := ReachesCommit(cfg);
    var p := IssuerOf(first, ISSUER);
    CommitIsLost(cfg, first);
    ReachesNext(cfg, first, IssuerCommit(ISSUER, UnansweredLost));
    var lost := WithIssuer(first, ISSUER, InDoubt(p));
    TriesAgain(cfg, lost, p);
    ReachesNext(cfg, lost, IssuerReconcile(ISSUER));
    var second := WithIssuer(lost, ISSUER, Again(p));
    CommitIsPending(cfg, second, 1);
    ReachesNext(cfg, second, IssuerCommit(ISSUER, UnansweredPending));
    s := WithIssuer(Doubted(second), ISSUER, InDoubt(Again(p)));
  }

  /** In some run a worker is answered STALE_FENCE although its own first try was committed. */
  lemma StaleFenceMayBeCommitted(cfg: Config)
    ensures exists steps, w ::
              var s := Run(cfg, INITIAL, steps);
              AnsweredStale(cfg, s, w) && IssuedUnder(s, IssuerOf(s, w).quote, IssuerOf(s, w).attempt.fence)
  {
    var s := FirstTryLanded(cfg);
    var steps :| s == Run(cfg, INITIAL, steps);
    assert AnsweredStale(cfg, Run(cfg, INITIAL, steps), ISSUER);
  }

  lemma FirstTryLanded(cfg: Config) returns (s: System)
    ensures Reachable(cfg, s) && AnsweredStale(cfg, s, ISSUER)
    ensures IssuedUnder(s, IssuerOf(s, ISSUER).quote, IssuerOf(s, ISSUER).attempt.fence)
  {
    var first := ReachesCommit(cfg);
    var p := IssuerOf(first, ISSUER);
    CommitIsPending(cfg, first, 0);
    ReachesNext(cfg, first, IssuerCommit(ISSUER, UnansweredPending));
    var pending := WithIssuer(Doubted(first), ISSUER, InDoubt(p));
    TriesAgain(cfg, pending, p);
    ReachesNext(cfg, pending, IssuerReconcile(ISSUER));
    var second := WithIssuer(pending, ISSUER, Again(p));
    PendingLands(cfg, second, Q, p.attempt.fence, p.document);
    ReachesNext(cfg, second, Resolve(Q, true));
    s := After(cfg, second, Resolve(Q, true));
    CommittedIsStale(cfg, s, p);
  }

  lemma CommittedIsStale(cfg: Config, s: System, p: Issuer)
    requires p.Published? && IssuerOf(s, ISSUER) == Again(p) && Q !in s.doubts && p.quote == Q
    requires IssuedUnder(s, Q, p.attempt.fence)
    ensures AnsweredStale(cfg, s, ISSUER)
  {
  }

  /** Past its deadline and its lease, and about to commit. */
  ghost predicate TooLate(s: System, w: Owner) {
    var p := IssuerOf(s, w);
    && p.Published? && p.quote in s.cells && p.attempt.fence.operation in s.cells[p.quote].operations
    && var o := s.cells[p.quote].operations[p.attempt.fence.operation];
      o.leaseExpiresAt.Some? && s.clock > o.leaseExpiresAt.value && s.clock > o.deadlineAt
  }

  /** In some run a commit succeeds after its lease and its operation's deadline have passed. */
  lemma LateCommitSucceeds(cfg: Config)
    ensures exists steps, w ::
              var s := Run(cfg, INITIAL, steps);
              TooLate(s, w) && IssuerOf(After(cfg, s, IssuerCommit(w, Answered)), w).IssuerSucceeded?
  {
    var s := ReachesDeadline(cfg);
    var steps :| s == Run(cfg, INITIAL, steps);
    assert TooLate(Run(cfg, INITIAL, steps), ISSUER);
  }

  lemma ReachesDeadline(cfg: Config) returns (s: System)
    ensures Reachable(cfg, s) && TooLate(s, ISSUER)
    ensures IssuerOf(After(cfg, s, IssuerCommit(ISSUER, Answered)), ISSUER).IssuerSucceeded?
  {
    var ready := ReachesCommit(cfg);
    ReachableInv(cfg, ready);
    RunningHasLease(cfg, ready);
    var o := ready.cells[Q].operations[OP];
    var wait := Advance(o.deadlineAt + o.leaseExpiresAt.value + 1);
    ReachesNext(cfg, ready, wait);
    s := After(cfg, ready, wait);
    LateCommits(cfg, s);
  }

  lemma RunningHasLease(cfg: Config, s: System)
    requires TablesOk(cfg, s) && AboutToCommit(s, 0)
    ensures s.cells[Q].operations[OP].leaseExpiresAt.Some?
  {
    assert CellOk(cfg, Q, s.cells[Q]);
  }

  lemma LateCommits(cfg: Config, s: System)
    requires AboutToCommit(s, 0) && s.doubts == map[]
    ensures IssuerOf(After(cfg, s, IssuerCommit(ISSUER, Answered)), ISSUER).IssuerSucceeded?
  {
  }
}
