/** The guarantees of one quote's rows, for every quote in every state of every run of the service. */
module EveryRun {
  import opened Wrappers
  import opened Rows
  import opened Transactions
  import opened CellInvariants
  import opened Service
  import ServiceSafety
  import Guarantees
  import Issuance
  import Deliveries
  import Expiry

  /** The rows of a quote after a run from the empty service, if it exists by then. */
  ghost predicate Reached(cfg: Config, steps: seq<Step>, q: QuoteId) { q in Run(cfg, INITIAL, steps).cells }

  ghost function RowsAfter(cfg: Config, steps: seq<Step>, q: QuoteId): Cell
    requires Reached(cfg, steps, q)
  {
    Run(cfg, INITIAL, steps).cells[q]
  }

  lemma RowsAreValid(cfg: Config, steps: seq<Step>, q: QuoteId)
    requires Reached(cfg, steps, q)
    ensures Inv(cfg, RowsAfter(cfg, steps, q)) && RowsAfter(cfg, steps, q).quote.id == q
  {
    ServiceSafety.RunKeepsInv(cfg, INITIAL, steps);
    assert ServiceSafety.CellOk(cfg, q, RowsAfter(cfg, steps, q));
  }

  /**
   * Fencing accounting in both protocols: generation is the attempt count, plus one exactly if a
   * sweep ended the row; an end is logged at most once, and exactly if the row ended.
   */
  lemma FencingInEveryRun(cfg: Config, steps: seq<Step>, q: QuoteId, op: OperationId, id: DeliveryId)
    ensures Reached(cfg, steps, q) && op in RowsAfter(cfg, steps, q).operations ==>
              var (c, o) := (RowsAfter(cfg, steps, q), RowsAfter(cfg, steps, q).operations[op]);
              && o.generation == o.attempts + (if Guarantees.Logged(c, SweepsOf(op)) then 1 else 0)
              && (Guarantees.Logged(c, EndsOf(op)) <==> !Active(o))
              && Count(c.audit, EndsOf(op)) <= 1
    ensures Reached(cfg, steps, q) && id in RowsAfter(cfg, steps, q).deliveries ==>
              var (c, d) := (RowsAfter(cfg, steps, q), RowsAfter(cfg, steps, q).deliveries[id]);
              && d.generation == d.attempts + (if Guarantees.Logged(c, DeliverySweepsOf(id)) then 1 else 0)
              && (Guarantees.Logged(c, DeliveryEndsOf(id)) <==> Deliveries.Terminal(d.status))
              && Count(c.audit, DeliveryEndsOf(id)) <= 1 && d.attempts <= Deliveries.MAX_ATTEMPTS
  {
    if Reached(cfg, steps, q) {
      RowsAreValid(cfg, steps, q);
      Guarantees.FencingAccounting(cfg, RowsAfter(cfg, steps, q), op, id);
    }
  }

  ghost predicate Unstuck(cfg: Config, c: Cell, op: OperationId, t: nat)
    requires op in c.operations
  {
    var o := c.operations[op];
    && (o.attempts - 1) * Min(5_000, cfg.leaseMs) < o.deadlineAt - o.acceptedAt
    && (Active(o) ==>
          && (Issuance.Claimable(c, op, t) <==> Guarantees.FateAt(o, t) == Guarantees.ClaimableNow)
          && (Issuance.Sweepable(o, t) <==> Guarantees.FateAt(o, t) == Guarantees.SweepableNow)
          && (t > o.deadlineAt ==> Guarantees.FateAt(o, t) == Guarantees.SweepableNow))
  }

  lemma NeverStuck(cfg: Config, c: Cell, op: OperationId, t: nat)
    requires Inv(cfg, c) && op in c.operations
    ensures Unstuck(cfg, c, op, t)
  {
    Guarantees.AttemptsAreBounded(cfg, c, op);
    if Active(c.operations[op]) { Guarantees.NoOperationIsStuck(cfg, c, op, t); }
  }

  /**
   * No stuck operation and bounded attempts: at every instant an active operation is in exactly one
   * of four situations, past its deadline it is sweepable, and its attempts fit before the deadline.
   */
  lemma NoStuckOperationInAnyRun(cfg: Config, steps: seq<Step>, q: QuoteId, op: OperationId, t: nat)
    ensures Reached(cfg, steps, q) && op in RowsAfter(cfg, steps, q).operations ==> Unstuck(cfg, RowsAfter(cfg, steps, q), op, t)
  {
    if Reached(cfg, steps, q) && op in RowsAfter(cfg, steps, q).operations {
      RowsAreValid(cfg, steps, q);
      NeverStuck(cfg, RowsAfter(cfg, steps, q), op, t);
    }
  }

  /** The audit log refines the state machine, and no two entries share a version. */
  lemma LogRefinesEveryRun(cfg: Config, steps: seq<Step>, q: QuoteId, i: nat, j: nat)
    ensures Reached(cfg, steps, q) && i < |RowsAfter(cfg, steps, q).audit| ==>
              var (c, e) := (RowsAfter(cfg, steps, q), RowsAfter(cfg, steps, q).audit[i]);
              && e.sequence == i + 1
              && (e.toStatus.Some? ==> e.fromStatus == LoggedStatus(c.audit[..i]))
              && LoggedStatus(c.audit) == Some(c.quote.status) && Versions(c.audit) == c.quote.version
              && (i < j < |c.audit| && CarriesVersion(e.event) && CarriesVersion(c.audit[j].event) ==>
                    e.event.version < c.audit[j].event.version)
  {
    if Reached(cfg, steps, q) && i < |RowsAfter(cfg, steps, q).audit| {
      var c := RowsAfter(cfg, steps, q);
      RowsAreValid(cfg, steps, q);
      Guarantees.LogRefinesStateMachine(cfg, c, i);
      if i < j < |c.audit| && CarriesVersion(c.audit[i].event) && CarriesVersion(c.audit[j].event) {
        Guarantees.VersionsAreDistinct(cfg, c, i, j);
      }
    }
  }

  /** The invariant errors are dead: no transaction any step submits is ever answered with one. */
  lemma ErrorsAreDeadInEveryRun(cfg: Config, steps: seq<Step>, step: Step)
    ensures var s := Run(cfg, INITIAL, steps);
            var x := Submits(s, step);
            x.Some? && x.value.change.Existing? && x.value.quote in s.cells ==>
              !Guarantees.Throws(x.value.change.tx, Commit(cfg, s, x.value).1)
  {
    var s := Run(cfg, INITIAL, steps);
    var x := Submits(s, step);
    if x.Some? && x.value.change.Existing? && x.value.quote in s.cells {
      RowsAreValid(cfg, steps, x.value.quote);
      Guarantees.ThrownErrorsAreDead(cfg, s.cells[x.value.quote], x.value.change.tx, s.clock);
    }
  }

  // ---------- the frozen snapshot over continuations ----------

  ghost predicate Holds(cells: map<QuoteId, Cell>, q: QuoteId, snapshot: IssuedSnapshot) {
    q in cells && SnapshotOf(cells[q].quote) == Some(snapshot)
  }

  lemma ApplyKeepsSnapshot(cfg: Config, c: Cell, tx: Tx, now: nat, snapshot: IssuedSnapshot)
    requires Inv(cfg, c) && SnapshotOf(c.quote) == Some(snapshot)
    ensures SnapshotOf(Apply(cfg, c, tx, now).0.quote) == Some(snapshot)
  {
    Guarantees.AcceptedSnapshotIsFrozen(cfg, c, tx, now, 0);
  }

  lemma RowIsValid(cfg: Config, s: System, q: QuoteId)
    requires ServiceSafety.TablesOk(cfg, s) && q in s.cells
    ensures Inv(cfg, s.cells[q])
  {
    assert ServiceSafety.CellOk(cfg, q, s.cells[q]);
  }

  lemma TransactKeepsSnapshot(cfg: Config, cells: map<QuoteId, Cell>, q: QuoteId, change: Change, now: nat, r: QuoteId, snapshot: IssuedSnapshot)
    requires Holds(cells, r, snapshot) && Inv(cfg, cells[r])
    ensures Holds(Transact(cfg, cells, q, change, now).0, r, snapshot)
  {
    if r == q && change.Existing? { ApplyKeepsSnapshot(cfg, cells[q], change.tx, now, snapshot); }
  }

  lemma TransactionKeepsSnapshot(cfg: Config, s: System, q: QuoteId, change: Change, now: nat, r: QuoteId, snapshot: IssuedSnapshot)
    requires ServiceSafety.TablesOk(cfg, s) && Holds(s.cells, r, snapshot)
    ensures Holds(Transact(cfg, s.cells, q, change, now).0, r, snapshot)
  {
    RowIsValid(cfg, s, r);
    TransactKeepsSnapshot(cfg, s.cells, q, change, now, r, snapshot);
  }

  lemma CommitKeepsSnapshot(cfg: Config, s: System, x: Submission, r: QuoteId, snapshot: IssuedSnapshot)
    requires ServiceSafety.TablesOk(cfg, s) && Holds(s.cells, r, snapshot)
    ensures Holds(Commit(cfg, s, x).0.cells, r, snapshot)
  {
    match x.ending
    case UnansweredLost =>
    case UnansweredPending =>
    case _ => TransactionKeepsSnapshot(cfg, s, x.quote, x.change, s.clock, r, snapshot);
  }

  lemma SubmissionKeepsSnapshot(cfg: Config, s: System, step: Step, r: QuoteId, snapshot: IssuedSnapshot)
    requires ServiceSafety.TablesOk(cfg, s) && Holds(s.cells, r, snapshot) && Submits(s, step).Some?
    ensures Holds(After(cfg, s, step).cells, r, snapshot)
  {
    var x := Submits(s, step).value;
    if x.quote !in s.doubts {
      CommitKeepsSnapshot(cfg, s, x, r, snapshot);
      ServiceSafety.ObserveLeavesTables(Commit(cfg, s, x).0, step, x, Commit(cfg, s, x).1);
    }
  }

  lemma ResolvedCells(cfg: Config, s: System, step: Step)
    requires step.Resolve?
    ensures Local(cfg, s, step).cells == s.cells
            || (step.quote in s.doubts
                && Local(cfg, s, step).cells == Transact(cfg, s.cells, step.quote, s.doubts[step.quote].change, s.doubts[step.quote].now).0)
  {
  }

  lemma ResolveKeepsSnapshot(cfg: Config, s: System, step: Step, r: QuoteId, snapshot: IssuedSnapshot)
    requires ServiceSafety.TablesOk(cfg, s) && Holds(s.cells, r, snapshot) && step.Resolve? && step.quote in s.doubts
    ensures Holds(Local(cfg, s, step).cells, r, snapshot)
  {
    TransactionKeepsSnapshot(cfg, s, step.quote, s.doubts[step.quote].change, s.doubts[step.quote].now, r, snapshot);
    ResolvedCells(cfg, s, step);
  }

  lemma LocalKeepsSnapshot(cfg: Config, s: System, step: Step, r: QuoteId, snapshot: IssuedSnapshot)
    requires ServiceSafety.TablesOk(cfg, s) && Holds(s.cells, r, snapshot)
    ensures Holds(Local(cfg, s, step).cells, r, snapshot)
  {
    if !step.Resolve? {
      ServiceSafety.LocalLeavesTables(cfg, s, step);
    } else if step.quote in s.doubts {
      ResolveKeepsSnapshot(cfg, s, step, r, snapshot);
    }
  }

  lemma {:induction false} RunKeepsSnapshot(cfg: Config, s: System, steps: seq<Step>, r: QuoteId, snapshot: IssuedSnapshot)
    requires ServiceSafety.SystemInv(cfg, s) && Holds(s.cells, r, snapshot)
    ensures Holds(Run(cfg, s, steps).cells, r, snapshot)
    decreases |steps|
  {
    if steps != [] {
      if Submits(s, steps[0]).Some? { SubmissionKeepsSnapshot(cfg, s, steps[0], r, snapshot); }
      else { LocalKeepsSnapshot(cfg, s, steps[0], r, snapshot); }
      ServiceSafety.StepKeepsInv(cfg, s, steps[0]);
      RunKeepsSnapshot(cfg, After(cfg, s, steps[0]), steps[1..], r, snapshot);
    }
  }

  /**
   * From acceptance on, content, totals, number and validity survive every retry, cancel, expiry and
   * crash: in every continuation of every run the snapshot is the one accepted, and every operation
   * of the quote carries its hash.
   */
  lemma SnapshotsAreFrozen(cfg: Config, before: seq<Step>, later: seq<Step>, q: QuoteId, op: OperationId)
    ensures var (s, end) := (Run(cfg, INITIAL, before), Run(cfg, Run(cfg, INITIAL, before), later));
            q in s.cells && s.cells[q].quote.issue.Some? ==>
              && q in end.cells && SnapshotOf(end.cells[q].quote) == SnapshotOf(s.cells[q].quote)
              && (op in end.cells[q].operations ==>
                    end.cells[q].operations[op].snapshotHash == cfg.snapshotHash(SnapshotOf(s.cells[q].quote).value))
  {
    var s := Run(cfg, INITIAL, before);
    if q in s.cells && s.cells[q].quote.issue.Some? {
      ServiceSafety.RunKeepsInv(cfg, INITIAL, before);
      RunKeepsSnapshot(cfg, s, later, q, SnapshotOf(s.cells[q].quote).value);
      ServiceSafety.RunKeepsInv(cfg, s, later);
      assert ServiceSafety.CellOk(cfg, q, Run(cfg, s, later).cells[q]);
    }
  }
}
