/**
 * The periodic jobs over many quotes: the issuance deadline sweep, the delivery lease sweep and the
 * expiry job. Each selects candidates without holding their locks, then runs one locked transaction
 * per candidate that checks the row again.
 */
module Sweeps {
  import opened Wrappers
  import opened Rows
  import opened Transactions
  import Issuance
  import Deliveries
  import Expiry
  import Service

  datatype Candidate = Candidate(quote: QuoteId, tx: Tx, now: nat)

  predicate IsSweep(tx: Tx) { tx.FailDeadline? || tx.SweepDelivery? || tx.MaterializeExpiry? }

  function SweepRow(c: Cell, tx: Tx, now: nat): (Cell, Reply)
    requires IsSweep(tx)
  {
    match tx
    case FailDeadline(op) => Issuance.FailDeadline(c, op, now)
    case SweepDelivery(id) => Deliveries.SweepDelivery(c, id, now)
    case _ => Expiry.MaterializeExpiry(c, now)
  }

  /** The locked transaction of one candidate; a row that is gone is nothing to do. */
  function SweepOne(cells: map<QuoteId, Cell>, x: Candidate): (r: (map<QuoteId, Cell>, Reply))
    requires IsSweep(x.tx)
    ensures r.0.Keys == cells.Keys
  {
    if x.quote !in cells then (cells, NothingDue)
    else
      var (after, reply) := SweepRow(cells[x.quote], x.tx, x.now);
      (cells[x.quote := after], reply)
  }

  predicate AllSweeps(work: seq<Candidate>) { forall i | 0 <= i < |work| :: IsSweep(work[i].tx) }

  /** The rows after sweeping the candidates in order. */
  function SweepAll(cells: map<QuoteId, Cell>, work: seq<Candidate>): map<QuoteId, Cell>
    requires AllSweeps(work)
  {
    if work == [] then cells else SweepOne(SweepAll(cells, work[..|work| - 1]), work[|work| - 1]).0
  }

  /** What the sweep reports: the candidates that were still due under their lock, with their answers. */
  function Reports(cells: map<QuoteId, Cell>, work: seq<Candidate>): seq<(Candidate, Reply)>
    requires AllSweeps(work)
  {
    if work == [] then []
    else
      var before := work[..|work| - 1];
      var last := work[|work| - 1];
      var reply := SweepOne(SweepAll(cells, before), last).1;
      Reports(cells, before) + if reply == NothingDue then [] else [(last, reply)]
  }

  lemma SweepOneMore(cells: map<QuoteId, Cell>, work: seq<Candidate>, i: nat)
    requires AllSweeps(work) && i < |work|
    ensures var (after, reply) := SweepOne(SweepAll(cells, work[..i]), work[i]);
            && SweepAll(cells, work[..i + 1]) == after
            && Reports(cells, work[..i + 1]) == Reports(cells, work[..i]) + if reply == NothingDue then [] else [(work[i], reply)]
  {
    var done := work[..i + 1];
    assert done[..|done| - 1] == work[..i] && done[|done| - 1] == work[i];
  }

  /** The tables after the service's own transactions of the candidates, one after the other. */
  ghost function Transacted(cfg: Config, cells: map<QuoteId, Cell>, work: seq<Candidate>): map<QuoteId, Cell> {
    if work == [] then cells
    else
      var last := work[|work| - 1];
      Service.Transact(cfg, Transacted(cfg, cells, work[..|work| - 1]), last.quote, Service.Existing(last.tx), last.now).0
  }

  lemma SweepOneIsTransact(cfg: Config, cells: map<QuoteId, Cell>, x: Candidate)
    requires IsSweep(x.tx)
    ensures SweepOne(cells, x).0 == Service.Transact(cfg, cells, x.quote, Service.Existing(x.tx), x.now).0
  {
  }

  lemma {:induction false} SweepAllIsTransacted(cfg: Config, cells: map<QuoteId, Cell>, work: seq<Candidate>)
    requires AllSweeps(work)
    ensures SweepAll(cells, work) == Transacted(cfg, cells, work)
    decreases |work|
  {
    if work != [] {
      SweepAllIsTransacted(cfg, cells, work[..|work| - 1]);
      SweepOneIsTransact(cfg, SweepAll(cells, work[..|work| - 1]), work[|work| - 1]);
    }
  }

  class Store {
    const cfg: Config
    var cells: map<QuoteId, Cell>

    constructor (cfg: Config, cells: map<QuoteId, Cell>)
      ensures this.cells == cells && this.cfg == cfg
    {
      this.cfg, this.cells := cfg, cells;
    }

    method Sweep(candidates: seq<Candidate>) returns (swept: seq<(Candidate, Reply)>)
      requires AllSweeps(candidates)
      modifies this
      ensures cells == SweepAll(old(cells), candidates) == Transacted(cfg, old(cells), candidates)
      ensures swept == Reports(old(cells), candidates)
    {
      swept := [];
      var i := 0;
      while i < |candidates|
        invariant i <= |candidates|
        invariant cells == SweepAll(old(cells), candidates[..i])
        invariant swept == Reports(old(cells), candidates[..i])
      {
        SweepOneMore(old(cells), candidates, i);
        var (after, reply) := SweepOne(cells, candidates[i]);
        cells := after;
        if reply != NothingDue {
          swept := swept + [(candidates[i], reply)];
        }
        i := i + 1;
      }
      assert candidates[..i] == candidates;
      SweepAllIsTransacted(cfg, old(cells), candidates);
    }
  }

  /** Nothing is left to do for this candidate. */
  predicate Finished(cells: map<QuoteId, Cell>, x: Candidate)
    requires IsSweep(x.tx)
  {
    SweepOne(cells, x) == (cells, NothingDue)
  }

  predicate RowFinished(c: Cell, tx: Tx, now: nat)
    requires IsSweep(tx)
  {
    SweepRow(c, tx, now) == (c, NothingDue)
  }

  lemma FinishedRow(cells: map<QuoteId, Cell>, x: Candidate)
    requires IsSweep(x.tx)
    ensures Finished(cells, x) <==> (x.quote in cells ==> RowFinished(cells[x.quote], x.tx, x.now))
  {
    if x.quote in cells { assert cells[x.quote := cells[x.quote]] == cells; }
  }

  lemma SweptRowIsFinished(c: Cell, tx: Tx, now: nat)
    requires IsSweep(tx)
    ensures RowFinished(SweepRow(c, tx, now).0, tx, now)
  {
  }

  lemma RowStaysFinished(c: Cell, tx: Tx, now: nat, other: Tx, at: nat)
    requires IsSweep(tx) && IsSweep(other) && RowFinished(c, tx, now)
    ensures RowFinished(SweepRow(c, other, at).0, tx, now)
  {
  }

  lemma SweptIsFinished(cells: map<QuoteId, Cell>, x: Candidate)
    requires IsSweep(x.tx)
    ensures Finished(SweepOne(cells, x).0, x)
  {
    if x.quote in cells { SweptRowIsFinished(cells[x.quote], x.tx, x.now); }
    FinishedRow(SweepOne(cells, x).0, x);
  }

  /** One sweep never gives another candidate something to do. */
  lemma FinishedStays(cells: map<QuoteId, Cell>, x: Candidate, other: Candidate)
    requires IsSweep(x.tx) && IsSweep(other.tx) && Finished(cells, x)
    ensures Finished(SweepOne(cells, other).0, x)
  {
    FinishedRow(cells, x);
    if x.quote in cells && x.quote == other.quote { RowStaysFinished(cells[x.quote], x.tx, x.now, other.tx, other.now); }
    FinishedRow(SweepOne(cells, other).0, x);
  }

  lemma {:induction false} AllFinished(cells: map<QuoteId, Cell>, work: seq<Candidate>, i: nat)
    requires AllSweeps(work) && i < |work|
    ensures Finished(SweepAll(cells, work), work[i])
    decreases |work|
  {
    var before, last := work[..|work| - 1], work[|work| - 1];
    if i == |work| - 1 {
      SweptIsFinished(SweepAll(cells, before), last);
    } else {
      AllFinished(cells, before, i);
      FinishedStays(SweepAll(cells, before), work[i], last);
    }
  }

  lemma {:induction false} FinishedWorkChangesNothing(cells: map<QuoteId, Cell>, work: seq<Candidate>)
    requires AllSweeps(work) && forall i | 0 <= i < |work| :: Finished(cells, work[i])
    ensures SweepAll(cells, work) == cells && Reports(cells, work) == []
    decreases |work|
  {
    if work != [] { FinishedWorkChangesNothing(cells, work[..|work| - 1]); }
  }

  /** Sweeping the same candidates again changes no row and reports nothing. */
  lemma SweepsAreIdempotent(cells: map<QuoteId, Cell>, work: seq<Candidate>)
    requires AllSweeps(work)
    ensures var after := SweepAll(cells, work);
            SweepAll(after, work) == after && Reports(after, work) == []
  {
    var after := SweepAll(cells, work);
    forall i | 0 <= i < |work| ensures Finished(after, work[i]) { AllFinished(cells, work, i); }
    FinishedWorkChangesNothing(after, work);
  }
}
