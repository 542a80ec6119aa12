/**
 * Deadlock freedom of the transactions. Every transaction takes its locks in the order scope lock,
 * quote row, operation or delivery row; SKIP LOCKED never waits; and a delivery row is only ever
 * locked under its quote's row. So waiting chains are short and never close.
 */
module LockOrder {
  import opened Wrappers

  type QuoteId = nat
  type OperationId = nat
  type DeliveryId = nat
  type TxId = nat

  datatype Lock =
    | ScopeLock(key: int)
    | QuoteRow(quote: QuoteId)
    | OperationRow(operation: OperationId)
    | DeliveryRow(delivery: DeliveryId)

  /** The repository-wide order. */
  function Rank(l: Lock): nat {
    match l
    case ScopeLock(_) => 0
    case QuoteRow(_) => 1
    case OperationRow(_) => 2
    case DeliveryRow(_) => 2
  }

  /** Which quote an operation or a delivery belongs to; it never changes. */
  datatype Owners = Owners(operation: OperationId -> QuoteId, delivery: DeliveryId -> QuoteId)

  /**
   * `Wait` is FOR UPDATE, an UPDATE or an advisory lock; `Skip` is SKIP LOCKED over several
   * candidates; `TryOrEnd` is SKIP LOCKED for the one candidate without which there is nothing to
   * do; `Again` locks a row this transaction may already hold, and is not reached otherwise.
   */
  datatype Request = Wait(lock: Lock) | Skip(lock: Lock) | TryOrEnd(lock: Lock) | Again(lock: Lock)

  // ---------- the transactions of the service ----------

  datatype Kind =
    | CreateQuote(scope: int, created: QuoteId)
    | CommandOnQuote(scope: int, quote: QuoteId)
    | CancelQuote(scope: int, quote: QuoteId, queued: seq<DeliveryId>)
    | RequestDelivery(scope: int, quote: QuoteId, delivery: DeliveryId)
    | RepeatedKey(scope: int, bound: QuoteId)
    | OperatorRetry(quote: QuoteId)
    | ClaimOperation(operation: OperationId)
    | RenewLease(operation: OperationId)
    | EndAttempt(operation: OperationId)
    | ClaimDelivery(delivery: DeliveryId)
    | EndDelivery(delivery: DeliveryId)
    | ExpiryJob(candidates: seq<QuoteId>)

  /** A cancel locks only deliveries of its own quote, and a request inserts one of its own. */
  predicate WellFormed(o: Owners, k: Kind) {
    && (k.CancelQuote? ==> forall i | 0 <= i < |k.queued| :: o.delivery(k.queued[i]) == k.quote)
    && (k.RequestDelivery? ==> o.delivery(k.delivery) == k.quote)
  }

  function WaitDeliveries(ds: seq<DeliveryId>): seq<Request> {
    seq(|ds|, i requires 0 <= i < |ds| => Wait(DeliveryRow(ds[i])))
  }

  function SkipQuotes(qs: seq<QuoteId>): seq<Request> {
    seq(|qs|, i requires 0 <= i < |qs| => Skip(QuoteRow(qs[i])))
  }

  function AuditQuotes(qs: seq<QuoteId>): seq<Request> {
    seq(|qs|, i requires 0 <= i < |qs| => Again(QuoteRow(qs[i])))
  }

  /** The locks of a transaction in the order its statements take them. */
  function Program(o: Owners, k: Kind): seq<Request> {
    match k
    case CreateQuote(scope, created) => [Wait(ScopeLock(scope)), Wait(QuoteRow(created)), Again(QuoteRow(created))]
    case CommandOnQuote(scope, q) => [Wait(ScopeLock(scope)), Wait(QuoteRow(q)), Again(QuoteRow(q))]
    case CancelQuote(scope, q, queued) =>
      [Wait(ScopeLock(scope)), Wait(QuoteRow(q))] + WaitDeliveries(queued) + AuditQuotes(seq(|queued| + 1, _ => q))
    case RequestDelivery(scope, q, d) => [Wait(ScopeLock(scope)), Wait(QuoteRow(q)), Wait(DeliveryRow(d)), Again(QuoteRow(q))]
    case RepeatedKey(scope, bound) => [Wait(ScopeLock(scope)), Wait(QuoteRow(bound))]
    case OperatorRetry(q) => [Wait(QuoteRow(q)), Again(QuoteRow(q))]
    case ClaimOperation(op) => [TryOrEnd(OperationRow(op))]
    case RenewLease(op) => [Wait(OperationRow(op))]
    case EndAttempt(op) => [Wait(QuoteRow(o.operation(op))), Wait(OperationRow(op)), Again(QuoteRow(o.operation(op)))]
    case ClaimDelivery(d) => [TryOrEnd(QuoteRow(o.delivery(d))), Wait(DeliveryRow(d)), Again(QuoteRow(o.delivery(d)))]
    case EndDelivery(d) => [Wait(QuoteRow(o.delivery(d))), Wait(DeliveryRow(d)), Again(QuoteRow(o.delivery(d)))]
    case ExpiryJob(qs) => SkipQuotes(qs) + AuditQuotes(qs)
  }

  // ---------- the lock manager ----------

  /** What a transaction holds, which rows SKIP LOCKED passed over, and what it still asks for. */
  datatype Tx = Tx(held: set<Lock>, missed: set<Lock>, todo: seq<Request>)

  datatype Manager = Manager(owners: Owners, txs: map<TxId, Tx>)

  datatype Step = Begin(id: TxId, kind: Kind) | Proceed(id: TxId) | End(id: TxId)

  ghost predicate HeldByOther(m: Manager, id: TxId, l: Lock) {
    exists other :: other in m.txs && other != id && l in m.txs[other].held
  }

  /** This transaction waits for a lock the other one holds. */
  predicate WaitsFor(m: Manager, id: TxId, other: TxId) {
    && id in m.txs && other in m.txs && id != other
    && m.txs[id].todo != [] && m.txs[id].todo[0].Wait?
    && m.txs[id].todo[0].lock in m.txs[other].held
  }

  ghost predicate Blocked(m: Manager, id: TxId) { exists other :: WaitsFor(m, id, other) }

  ghost function Advanced(m: Manager, id: TxId): Tx
    requires id in m.txs
  {
    var Tx(held, missed, todo) := m.txs[id];
    if todo == [] then m.txs[id]
    else
      var l, free := todo[0].lock, !HeldByOther(m, id, todo[0].lock);
      match todo[0]
      case Wait(_) => if free then Tx(held + {l}, missed, todo[1..]) else m.txs[id]
      case Skip(_) => if free then Tx(held + {l}, missed, todo[1..]) else Tx(held, missed + {l}, todo[1..])
      case TryOrEnd(_) => if free then Tx(held + {l}, missed, todo[1..]) else Tx(held, missed, [])
      case Again(_) => Tx(held, missed, todo[1..])
  }

  ghost function After(m: Manager, step: Step): Manager {
    match step
    case Begin(id, kind) =>
      if id in m.txs || !WellFormed(m.owners, kind) then m
      else m.(txs := m.txs[id := Tx({}, {}, Program(m.owners, kind))])
    case Proceed(id) => if id in m.txs then m.(txs := m.txs[id := Advanced(m, id)]) else m
    case End(id) => m.(txs := m.txs - {id})
  }

  ghost function Run(m: Manager, steps: seq<Step>): Manager
    decreases |steps|
  {
    if steps == [] then m else Run(After(m, steps[0]), steps[1..])
  }

  // ---------- the order is kept ----------

  /** What may be waited for while these locks are held. */
  ghost predicate MayWait(o: Owners, held: set<Lock>, l: Lock) {
    || l in held
    || (if l.DeliveryRow? then QuoteRow(o.delivery(l.delivery)) in held else forall h <- held :: Rank(h) < Rank(l))
  }

  /** Whatever SKIP LOCKED finds, every later wait is in order, and what is locked again is held or was passed over. */
  ghost predicate Ordered(o: Owners, held: set<Lock>, missed: set<Lock>, todo: seq<Request>)
    decreases |todo|
  {
    todo == [] ||
    var l, rest := todo[0].lock, todo[1..];
    match todo[0]
    case Wait(_) => MayWait(o, held, l) && Ordered(o, held + {l}, missed, rest)
    case Skip(_) => !l.DeliveryRow? && Ordered(o, held, missed + {l}, rest) && Ordered(o, held + {l}, missed, rest)
    case TryOrEnd(_) => !l.DeliveryRow? && Ordered(o, held + {l}, missed, rest)
    case Again(_) => l in held + missed && Ordered(o, held, missed, rest)
  }

  ghost predicate Guarded(o: Owners, held: set<Lock>) {
    forall l <- held :: l.DeliveryRow? ==> QuoteRow(o.delivery(l.delivery)) in held
  }

  ghost predicate TxOk(o: Owners, t: Tx) { Ordered(o, t.held, t.missed, t.todo) && Guarded(o, t.held) }

  ghost predicate Exclusive(m: Manager, a: TxId, b: TxId)
    requires a in m.txs && b in m.txs
  {
    a != b ==> m.txs[a].held !! m.txs[b].held
  }

  ghost predicate Inv(m: Manager) {
    && (forall id <- m.txs :: TxOk(m.owners, m.txs[id]))
    && (forall a <- m.txs, b <- m.txs :: Exclusive(m, a, b))
  }

  lemma {:induction false} AuditsAreOrdered(o: Owners, held: set<Lock>, missed: set<Lock>, qs: seq<QuoteId>)
    requires forall i | 0 <= i < |qs| :: QuoteRow(qs[i]) in held + missed
    ensures Ordered(o, held, missed, AuditQuotes(qs))
    decreases |qs|
  {
    if qs != [] {
      assert AuditQuotes(qs)[1..] == AuditQuotes(qs[1..]);
      AuditsAreOrdered(o, held, missed, qs[1..]);
    }
  }

  lemma {:induction false} SkipsAreOrdered(o: Owners, held: set<Lock>, missed: set<Lock>, qs: seq<QuoteId>, audited: seq<QuoteId>)
    requires forall i | 0 <= i < |audited| :: QuoteRow(audited[i]) in held + missed || audited[i] in qs
    ensures Ordered(o, held, missed, SkipQuotes(qs) + AuditQuotes(audited))
    decreases |qs|
  {
    if qs == [] {
      assert SkipQuotes(qs) + AuditQuotes(audited) == AuditQuotes(audited);
      AuditsAreOrdered(o, held, missed, audited);
    } else {
      assert (SkipQuotes(qs) + AuditQuotes(audited))[1..] == SkipQuotes(qs[1..]) + AuditQuotes(audited);
      SkipsAreOrdered(o, held, missed + {QuoteRow(qs[0])}, qs[1..], audited);
      SkipsAreOrdered(o, held + {QuoteRow(qs[0])}, missed, qs[1..], audited);
    }
  }

  lemma {:induction false} DeliveriesAreOrdered(o: Owners, held: set<Lock>, q: QuoteId, ds: seq<DeliveryId>, audited: seq<QuoteId>)
    requires QuoteRow(q) in held && forall i | 0 <= i < |ds| :: o.delivery(ds[i]) == q
    requires forall i | 0 <= i < |audited| :: audited[i] == q
    ensures Ordered(o, held, {}, WaitDeliveries(ds) + AuditQuotes(audited))
    decreases |ds|
  {
    if ds == [] {
      assert WaitDeliveries(ds) + AuditQuotes(audited) == AuditQuotes(audited);
      AuditsAreOrdered(o, held, {}, audited);
    } else {
      assert (WaitDeliveries(ds) + AuditQuotes(audited))[1..] == WaitDeliveries(ds[1..]) + AuditQuotes(audited);
      DeliveriesAreOrdered(o, held + {DeliveryRow(ds[0])}, q, ds[1..], audited);
    }
  }

  lemma CancelIsOrdered(o: Owners, scope: int, q: QuoteId, queued: seq<DeliveryId>)
    requires WellFormed(o, CancelQuote(scope, q, queued))
    ensures Ordered(o, {}, {}, Program(o, CancelQuote(scope, q, queued)))
  {
    var todo := Program(o, CancelQuote(scope, q, queued));
    var tail := WaitDeliveries(queued) + AuditQuotes(seq(|queued| + 1, _ => q));
    assert todo[1..] == [Wait(QuoteRow(q))] + tail && todo[1..][1..] == tail;
    DeliveriesAreOrdered(o, {} + {ScopeLock(scope)} + {QuoteRow(q)}, q, queued, seq(|queued| + 1, _ => q));
  }

  /** At most four fixed requests. */
  lemma FixedIsOrdered(o: Owners, held: set<Lock>, a: Request, rest: seq<Request>)
    requires !a.Skip?
    requires a.Wait? ==> MayWait(o, held, a.lock) && Ordered(o, held + {a.lock}, {}, rest)
    requires a.TryOrEnd? ==> !a.lock.DeliveryRow? && Ordered(o, held + {a.lock}, {}, rest)
    requires a.Again? ==> a.lock in held && Ordered(o, held, {}, rest)
    ensures Ordered(o, held, {}, [a] + rest)
  {
    assert ([a] + rest)[1..] == rest;
  }

  lemma GuardedRowIsOrdered(o: Owners, held: set<Lock>, q: QuoteId, row: Lock)
    requires QuoteRow(q) in held && forall h <- held :: Rank(h) < 2
    requires row.OperationRow? || (row.DeliveryRow? && o.delivery(row.delivery) == q)
    ensures Ordered(o, held, {}, [Wait(row), Again(QuoteRow(q))])
  {
    FixedIsOrdered(o, held + {row}, Again(QuoteRow(q)), []);
    FixedIsOrdered(o, held, Wait(row), [Again(QuoteRow(q))]);
  }

  lemma ProgramsAreOrdered(o: Owners, k: Kind)
    requires WellFormed(o, k)
    ensures Ordered(o, {}, {}, Program(o, k))
  {
    match k
    case CancelQuote(scope, q, queued) => CancelIsOrdered(o, scope, q, queued);
    case ExpiryJob(qs) => SkipsAreOrdered(o, {}, {}, qs, qs);
    case RequestDelivery(scope, q, d) =>
      GuardedRowIsOrdered(o, {} + {ScopeLock(scope)} + {QuoteRow(q)}, q, DeliveryRow(d));
      FixedIsOrdered(o, {} + {ScopeLock(scope)}, Wait(QuoteRow(q)), [Wait(DeliveryRow(d)), Again(QuoteRow(q))]);
      FixedIsOrdered(o, {}, Wait(ScopeLock(scope)), [Wait(QuoteRow(q)), Wait(DeliveryRow(d)), Again(QuoteRow(q))]);
    case EndAttempt(op) =>
      GuardedRowIsOrdered(o, {} + {QuoteRow(o.operation(op))}, o.operation(op), OperationRow(op));
      FixedIsOrdered(o, {}, Wait(QuoteRow(o.operation(op))), [Wait(OperationRow(op)), Again(QuoteRow(o.operation(op)))]);
    case ClaimDelivery(d) =>
      GuardedRowIsOrdered(o, {} + {QuoteRow(o.delivery(d))}, o.delivery(d), DeliveryRow(d));
      FixedIsOrdered(o, {}, TryOrEnd(QuoteRow(o.delivery(d))), [Wait(DeliveryRow(d)), Again(QuoteRow(o.delivery(d)))]);
    case EndDelivery(d) =>
      GuardedRowIsOrdered(o, {} + {QuoteRow(o.delivery(d))}, o.delivery(d), DeliveryRow(d));
      FixedIsOrdered(o, {}, Wait(QuoteRow(o.delivery(d))), [Wait(DeliveryRow(d)), Again(QuoteRow(o.delivery(d)))]);
    case CreateQuote(scope, q) => ScopedQuoteIsOrdered(o, scope, q);
    case CommandOnQuote(scope, q) => ScopedQuoteIsOrdered(o, scope, q);
    case RepeatedKey(scope, q) =>
      FixedIsOrdered(o, {} + {ScopeLock(scope)}, Wait(QuoteRow(q)), []);
      FixedIsOrdered(o, {}, Wait(ScopeLock(scope)), [Wait(QuoteRow(q))]);
    case OperatorRetry(q) =>
      FixedIsOrdered(o, {} + {QuoteRow(q)}, Again(QuoteRow(q)), []);
      FixedIsOrdered(o, {}, Wait(QuoteRow(q)), [Again(QuoteRow(q))]);
    case ClaimOperation(op) =>
    case RenewLease(op) =>
  }

  lemma ScopedQuoteIsOrdered(o: Owners, scope: int, q: QuoteId)
    ensures Ordered(o, {}, {}, [Wait(ScopeLock(scope)), Wait(QuoteRow(q)), Again(QuoteRow(q))])
  {
    FixedIsOrdered(o, {} + {ScopeLock(scope)} + {QuoteRow(q)}, Again(QuoteRow(q)), []);
    FixedIsOrdered(o, {} + {ScopeLock(scope)}, Wait(QuoteRow(q)), [Again(QuoteRow(q))]);
    FixedIsOrdered(o, {}, Wait(ScopeLock(scope)), [Wait(QuoteRow(q)), Again(QuoteRow(q))]);
  }

  lemma ProceedKeepsInv(m: Manager, id: TxId)
    requires Inv(m) && id in m.txs
    ensures Inv(After(m, Proceed(id)))
  {
    var after, t := After(m, Proceed(id)), Advanced(m, id);
    assert TxOk(m.owners, m.txs[id]);
    assert TxOk(m.owners, t);
    forall a <- after.txs, b <- after.txs ensures Exclusive(after, a, b) {
      assert Exclusive(m, a, b);
      var taken := if m.txs[id].todo == [] then {} else {m.txs[id].todo[0].lock};
      assert t.held <= m.txs[id].held + taken;
    }
  }

  lemma StepKeepsInv(m: Manager, step: Step)
    requires Inv(m)
    ensures Inv(After(m, step))
  {
    var after := After(m, step);
    match step
    case Begin(id, kind) =>
      if id !in m.txs && WellFormed(m.owners, kind) {
        ProgramsAreOrdered(m.owners, kind);
        forall a <- after.txs, b <- after.txs ensures Exclusive(after, a, b) {
          if a != id && b != id { assert Exclusive(m, a, b); }
        }
      }
    case Proceed(id) => if id in m.txs { ProceedKeepsInv(m, id); }
    case End(id) =>
      forall a <- after.txs, b <- after.txs ensures Exclusive(after, a, b) { assert Exclusive(m, a, b); }
  }

  lemma {:induction false} RunKeepsInv(m: Manager, steps: seq<Step>)
    requires Inv(m)
    ensures Inv(Run(m, steps))
    decreases |steps|
  {
    if steps != [] {
      StepKeepsInv(m, steps[0]);
      RunKeepsInv(After(m, steps[0]), steps[1..]);
    }
  }

  // ---------- no deadlock ----------

  /** Whoever holds a lock somebody waits for can itself only wait for a later one. */
  lemma WaitsClimb(m: Manager, a: TxId, b: TxId, c: TxId)
    requires Inv(m) && WaitsFor(m, a, b) && WaitsFor(m, b, c)
    ensures Rank(m.txs[a].todo[0].lock) < Rank(m.txs[b].todo[0].lock) <= 2
  {
    assert Exclusive(m, a, b) && Exclusive(m, b, c);
    assert TxOk(m.owners, m.txs[a]) && TxOk(m.owners, m.txs[b]) && TxOk(m.owners, m.txs[c]);
  }

  /** A path of the wait-for graph. */
  predicate Path(m: Manager, path: seq<TxId>) {
    |path| > 0 && forall i | 0 <= i < |path| - 1 :: WaitsFor(m, path[i], path[i + 1])
  }

  lemma {:induction false} RanksGrowAlong(m: Manager, path: seq<TxId>, c: TxId)
    requires Inv(m) && Path(m, path) && WaitsFor(m, path[|path| - 1], c)
    ensures WaitsFor(m, path[0], if |path| > 1 then path[1] else c)
    ensures Rank(m.txs[path[0]].todo[0].lock) + |path| - 1 <= Rank(m.txs[path[|path| - 1]].todo[0].lock)
    decreases |path|
  {
    if |path| > 1 {
      var rest := path[1..];
      forall i | 0 <= i < |rest| - 1 ensures WaitsFor(m, rest[i], rest[i + 1]) { assert WaitsFor(m, path[i + 1], path[i + 1 + 1]); }
      RanksGrowAlong(m, rest, c);
      assert WaitsFor(m, path[0], path[1]);
      WaitsClimb(m, path[0], path[1], if |rest| > 1 then rest[1] else c);
    }
  }

  ghost predicate Reachable(m: Manager) { exists o, steps :: m == Run(Manager(o, map[]), steps) }

  lemma ReachableInv(m: Manager)
    requires Reachable(m)
    ensures Inv(m)
  {
    var o, steps :| m == Run(Manager(o, map[]), steps);
    RunKeepsInv(Manager(o, map[]), steps);
  }

  /**
   * A row a transaction locks again, to append its audit entry, is one it holds already; the only other
   * case is a row the expiry job passed over, for which that statement is not reached. So it never waits.
   */
  lemma LockedAgainIsHeld(m: Manager, id: TxId)
    requires Reachable(m) && id in m.txs && m.txs[id].todo != [] && m.txs[id].todo[0].Again?
    ensures m.txs[id].todo[0].lock in m.txs[id].held + m.txs[id].missed
    ensures m.txs[id].todo[0].lock in m.txs[id].held ==> !HeldByOther(m, id, m.txs[id].todo[0].lock)
  {
    ReachableInv(m);
    assert TxOk(m.owners, m.txs[id]);
    forall other | other in m.txs && other != id ensures m.txs[other].held !! m.txs[id].held { assert Exclusive(m, id, other); }
  }

  /**
   * Deadlock freedom: with any number of transactions, in every reachable state, no path of the
   * wait-for graph closes into a cycle, and no path has more than three waiting transactions.
   */
  lemma NoDeadlock(m: Manager, path: seq<TxId>, last: TxId)
    requires Reachable(m) && Path(m, path) && WaitsFor(m, path[|path| - 1], last)
    ensures |path| <= 3 && last !in path
  {
    ReachableInv(m);
    RanksGrowAlong(m, path, last);
    if last in path {
      var i :| 0 <= i < |path| && path[i] == last;
      var cycle := path[i..];
      forall j | 0 <= j < |cycle| - 1 ensures WaitsFor(m, cycle[j], cycle[j + 1]) { assert WaitsFor(m, path[i + j], path[i + j + 1]); }
      RanksGrowAlong(m, cycle, last);
      WaitsClimb(m, path[|path| - 1], last, if |cycle| > 1 then cycle[1] else last);
    }
  }

  /** Every blocked transaction waits, directly or through others, for one that can proceed. */
  lemma {:induction false} SomebodyCanProceed(m: Manager, path: seq<TxId>)
    requires Reachable(m) && Path(m, path) && |path| <= 4
    ensures exists more :: path <= more && Path(m, more) && !Blocked(m, more[|more| - 1])
    decreases 4 - |path|
  {
    if Blocked(m, path[|path| - 1]) {
      var next :| WaitsFor(m, path[|path| - 1], next);
      NoDeadlock(m, path, next);
      var longer := path + [next];
      assert forall i | 0 <= i < |longer| - 1 :: WaitsFor(m, longer[i], longer[i + 1]);
      SomebodyCanProceed(m, longer);
    }
  }
}
