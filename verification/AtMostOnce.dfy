/**
 * At-most-once email. No delivery is handed to the provider again after a call the provider
 * may have accepted, provided the ambiguous-claim branch never adopts a row for which this
 * process already made such a call, or has an unresolved completion that would queue it again.
 * The condition is exact: an adoption that violates it can be followed by a second call.
 */
module AtMostOnce {
  import opened Wrappers
  import opened CommercialSnapshot
  import opened Rows
  import opened Transactions
  import opened Service
  import Deliveries
  import Expiry
  import Commands
  import CellInvariants
  import Guarantees
  import ServiceSafety

  /** The provider may have accepted the message: anything but a provable refusal. */
  predicate MayHaveAccepted(o: Deliveries.Outcome) { !o.NotAccepted? }

  // ---------- how one delivery row moves ----------

  /** A claim at instant t would take the row and hand it to a worker. */
  predicate Offers(c: Cell, id: DeliveryId, t: nat) {
    Deliveries.DeliveryDue(c, id, t) && Expiry.EffectiveExpiry(c.quote, t).status == Issued
  }

  /** Every way one transaction can move the row of a delivery. */
  ghost predicate Moves(c: Cell, after: Cell, tx: Tx, now: nat, id: DeliveryId) {
    if id !in c.deliveries then id in after.deliveries ==> after.deliveries[id].status == Queued
    else
      && id in after.deliveries
      && var d, e := c.deliveries[id], after.deliveries[id];
        || e == d
        || (d.status == Queued && e.status == Undelivered)
        || (d.status == Queued && e.status == Sending && Offers(c, id, now))
        || (d.status == Sending && e.status == Unknown)
        || (d.status == Sending && tx.CompleteDelivery? && tx.deliveryFence.delivery == id
            && Deliveries.FenceHolds(c, tx.deliveryFence) && after == Deliveries.CompleteDelivery(c, tx.deliveryFence, tx.outcome, now).0
            && e.status != Sending)
  }

  lemma RowsMove(cfg: Config, c: Cell, tx: Tx, now: nat, id: DeliveryId)
    ensures Moves(c, Apply(cfg, c, tx, now).0, tx, now, id)
  {
    if tx.CancelQuote? { CancelMoves(c, tx.principal, tx.cancel, now, id); }
    else if !CellInvariants.WritesDeliveries(tx) { assert Apply(cfg, c, tx, now).0.deliveries == c.deliveries; }
  }

  lemma CancelMoves(c: Cell, principal: Principal, request: Commands.CancelRequest, now: nat, id: DeliveryId)
    ensures Moves(c, Commands.CancelQuote(c, principal, request, now).0, CancelQuote(principal, request), now, id)
  {
  }

  /** Once a quote with deliveries is not effectively issued at t, no transaction makes it so. */
  lemma NeverReopens(cfg: Config, c: Cell, tx: Tx, now: nat, t: nat)
    requires CellInvariants.Lifecycle(c) && c.deliveries != map[]
    ensures Expiry.EffectiveExpiry(Apply(cfg, c, tx, now).0.quote, t).status == Issued ==> Expiry.EffectiveExpiry(c.quote, t).status == Issued
  {
    Guarantees.EndingsAbsorb(cfg, c, tx, now);
    if !tx.UpdateDraft? && !tx.IssueDraft? { CellInvariants.SnapshotStays(cfg, c, tx, now); }
  }

  // ---------- invariant ----------

  /** A worker that may still call the provider or record an outcome under this fence. */
  predicate Acting(p: Mailer) { p.Preparing? || p.Ready? || p.Recording? }

  /** An acting worker that knows the provider did not accept its message, or never called. */
  predicate Unsent(p: Mailer) { p.Preparing? || p.Ready? || (p.Recording? && !MayHaveAccepted(p.outcome)) }

  predicate SameDelivery(q: QuoteId, f: DeliveryFence, call: Call) { call.quote == q && call.fence.delivery == f.delivery }

  /** The provider may hold a message of this delivery. */
  ghost predicate Risky(s: System, q: QuoteId, f: DeliveryFence) {
    exists i :: 0 <= i < |s.calls| && SameDelivery(q, f, s.calls[i]) && MayHaveAccepted(s.calls[i].outcome)
  }

  /** The row is out of `sending` and no transaction that can still apply would hand it out. */
  ghost predicate Settled(s: System, q: QuoteId, id: DeliveryId) {
    && q in s.cells && id in s.cells[q].deliveries
    && s.cells[q].deliveries[id].status != Sending
    && (forall t | t >= s.clock || (q in s.doubts && t == s.doubts[q].now) :: !Offers(s.cells[q], id, t))
  }

  ghost predicate CurrentOrSettled(s: System, q: QuoteId, f: DeliveryFence) {
    (q in s.cells && Deliveries.FenceHolds(s.cells[q], f)) || Settled(s, q, f.delivery)
  }

  ghost predicate ActorOk(s: System, w: Owner) {
    var p := MailerOf(s, w);
    Acting(p) ==>
      && p.fence.owner == w
      && CurrentOrSettled(s, p.quote, p.fence)
      && (Unsent(p) ==> !Risky(s, p.quote, p.fence))
  }

  /** At most one worker acts on a delivery. */
  ghost predicate OneActor(s: System, w: Owner, w2: Owner) {
    var p, p2 := MailerOf(s, w), MailerOf(s, w2);
    Acting(p) && Acting(p2) && p.quote == p2.quote && p.fence.delivery == p2.fence.delivery ==> w == w2
  }

  /** A call the provider may have accepted: its row is still under its fence, or never handed out again. */
  ghost predicate CallOk(s: System, i: nat)
    requires i < |s.calls|
  {
    MayHaveAccepted(s.calls[i].outcome) ==> CurrentOrSettled(s, s.calls[i].quote, s.calls[i].fence)
  }

  predicate ActsOn(p: Mailer, q: QuoteId, f: DeliveryFence) {
    Acting(p) && p.quote == q && p.fence.delivery == f.delivery
  }

  /** A completion that would apply and queue the row for an attempt that can still happen. */
  ghost predicate Reopens(s: System, q: QuoteId, change: Change, now: nat) {
    && change.Existing? && change.tx.CompleteDelivery? && q in s.cells
    && Deliveries.FenceHolds(s.cells[q], change.tx.deliveryFence)
    && var after := Deliveries.CompleteDelivery(s.cells[q], change.tx.deliveryFence, change.tx.outcome, now).0;
      exists t :: t >= s.clock && Offers(after, change.tx.deliveryFence.delivery, t)
  }

  /** Nobody acts on a fence, and nothing risky is known of its delivery. */
  ghost predicate Untouched(s: System, q: QuoteId, f: DeliveryFence) {
    (forall w :: !ActsOn(MailerOf(s, w), q, f)) && !Risky(s, q, f)
  }

  /** Such a completion is the last word of its fence: nobody acts on it, and nothing risky is known of it. */
  ghost predicate LastWord(s: System, q: QuoteId, change: Change, now: nat) {
    Reopens(s, q, change, now) ==> Untouched(s, q, change.tx.deliveryFence)
  }

  ghost predicate DoubtOk(s: System, q: QuoteId)
    requires q in s.doubts
  {
    LastWord(s, q, s.doubts[q].change, s.doubts[q].now)
  }

  /** Nothing is sent after a call the provider may have accepted. */
  ghost predicate NeverResent(s: System) {
    forall i, j | 0 <= i < j < |s.calls| && s.calls[i].quote == s.calls[j].quote
                  && s.calls[i].fence.delivery == s.calls[j].fence.delivery ::
      !MayHaveAccepted(s.calls[i].outcome)
  }

  ghost predicate MailInv(s: System) {
    && (forall w :: ActorOk(s, w))
    && (forall w, w2 :: OneActor(s, w, w2))
    && (forall i | 0 <= i < |s.calls| :: CallOk(s, i))
    && (forall q <- s.doubts :: DoubtOk(s, q))
    && NeverResent(s)
  }

  // ---------- the hypothesis ----------

  /** A possibly accepted call was made under this fence, or a completion in doubt would queue its row again. */
  ghost predicate Unclean(s: System, q: QuoteId, f: DeliveryFence) {
    || (exists i :: 0 <= i < |s.calls| && s.calls[i].quote == q && s.calls[i].fence == f && MayHaveAccepted(s.calls[i].outcome))
    || (q in s.doubts && Reopens(s, q, s.doubts[q].change, s.doubts[q].now) && s.doubts[q].change.tx.deliveryFence == f)
  }

  /** What the adopting process can check: its own calls, and its own unresolved completion. */
  ghost predicate CleanAdoption(s: System, step: Step) {
    step.MailAdopt? && step.adopted.Some? && step.adopted.value.0 in s.cells
    && step.adopted.value.1 in s.cells[step.adopted.value.0].deliveries ==>
      var (q, d) := step.adopted.value;
      var f := DeliveryFence(d, s.cells[q].deliveries[d].generation, step.worker);
      !Unclean(s, q, f)
  }

  /** Every adoption of the run is clean. */
  ghost predicate CleanRun(cfg: Config, s: System, steps: seq<Step>)
    decreases |steps|
  {
    steps == [] || (CleanAdoption(s, steps[0]) && CleanRun(cfg, After(cfg, s, steps[0]), steps[1..]))
  }

  // ---------- actors come and go ----------

  lemma DropActor(s: System, w: Owner, p: Mailer)
    requires MailInv(s) && !Acting(p)
    ensures MailInv(WithMailer(s, w, p))
  {
    var after := WithMailer(s, w, p);
    assert forall x | x != w :: MailerOf(after, x) == MailerOf(s, x);
    forall x ensures ActorOk(after, x) { assert ActorOk(s, x); }
    forall x, y ensures OneActor(after, x, y) { assert OneActor(s, x, y); }
    forall i | 0 <= i < |after.calls| ensures CallOk(after, i) { assert CallOk(s, i); }
    forall q <- after.doubts ensures DoubtOk(after, q) { assert DoubtOk(s, q); }
  }

  /** An acting worker moves on under the same fence without becoming less certain. */
  lemma StepActor(s: System, w: Owner, p: Mailer)
    requires MailInv(s) && Acting(p) && Acting(MailerOf(s, w))
    requires p.quote == MailerOf(s, w).quote && p.fence == MailerOf(s, w).fence
    requires Unsent(p) ==> Unsent(MailerOf(s, w))
    ensures MailInv(WithMailer(s, w, p))
  {
    var after := WithMailer(s, w, p);
    assert forall x | x != w :: MailerOf(after, x) == MailerOf(s, x);
    forall x ensures ActorOk(after, x) { assert ActorOk(s, x); }
    forall x, y ensures OneActor(after, x, y) { assert OneActor(s, x, y); }
    forall i | 0 <= i < |after.calls| ensures CallOk(after, i) { assert CallOk(s, i); }
    forall q <- after.doubts ensures DoubtOk(after, q) { assert DoubtOk(s, q); }
  }

  lemma NewActor(s: System, w: Owner, q: QuoteId, f: DeliveryFence)
    requires MailInv(s) && !Acting(MailerOf(s, w)) && f.owner == w
    requires q in s.cells && Deliveries.FenceHolds(s.cells[q], f)
    requires Untouched(s, q, f)
    requires q in s.doubts && Reopens(s, q, s.doubts[q].change, s.doubts[q].now) ==> s.doubts[q].change.tx.deliveryFence != f
    ensures MailInv(WithMailer(s, w, Preparing(q, f)))
  {
    var after := WithMailer(s, w, Preparing(q, f));
    assert forall x | x != w :: MailerOf(after, x) == MailerOf(s, x);
    forall x ensures ActorOk(after, x) { assert ActorOk(s, x); }
    forall x, y ensures OneActor(after, x, y) { assert OneActor(s, x, y); }
    forall i | 0 <= i < |after.calls| ensures CallOk(after, i) { assert CallOk(s, i); }
    forall r <- after.doubts ensures DoubtOk(after, r) { assert DoubtOk(s, r); }
  }

  lemma CallAdded(s: System, after: System, call: Call, q: QuoteId, f: DeliveryFence)
    requires after.calls == s.calls + [call]
    ensures Risky(after, q, f) ==> Risky(s, q, f) || (SameDelivery(q, f, call) && MayHaveAccepted(call.outcome))
  {
    if Risky(after, q, f) {
      var i :| 0 <= i < |after.calls| && SameDelivery(q, f, after.calls[i]) && MayHaveAccepted(after.calls[i].outcome);
      assert after.calls[i] == if i < |s.calls| then s.calls[i] else call;
    }
  }

  /** The row of a delivery the provider may hold a message of is settled, or still under the fence of that call. */
  lemma RiskyRow(s: System, q: QuoteId, f: DeliveryFence)
    requires MailInv(s) && Risky(s, q, f)
    ensures Settled(s, q, f.delivery) ||
            exists i :: 0 <= i < |s.calls| && SameDelivery(q, f, s.calls[i]) && MayHaveAccepted(s.calls[i].outcome)
                        && q in s.cells && Deliveries.FenceHolds(s.cells[q], s.calls[i].fence)
  {
    var i :| 0 <= i < |s.calls| && SameDelivery(q, f, s.calls[i]) && MayHaveAccepted(s.calls[i].outcome);
    assert CallOk(s, i);
  }

  /** The call itself: nothing risky was known of this delivery, and only this worker acts on it. */
  lemma SendKeeps(s: System, w: Owner, outcome: Deliveries.Outcome)
    requires MailInv(s) && MailerOf(s, w).Ready?
    ensures var p := MailerOf(s, w);
            MailInv(WithMailer(s.(calls := s.calls + [Call(p.quote, p.fence, outcome, p.pdf)]), w, Recording(p.quote, p.fence, outcome)))
  {
    var p := MailerOf(s, w);
    var call := Call(p.quote, p.fence, outcome, p.pdf);
    var after := WithMailer(s.(calls := s.calls + [call]), w, Recording(p.quote, p.fence, outcome));
    assert ActorOk(s, w) && !Risky(s, p.quote, p.fence);
    assert forall x | x != w :: MailerOf(after, x) == MailerOf(s, x);
    forall q, f ensures Risky(after, q, f) ==> Risky(s, q, f) || (SameDelivery(q, f, call) && MayHaveAccepted(outcome)) {
      CallAdded(s, after, call, q, f);
    }
    forall x ensures ActorOk(after, x) { assert ActorOk(s, x) && OneActor(s, x, w); }
    forall x, y ensures OneActor(after, x, y) { assert OneActor(s, x, y); }
    forall i | 0 <= i < |after.calls| ensures CallOk(after, i) {
      if i < |s.calls| { assert CallOk(s, i); }
    }
    forall q <- after.doubts ensures DoubtOk(after, q) {
      assert DoubtOk(s, q);
      if Reopens(s, q, s.doubts[q].change, s.doubts[q].now) { assert !ActsOn(MailerOf(s, w), q, s.doubts[q].change.tx.deliveryFence); }
    }
    forall i, j | 0 <= i < j < |after.calls| && after.calls[i].quote == after.calls[j].quote
                  && after.calls[i].fence.delivery == after.calls[j].fence.delivery
      ensures !MayHaveAccepted(after.calls[i].outcome)
    {
      assert after.calls[i] == s.calls[i];
      if j == |s.calls| { assert SameDelivery(p.quote, p.fence, s.calls[i]); }
    }
  }

  // ---------- transactions ----------

  lemma TransactMoves(cfg: Config, cells: map<QuoteId, Cell>, q: QuoteId, change: Change, now: nat)
    ensures var after := Transact(cfg, cells, q, change, now).0;
            && (forall x | x != q :: (x in after <==> x in cells) && (x in cells ==> after[x] == cells[x]))
            && (q in cells ==> q in after)
            && (q in cells && change.Existing? ==> after[q] == Apply(cfg, cells[q], change.tx, now).0)
            && (q in cells && !change.Existing? ==> after[q] == cells[q])
  {
  }

  /** The system after a transaction applied and whatever was in doubt on its quote is resolved. */
  ghost function Landed(cfg: Config, s: System, q: QuoteId, change: Change, now: nat): System {
    s.(doubts := s.doubts - {q}, cells := Transact(cfg, s.cells, q, change, now).0)
  }

  ghost predicate Lands(s: System, q: QuoteId, change: Change, now: nat) {
    if q in s.doubts then s.doubts[q] == Doubt(change, now) else now == s.clock
  }

  /** A settled row stays settled. */
  lemma SettledStays(cfg: Config, s: System, q: QuoteId, change: Change, now: nat, r: QuoteId, id: DeliveryId)
    requires ServiceSafety.TablesOk(cfg, s) && Lands(s, q, change, now) && Settled(s, r, id)
    ensures Settled(Landed(cfg, s, q, change, now), r, id)
  {
    TransactMoves(cfg, s.cells, q, change, now);
    if r == q && change.Existing? {
      assert ServiceSafety.CellOk(cfg, q, s.cells[q]);
      RowsMove(cfg, s.cells[q], change.tx, now, id);
      assert !Offers(s.cells[q], id, now);
      var after := Landed(cfg, s, q, change, now);
      forall t | t >= s.clock ensures !Offers(after.cells[q], id, t) {
        assert !Offers(s.cells[q], id, t);
        NeverReopens(cfg, s.cells[q], change.tx, now, t);
      }
    }
  }

  /** A current fence stays current, or its row settles, unless a completion queues the row again. */
  lemma FenceMoves(cfg: Config, s: System, q: QuoteId, change: Change, now: nat, r: QuoteId, f: DeliveryFence)
    requires Lands(s, q, change, now) && r in s.cells && Deliveries.FenceHolds(s.cells[r], f)
    requires Reopens(s, q, change, now) ==> r != q || change.tx.deliveryFence.delivery != f.delivery
    ensures CurrentOrSettled(Landed(cfg, s, q, change, now), r, f)
  {
    TransactMoves(cfg, s.cells, q, change, now);
    if r == q && change.Existing? { RowsMove(cfg, s.cells[q], change.tx, now, f.delivery); }
  }

  lemma CurrentOrSettledStays(cfg: Config, s: System, q: QuoteId, change: Change, now: nat, r: QuoteId, f: DeliveryFence)
    requires ServiceSafety.TablesOk(cfg, s) && Lands(s, q, change, now) && CurrentOrSettled(s, r, f)
    requires Reopens(s, q, change, now) ==> r != q || change.tx.deliveryFence.delivery != f.delivery
    ensures CurrentOrSettled(Landed(cfg, s, q, change, now), r, f)
  {
    if Settled(s, r, f.delivery) { SettledStays(cfg, s, q, change, now, r, f.delivery); }
    else { FenceMoves(cfg, s, q, change, now, r, f); }
  }

  lemma RiskyIsPerDelivery(s: System, q: QuoteId, f: DeliveryFence, g: DeliveryFence)
    ensures f.delivery == g.delivery ==> Risky(s, q, f) == Risky(s, q, g)
  {
    if f.delivery == g.delivery { assert forall call :: SameDelivery(q, f, call) == SameDelivery(q, g, call); }
  }

  lemma LandKeepsActor(cfg: Config, s: System, q: QuoteId, change: Change, now: nat, w: Owner)
    requires ServiceSafety.TablesOk(cfg, s) && Lands(s, q, change, now) && LastWord(s, q, change, now) && ActorOk(s, w)
    ensures ActorOk(Landed(cfg, s, q, change, now), w)
  {
    var p := MailerOf(s, w);
    assert MailerOf(Landed(cfg, s, q, change, now), w) == p;
    if Acting(p) {
      assert Reopens(s, q, change, now) ==> !ActsOn(p, q, change.tx.deliveryFence);
      CurrentOrSettledStays(cfg, s, q, change, now, p.quote, p.fence);
      assert Risky(Landed(cfg, s, q, change, now), p.quote, p.fence) == Risky(s, p.quote, p.fence);
    }
  }

  lemma LandKeepsCall(cfg: Config, s: System, q: QuoteId, change: Change, now: nat, i: nat)
    requires ServiceSafety.TablesOk(cfg, s) && Lands(s, q, change, now) && LastWord(s, q, change, now)
    requires i < |s.calls| && CallOk(s, i)
    ensures CallOk(Landed(cfg, s, q, change, now), i)
  {
    var call := s.calls[i];
    if MayHaveAccepted(call.outcome) {
      assert SameDelivery(call.quote, call.fence, call) && Risky(s, call.quote, call.fence);
      if Reopens(s, q, change, now) { RiskyIsPerDelivery(s, q, call.fence, change.tx.deliveryFence); }
      CurrentOrSettledStays(cfg, s, q, change, now, call.quote, call.fence);
    }
  }

  lemma LandKeepsDoubt(cfg: Config, s: System, q: QuoteId, change: Change, now: nat, r: QuoteId)
    requires r in s.doubts && r != q && DoubtOk(s, r)
    ensures DoubtOk(Landed(cfg, s, q, change, now), r)
  {
    var after := Landed(cfg, s, q, change, now);
    TransactMoves(cfg, s.cells, q, change, now);
    assert forall x :: MailerOf(after, x) == MailerOf(s, x);
  }

  /** A transaction applies: fences stay current or their rows settle. */
  lemma LandKeeps(cfg: Config, s: System, q: QuoteId, change: Change, now: nat)
    requires ServiceSafety.TablesOk(cfg, s) && MailInv(s) && Lands(s, q, change, now) && LastWord(s, q, change, now)
    ensures MailInv(Landed(cfg, s, q, change, now))
  {
    var after := Landed(cfg, s, q, change, now);
    forall x ensures ActorOk(after, x) { LandKeepsActor(cfg, s, q, change, now, x); }
    forall x, y ensures OneActor(after, x, y) { assert OneActor(s, x, y); }
    forall i | 0 <= i < |after.calls| ensures CallOk(after, i) { LandKeepsCall(cfg, s, q, change, now, i); }
    forall r <- after.doubts ensures DoubtOk(after, r) { LandKeepsDoubt(cfg, s, q, change, now, r); }
  }

  /** Only the tables, the doubts, the delivery workers and the calls matter here. */
  lemma MailInvCarries(s: System, after: System)
    requires MailInv(s)
    requires after.cells == s.cells && after.doubts == s.doubts && after.mailers == s.mailers && after.calls == s.calls && after.clock == s.clock
    ensures MailInv(after)
  {
    assert forall x :: MailerOf(after, x) == MailerOf(s, x);
    forall x ensures ActorOk(after, x) { assert ActorOk(s, x); }
    forall x, y ensures OneActor(after, x, y) { assert OneActor(s, x, y); }
    forall i | 0 <= i < |after.calls| ensures CallOk(after, i) { assert CallOk(s, i); }
    forall q <- after.doubts ensures DoubtOk(after, q) { assert DoubtOk(s, q); }
  }

  lemma DoubtKeeps(s: System, q: QuoteId, doubt: Doubt)
    requires MailInv(s) && LastWord(s, q, doubt.change, doubt.now) && q !in s.doubts && doubt.now == s.clock
    ensures MailInv(s.(doubts := s.doubts[q := doubt]))
  {
    var after := s.(doubts := s.doubts[q := doubt]);
    assert forall x :: MailerOf(after, x) == MailerOf(s, x);
    forall x ensures ActorOk(after, x) { assert ActorOk(s, x); }
    forall x, y ensures OneActor(after, x, y) { assert OneActor(s, x, y); }
    forall i | 0 <= i < |after.calls| ensures CallOk(after, i) { assert CallOk(s, i); }
    forall r <- after.doubts ensures DoubtOk(after, r) { if r != q { assert DoubtOk(s, r); } }
  }

  /** A COMMIT in doubt turns out to be lost. */
  lemma ForgetDoubtKeeps(s: System, q: QuoteId)
    requires MailInv(s)
    ensures MailInv(s.(doubts := s.doubts - {q}))
  {
    var after := s.(doubts := s.doubts - {q});
    assert forall x :: MailerOf(after, x) == MailerOf(s, x);
    forall x ensures ActorOk(after, x) { assert ActorOk(s, x); }
    forall x, y ensures OneActor(after, x, y) { assert OneActor(s, x, y); }
    forall i | 0 <= i < |after.calls| ensures CallOk(after, i) { assert CallOk(s, i); }
    forall r <- after.doubts ensures DoubtOk(after, r) { assert DoubtOk(s, r); }
  }

  lemma AdvanceKeeps(s: System, ms: nat)
    requires MailInv(s)
    ensures MailInv(s.(clock := s.clock + ms))
  {
    var after := s.(clock := s.clock + ms);
    assert forall x :: MailerOf(after, x) == MailerOf(s, x);
    forall x ensures ActorOk(after, x) { assert ActorOk(s, x); }
    forall x, y ensures OneActor(after, x, y) { assert OneActor(s, x, y); }
    forall i | 0 <= i < |after.calls| ensures CallOk(after, i) { assert CallOk(s, i); }
    forall r <- after.doubts ensures DoubtOk(after, r) { assert DoubtOk(s, r); }
  }

  lemma CommitKeeps(cfg: Config, s: System, x: Submission)
    requires ServiceSafety.TablesOk(cfg, s) && MailInv(s) && x.quote !in s.doubts && LastWord(s, x.quote, x.change, s.clock)
    ensures MailInv(Commit(cfg, s, x).0)
  {
    match x.ending
    case UnansweredLost =>
    case UnansweredPending => DoubtKeeps(s, x.quote, Doubt(x.change, s.clock));
    case _ =>
      assert s.doubts - {x.quote} == s.doubts;
      LandKeeps(cfg, s, x.quote, x.change, s.clock);
  }

  // ---------- steps ----------

  /** A claimed row was on offer, so nobody acted on it and nothing risky was known of it. */
  lemma ClaimedWasOffered(cfg: Config, c: Cell, d: DeliveryId, w: Owner, now: nat)
    ensures var (after, reply) := Deliveries.ClaimDelivery(cfg, c, d, w, now);
            reply.DeliveryClaimed? ==>
              && Offers(c, d, now)
              && reply.fence.delivery == d && reply.fence.owner == w && Deliveries.FenceHolds(after, reply.fence)
  {
  }

  lemma OfferedIsUntouched(s: System, q: QuoteId, f: DeliveryFence)
    requires MailInv(s) && q in s.cells && Offers(s.cells[q], f.delivery, s.clock)
    ensures Untouched(s, q, f)
  {
    assert !Settled(s, q, f.delivery);
    if Risky(s, q, f) { RiskyRow(s, q, f); }
    forall w ensures !ActsOn(MailerOf(s, w), q, f) { assert ActorOk(s, w); }
  }

  /** An answered claim took an offered row, and its fence holds in the rows it leaves. */
  ghost predicate ClaimsOffered(s: System, committed: System, w: Owner, q: QuoteId, d: DeliveryId, ending: Ending, reply: Reply) {
    && committed.mailers == s.mailers && committed.calls == s.calls
    && (ending.Answered? && reply.DeliveryClaimed? ==>
          && q in s.cells && Offers(s.cells[q], d, s.clock)
          && reply.fence.delivery == d && reply.fence.owner == w
          && q in committed.cells && Deliveries.FenceHolds(committed.cells[q], reply.fence) && q !in committed.doubts)
  }

  lemma ClaimCommits(cfg: Config, s: System, w: Owner, q: QuoteId, d: DeliveryId, ending: Ending)
    requires q !in s.doubts
    ensures var (committed, reply) := Commit(cfg, s, Submission(q, Existing(ClaimDelivery(d, w)), ending));
            ClaimsOffered(s, committed, w, q, d, ending, reply)
  {
    if q in s.cells { ClaimedWasOffered(cfg, s.cells[q], d, w, s.clock); }
  }

  /** The rows a claim leaves, before the worker hears of it. */
  lemma ClaimedKeeps(cfg: Config, s: System, w: Owner, q: QuoteId, d: DeliveryId, ending: Ending)
    requires ServiceSafety.TablesOk(cfg, s) && MailInv(s) && q !in s.doubts
    ensures MailInv(Commit(cfg, s, Submission(q, Existing(ClaimDelivery(d, w)), ending)).0)
  {
    CommitKeeps(cfg, s, Submission(q, Existing(ClaimDelivery(d, w)), ending));
  }

  lemma MailClaimKeeps(cfg: Config, s: System, w: Owner, q: QuoteId, d: DeliveryId, ending: Ending)
    requires ServiceSafety.TablesOk(cfg, s) && MailInv(s)
    ensures MailInv(After(cfg, s, MailClaim(w, q, d, ending)))
  {
    if MailerFree(MailerOf(s, w)) && q !in s.doubts {
      ClaimedKeeps(cfg, s, w, q, d, ending);
      ClaimCommits(cfg, s, w, q, d, ending);
      var (committed, reply) := Commit(cfg, s, Submission(q, Existing(ClaimDelivery(d, w)), ending));
      HearsOfClaim(s, committed, w, q, d, ending, reply);
    }
  }

  lemma HearsOfClaim(s: System, committed: System, w: Owner, q: QuoteId, d: DeliveryId, ending: Ending, reply: Reply)
    requires MailInv(s) && MailInv(committed) && MailerFree(MailerOf(s, w))
    requires ClaimsOffered(s, committed, w, q, d, ending, reply)
    ensures MailInv(Observe(committed, MailClaim(w, q, d, ending), Submission(q, Existing(ClaimDelivery(d, w)), ending), reply))
  {
    assert forall y :: MailerOf(committed, y) == MailerOf(s, y);
    if ending.Answered? && reply.DeliveryClaimed? {
      OfferedIsUntouched(s, q, reply.fence);
      assert Risky(committed, q, reply.fence) == Risky(s, q, reply.fence);
      NewActor(committed, w, q, reply.fence);
    } else {
      DropActor(committed, w, if ending.Answered? then MailerIdle else MailClaimInDoubt);
    }
  }

  /** The tables and the answer of a COMMIT do not depend on the delivery workers. */
  lemma CommitIgnoresMailers(cfg: Config, s: System, w: Owner, p: Mailer, x: Submission)
    ensures Commit(cfg, WithMailer(s, w, p), x).0 == WithMailer(Commit(cfg, s, x).0, w, p)
  {
  }

  lemma TablesIgnoreMailers(cfg: Config, s: System, w: Owner, p: Mailer)
    requires ServiceSafety.TablesOk(cfg, s)
    ensures ServiceSafety.TablesOk(cfg, WithMailer(s, w, p))
  {
  }

  /** Recording: the worker lets go first, so its completion is the last word of the fence. */
  lemma RecordKeeps(cfg: Config, s: System, w: Owner, moved: Mailer, x: Submission)
    requires ServiceSafety.TablesOk(cfg, s) && MailInv(s) && MailerOf(s, w).Recording? && !Acting(moved)
    requires x.quote == MailerOf(s, w).quote && x.quote !in s.doubts
    requires x.change == Existing(CompleteDelivery(MailerOf(s, w).fence, MailerOf(s, w).outcome))
    ensures MailInv(WithMailer(Commit(cfg, s, x).0, w, moved))
  {
    DropActor(s, w, moved);
    LetGo(s, w, moved);
    TablesIgnoreMailers(cfg, s, w, moved);
    CommitKeeps(cfg, WithMailer(s, w, moved), x);
    CommitIgnoresMailers(cfg, s, w, moved, x);
  }

  lemma RecordIsCommit(cfg: Config, s: System, w: Owner, ending: Ending)
    requires MailerOf(s, w).Recording? && MailerOf(s, w).quote !in s.doubts
    ensures var p := MailerOf(s, w);
            var (committed, reply) := Commit(cfg, s, Submission(p.quote, Existing(CompleteDelivery(p.fence, p.outcome)), ending));
            After(cfg, s, MailRecord(w, ending)) == WithMailer(committed, w, RecordHeard(p, ending.Answered?, reply))
  {
    assert MailerOf(Commit(cfg, s, Submits(s, MailRecord(w, ending)).value).0, w) == MailerOf(s, w);
  }

  lemma MailRecordKeeps(cfg: Config, s: System, w: Owner, ending: Ending)
    requires ServiceSafety.TablesOk(cfg, s) && MailInv(s)
    ensures MailInv(After(cfg, s, MailRecord(w, ending)))
  {
    var p := MailerOf(s, w);
    if p.Recording? && p.quote !in s.doubts {
      RecordIsCommit(cfg, s, w, ending);
      var x := Submission(p.quote, Existing(CompleteDelivery(p.fence, p.outcome)), ending);
      RecordKeeps(cfg, s, w, RecordHeard(p, ending.Answered?, Commit(cfg, s, x).1), x);
    }
  }

  lemma LetGo(s: System, w: Owner, moved: Mailer)
    requires MailInv(s) && MailerOf(s, w).Recording? && !Acting(moved)
    ensures var p := MailerOf(s, w);
            LastWord(WithMailer(s, w, moved), p.quote, Existing(CompleteDelivery(p.fence, p.outcome)), s.clock)
  {
    var p, released := MailerOf(s, w), WithMailer(s, w, moved);
    assert ActorOk(s, w);
    forall y ensures !ActsOn(MailerOf(released, y), p.quote, p.fence) {
      assert OneActor(s, w, y);
      assert y != w ==> MailerOf(released, y) == MailerOf(s, y);
    }
    if !MayHaveAccepted(p.outcome) { assert !Risky(released, p.quote, p.fence); }
  }

  /** A clean adoption takes a row nobody acts on and no call may have been accepted for. */
  lemma MailAdoptKeeps(cfg: Config, s: System, w: Owner, adopted: Option<(QuoteId, DeliveryId)>)
    requires MailInv(s) && CleanAdoption(s, MailAdopt(w, adopted))
    ensures MailInv(After(cfg, s, MailAdopt(w, adopted)))
  {
    if MailerOf(s, w).MailClaimInDoubt? && AdoptableDelivery(s, w, adopted) {
      if adopted.None? {
        DropActor(s, w, MailerIdle);
      } else {
        var (q, d) := adopted.value;
        var f := DeliveryFence(d, s.cells[q].deliveries[d].generation, w);
        forall y ensures !ActsOn(MailerOf(s, y), q, f) { assert ActorOk(s, y); }
        if Risky(s, q, f) { RiskyRow(s, q, f); }
        NewActor(s, w, q, f);
      }
    }
  }

  lemma MailLocalKeeps(cfg: Config, s: System, step: Step)
    requires MailInv(s) && OfMailer(step) && !step.MailAdopt? && Submits(s, step).None?
    ensures MailInv(MailLocal(cfg, s, step))
  {
    match step
    case MailPrepare(w, ready) =>
      var p := MailerOf(s, w);
      if p.Preparing? {
        var bytes := VerifiedBytes(cfg, s, p.quote, p.fence.delivery);
        StepActor(s, w, if ready && bytes.Some? then Ready(p.quote, p.fence, bytes.value) else Recording(p.quote, p.fence, PREPARATION_FAILED));
      }
    case MailInterrupt(w) =>
      var p := MailerOf(s, w);
      if p.Ready? { StepActor(s, w, Recording(p.quote, p.fence, PREPARATION_FAILED)); }
    case MailSend(w, outcome) => if MailerOf(s, w).Ready? { SendKeeps(s, w, outcome); }
    case MailReconcile(w) =>
      var p := MailerOf(s, w);
      if p.CompletionInDoubt? {
        DropActor(s, w, Finished(p.quote, p.fence,
          if p.quote in s.cells then Deliveries.ReconcileCompletion(s.cells[p.quote], p.fence, p.intended) else None));
      }
    case MailDrop(w) => if MayDrop(MailerOf(s, w)) { DropActor(s, w, MailerIdle); }
    case MailStop(w) => DropActor(s, w, MailerStopped);
    case _ =>
  }

  lemma OthersSubmitNoCompletion(s: System, step: Step)
    requires Submits(s, step).Some? && !step.MailClaim? && !step.MailRecord?
    ensures var x := Submits(s, step).value;
            LastWord(s, x.quote, x.change, s.clock)
    ensures forall committed: System, reply: Reply ::
              var after := Observe(committed, step, Submits(s, step).value, reply);
              after.cells == committed.cells && after.doubts == committed.doubts
              && after.mailers == committed.mailers && after.calls == committed.calls && after.clock == committed.clock
  {
  }

  /** Every other submission leaves the delivery workers where they are. */
  lemma SubmissionKeepsMail(cfg: Config, s: System, step: Step)
    requires ServiceSafety.TablesOk(cfg, s) && MailInv(s) && Submits(s, step).Some? && !step.MailClaim? && !step.MailRecord?
    ensures MailInv(After(cfg, s, step))
  {
    var x := Submits(s, step).value;
    if x.quote !in s.doubts {
      OthersSubmitNoCompletion(s, step);
      CommitKeeps(cfg, s, x);
      var (committed, reply) := Commit(cfg, s, x);
      MailInvCarries(committed, Observe(committed, step, x, reply));
    }
  }

  /** An unresolved COMMIT lands or is lost. */
  lemma ResolveKeepsMail(cfg: Config, s: System, q: QuoteId, lands: bool)
    requires ServiceSafety.TablesOk(cfg, s) && MailInv(s)
    ensures MailInv(After(cfg, s, Resolve(q, lands)))
  {
    if q in s.doubts {
      assert DoubtOk(s, q);
      if lands { LandKeeps(cfg, s, q, s.doubts[q].change, s.doubts[q].now); } else { ForgetDoubtKeeps(s, q); }
    }
  }

  lemma LocalKeepsMail(cfg: Config, s: System, step: Step)
    requires MailInv(s) && Submits(s, step).None? && !step.MailAdopt? && !step.Resolve?
    ensures MailInv(After(cfg, s, step))
  {
    if step.Advance? {
      AdvanceKeeps(s, step.ms);
    } else if OfMailer(step) {
      MailLocalKeeps(cfg, s, step);
    } else {
      ServiceSafety.IssuerLocalIsLocal(cfg, s, step);
      MailInvCarries(s, Local(cfg, s, step));
    }
  }

  lemma StepKeepsMail(cfg: Config, s: System, step: Step)
    requires ServiceSafety.TablesOk(cfg, s) && MailInv(s) && CleanAdoption(s, step)
    ensures MailInv(After(cfg, s, step))
  {
    match step
    case MailClaim(w, q, d, ending) => MailClaimKeeps(cfg, s, w, q, d, ending);
    case MailRecord(w, ending) => MailRecordKeeps(cfg, s, w, ending);
    case MailAdopt(w, adopted) => MailAdoptKeeps(cfg, s, w, adopted);
    case Resolve(q, lands) => ResolveKeepsMail(cfg, s, q, lands);
    case _ => if Submits(s, step).Some? { SubmissionKeepsMail(cfg, s, step); } else { LocalKeepsMail(cfg, s, step); }
  }

  lemma {:induction false} RunKeepsMail(cfg: Config, s: System, steps: seq<Step>)
    requires ServiceSafety.SystemInv(cfg, s) && MailInv(s) && CleanRun(cfg, s, steps)
    ensures MailInv(Run(cfg, s, steps))
    decreases |steps|
  {
    if steps != [] {
      StepKeepsMail(cfg, s, steps[0]);
      ServiceSafety.StepKeepsInv(cfg, s, steps[0]);
      RunKeepsMail(cfg, After(cfg, s, steps[0]), steps[1..]);
    }
  }

  /**
   * At-most-once email: in every run of any number of workers, sweeps, cancels, crashes and
   * unanswered COMMITs whose adoptions are clean, a call the provider may have accepted is the
   * last call of its delivery.
   */
  lemma AtMostOnceEmail(cfg: Config, steps: seq<Step>)
    ensures CleanRun(cfg, INITIAL, steps) ==> NeverResent(Run(cfg, INITIAL, steps))
  {
    if CleanRun(cfg, INITIAL, steps) { CleanRunsKeepMail(cfg, steps); }
  }

  lemma CleanRunsKeepMail(cfg: Config, steps: seq<Step>)
    requires CleanRun(cfg, INITIAL, steps)
    ensures MailInv(Run(cfg, INITIAL, steps)) && ServiceSafety.SystemInv(cfg, Run(cfg, INITIAL, steps))
  {
    assert MailInv(INITIAL);
    RunKeepsMail(cfg, INITIAL, steps);
    ServiceSafety.RunKeepsInv(cfg, INITIAL, steps);
  }

  // ---------- the condition is exact ----------

  /** Some continuation with only clean adoptions hands a delivery to the provider again. */
  ghost predicate CanResend(cfg: Config, s: System) {
    exists more :: CleanRun(cfg, s, more) && !NeverResent(Run(cfg, s, more))
  }

  lemma ResendAfter(cfg: Config, s: System, step: Step)
    requires !step.MailAdopt? && CanResend(cfg, After(cfg, s, step))
    ensures CanResend(cfg, s)
  {
    var more :| CleanRun(cfg, After(cfg, s, step), more) && !NeverResent(Run(cfg, After(cfg, s, step), more));
    var steps := [step] + more;
    assert steps[0] == step && steps[1..] == more;
    assert CleanRun(cfg, s, steps) && Run(cfg, s, steps) == Run(cfg, After(cfg, s, step), more);
  }

  /** What the adopter of a row can rely on for that delivery: its bytes are found and verify. */
  ghost predicate HasMail(cfg: Config, s: System, q: QuoteId, f: DeliveryFence) {
    VerifiedBytes(cfg, s, q, f.delivery).Some?
  }

  lemma BytesAreFound(cfg: Config, s: System, q: QuoteId, f: DeliveryFence)
    requires ServiceSafety.SystemInv(cfg, s) && q in s.cells && f.delivery in s.cells[q].deliveries
    ensures HasMail(cfg, s, q, f)
  {
    var c := s.cells[q];
    assert ServiceSafety.CellOk(cfg, q, c);
    assert c.manifest.Some? && c.deliveries[f.delivery].documentSha256 == c.manifest.value.document.pdfSha256;
    assert ServiceSafety.HasBytes(cfg, s, c.manifest.value.document);
  }

  ghost function HandedOver(s: System, w: Owner): System
    requires MailerOf(s, w).Ready?
  {
    var p := MailerOf(s, w);
    WithMailer(s.(calls := s.calls + [Call(p.quote, p.fence, Deliveries.ProviderAccepted, p.pdf)]), w,
               Recording(p.quote, p.fence, Deliveries.ProviderAccepted))
  }

  lemma SendStep(cfg: Config, s: System, w: Owner)
    requires MailerOf(s, w).Ready?
    ensures After(cfg, s, MailSend(w, Deliveries.ProviderAccepted)) == HandedOver(s, w)
    ensures var p := MailerOf(s, w); Risky(HandedOver(s, w), p.quote, p.fence)
    ensures var p := MailerOf(s, w); Risky(s, p.quote, p.fence) ==> !NeverResent(HandedOver(s, w))
  {
    var p, after := MailerOf(s, w), HandedOver(s, w);
    assert SameDelivery(p.quote, p.fence, after.calls[|s.calls|]);
    if i :| 0 <= i < |s.calls| && SameDelivery(p.quote, p.fence, s.calls[i]) && MayHaveAccepted(s.calls[i].outcome) {
      assert after.calls[i] == s.calls[i];
    }
  }

  lemma SendsAgain(cfg: Config, s: System, w: Owner)
    requires MailerOf(s, w).Ready? && Risky(s, MailerOf(s, w).quote, MailerOf(s, w).fence)
    ensures CanResend(cfg, s)
  {
    SendStep(cfg, s, w);
    assert CleanRun(cfg, HandedOver(s, w), []) && Run(cfg, HandedOver(s, w), []) == HandedOver(s, w);
    ResendAfter(cfg, s, MailSend(w, Deliveries.ProviderAccepted));
  }

  ghost function Prepared(cfg: Config, s: System, w: Owner): System
    requires MailerOf(s, w).Preparing? && HasMail(cfg, s, MailerOf(s, w).quote, MailerOf(s, w).fence)
  {
    var p := MailerOf(s, w);
    WithMailer(s, w, Ready(p.quote, p.fence, VerifiedBytes(cfg, s, p.quote, p.fence.delivery).value))
  }

  lemma PrepareStep(cfg: Config, s: System, w: Owner)
    requires MailerOf(s, w).Preparing? && HasMail(cfg, s, MailerOf(s, w).quote, MailerOf(s, w).fence)
    ensures After(cfg, s, MailPrepare(w, true)) == Prepared(cfg, s, w)
  {
  }

  lemma PreparesAgain(cfg: Config, s: System, w: Owner)
    requires MailerOf(s, w).Preparing? && HasMail(cfg, s, MailerOf(s, w).quote, MailerOf(s, w).fence)
    requires Risky(s, MailerOf(s, w).quote, MailerOf(s, w).fence)
    ensures CanResend(cfg, s)
  {
    PrepareStep(cfg, s, w);
    assert Risky(Prepared(cfg, s, w), MailerOf(s, w).quote, MailerOf(s, w).fence);
    SendsAgain(cfg, Prepared(cfg, s, w), w);
    ResendAfter(cfg, s, MailPrepare(w, true));
  }

  lemma ClaimStep(cfg: Config, s: System, w: Owner, q: QuoteId, f: DeliveryFence)
    requires MailerFree(MailerOf(s, w)) && q !in s.doubts && q in s.cells && Offers(s.cells[q], f.delivery, s.clock)
    requires HasMail(cfg, s, q, f)
    ensures var after := After(cfg, s, MailClaim(w, q, f.delivery, Answered));
            && after.calls == s.calls && MailerOf(after, w).Preparing? && MailerOf(after, w).quote == q
            && MailerOf(after, w).fence.delivery == f.delivery && HasMail(cfg, after, q, MailerOf(after, w).fence)
  {
    assert Deliveries.ClaimDelivery(cfg, s.cells[q], f.delivery, w, s.clock).1.DeliveryClaimed?;
  }

  lemma ClaimsAgain(cfg: Config, s: System, w: Owner, q: QuoteId, f: DeliveryFence)
    requires MailerFree(MailerOf(s, w)) && q !in s.doubts
    requires q in s.cells && Offers(s.cells[q], f.delivery, s.clock) && Risky(s, q, f) && HasMail(cfg, s, q, f)
    ensures CanResend(cfg, s)
  {
    var step := MailClaim(w, q, f.delivery, Answered);
    ClaimStep(cfg, s, w, q, f);
    var after := After(cfg, s, step);
    RiskyIsPerDelivery(s, q, f, MailerOf(after, w).fence);
    assert Risky(after, q, MailerOf(after, w).fence);
    PreparesAgain(cfg, after, w);
    ResendAfter(cfg, s, step);
  }

  lemma WaitsAndClaims(cfg: Config, s: System, w: Owner, q: QuoteId, f: DeliveryFence, t: nat)
    requires MailerFree(MailerOf(s, w)) && q !in s.doubts
    requires q in s.cells && t >= s.clock && Offers(s.cells[q], f.delivery, t) && Risky(s, q, f) && HasMail(cfg, s, q, f)
    ensures CanResend(cfg, s)
  {
    var after := s.(clock := t);
    assert After(cfg, s, Advance(t - s.clock)) == after;
    assert MailerOf(after, w) == MailerOf(s, w) && Risky(after, q, f) && HasMail(cfg, after, q, f);
    ClaimsAgain(cfg, after, w, q, f);
    ResendAfter(cfg, s, Advance(t - s.clock));
  }

  /** The tables after the completion in doubt landed. */
  ghost function Reopened(s: System, q: QuoteId): System
    requires q in s.doubts && Reopens(s, q, s.doubts[q].change, s.doubts[q].now)
  {
    var d := s.doubts[q];
    s.(doubts := s.doubts - {q},
       cells := s.cells[q := Deliveries.CompleteDelivery(s.cells[q], d.change.tx.deliveryFence, d.change.tx.outcome, d.now).0])
  }

  lemma ResolveStep(cfg: Config, s: System, q: QuoteId, f: DeliveryFence)
    requires q in s.doubts && Reopens(s, q, s.doubts[q].change, s.doubts[q].now)
    ensures After(cfg, s, Resolve(q, true)) == Reopened(s, q)
    ensures HasMail(cfg, s, q, f) ==> HasMail(cfg, Reopened(s, q), q, f)
  {
  }

  /** The completion in doubt lands, the row is queued again and somebody claims it. */
  lemma LandsAndReopens(cfg: Config, s: System, w: Owner, q: QuoteId, f: DeliveryFence)
    requires MailerFree(MailerOf(s, w)) && Risky(s, q, f) && HasMail(cfg, s, q, f)
    requires q in s.doubts && Reopens(s, q, s.doubts[q].change, s.doubts[q].now) && s.doubts[q].change.tx.deliveryFence == f
    ensures CanResend(cfg, s)
  {
    ResolveStep(cfg, s, q, f);
    var after := Reopened(s, q);
    var t :| t >= s.clock && Offers(after.cells[q], f.delivery, t);
    assert MailerOf(after, w) == MailerOf(s, w) && Risky(after, q, f);
    WaitsAndClaims(cfg, after, w, q, f, t);
    ResendAfter(cfg, s, Resolve(q, true));
  }

  /** The adopter prepares and sends, drops its outcome, and the completion in doubt lands. */
  lemma DropsThenLands(cfg: Config, s: System, w: Owner, q: QuoteId, f: DeliveryFence)
    requires MailerOf(s, w).Recording? && Risky(s, q, f) && HasMail(cfg, s, q, f)
    requires q in s.doubts && Reopens(s, q, s.doubts[q].change, s.doubts[q].now) && s.doubts[q].change.tx.deliveryFence == f
    ensures CanResend(cfg, s)
  {
    var after := WithMailer(s, w, MailerIdle);
    assert After(cfg, s, MailDrop(w)) == after;
    assert Risky(after, q, f);
    LandsAndReopens(cfg, after, w, q, f);
    ResendAfter(cfg, s, MailDrop(w));
  }

  lemma SendsThenLands(cfg: Config, s: System, w: Owner, q: QuoteId, f: DeliveryFence)
    requires MailerOf(s, w).Ready? && MailerOf(s, w).quote == q && MailerOf(s, w).fence == f && HasMail(cfg, s, q, f)
    requires q in s.doubts && Reopens(s, q, s.doubts[q].change, s.doubts[q].now) && s.doubts[q].change.tx.deliveryFence == f
    ensures CanResend(cfg, s)
  {
    SendStep(cfg, s, w);
    DropsThenLands(cfg, HandedOver(s, w), w, q, f);
    ResendAfter(cfg, s, MailSend(w, Deliveries.ProviderAccepted));
  }

  lemma PreparesThenLands(cfg: Config, s: System, w: Owner, q: QuoteId, f: DeliveryFence)
    requires MailerOf(s, w).Preparing? && MailerOf(s, w).quote == q && MailerOf(s, w).fence == f && HasMail(cfg, s, q, f)
    requires q in s.doubts && Reopens(s, q, s.doubts[q].change, s.doubts[q].now) && s.doubts[q].change.tx.deliveryFence == f
    ensures CanResend(cfg, s)
  {
    PrepareStep(cfg, s, w);
    SendsThenLands(cfg, Prepared(cfg, s, w), w, q, f);
    ResendAfter(cfg, s, MailPrepare(w, true));
  }

  predicate AdoptionEnabled(s: System, step: Step) {
    step.MailAdopt? && MailerOf(s, step.worker).MailClaimInDoubt? && step.adopted.Some?
  }

  lemma AdoptStep(cfg: Config, s: System, step: Step)
    requires AdoptionEnabled(s, step) && AdoptableDelivery(s, step.worker, step.adopted)
    ensures var (q, d) := step.adopted.value;
            After(cfg, s, step) == WithMailer(s, step.worker, Preparing(q, DeliveryFence(d, s.cells[q].deliveries[d].generation, step.worker)))
  {
  }

  lemma UncleanAdoptionResends(cfg: Config, s: System, w: Owner, q: QuoteId, f: DeliveryFence)
    requires HasMail(cfg, s, q, f)
    requires Unclean(s, q, f)
    ensures CanResend(cfg, WithMailer(s, w, Preparing(q, f)))
  {
    var after := WithMailer(s, w, Preparing(q, f));
    assert HasMail(cfg, after, q, f);
    if i :| 0 <= i < |s.calls| && s.calls[i].quote == q && s.calls[i].fence == f && MayHaveAccepted(s.calls[i].outcome) {
      assert SameDelivery(q, f, after.calls[i]) && Risky(after, q, f);
      PreparesAgain(cfg, after, w);
    } else {
      PreparesThenLands(cfg, after, w, q, f);
    }
  }

  /**
   * After any clean run, adopting a row is safe exactly when the adoption is clean: then no
   * continuation with clean adoptions sends again after a call the provider may have accepted,
   * and otherwise one does.
   */
  lemma AdoptionIsSafeIffClean(cfg: Config, steps: seq<Step>, step: Step)
    ensures var s := Run(cfg, INITIAL, steps);
            CleanRun(cfg, INITIAL, steps) && AdoptionEnabled(s, step) && AdoptableDelivery(s, step.worker, step.adopted) ==>
              (CleanAdoption(s, step) <==> !CanResend(cfg, After(cfg, s, step)))
  {
    var s := Run(cfg, INITIAL, steps);
    if CleanRun(cfg, INITIAL, steps) && AdoptionEnabled(s, step) && AdoptableDelivery(s, step.worker, step.adopted) {
      CleanRunsKeepMail(cfg, steps);
      SafeIffClean(cfg, s, step);
    }
  }

  lemma SafeIffClean(cfg: Config, s: System, step: Step)
    requires ServiceSafety.SystemInv(cfg, s) && MailInv(s)
    requires AdoptionEnabled(s, step) && AdoptableDelivery(s, step.worker, step.adopted)
    ensures CleanAdoption(s, step) <==> !CanResend(cfg, After(cfg, s, step))
  {
    if CleanAdoption(s, step) {
      CleanAdoptionIsSafe(cfg, s, step);
    } else {
      var (q, d) := step.adopted.value;
      var f := DeliveryFence(d, s.cells[q].deliveries[d].generation, step.worker);
      BytesAreFound(cfg, s, q, f);
      UncleanAdoptionResends(cfg, s, step.worker, q, f);
      AdoptStep(cfg, s, step);
    }
  }

  lemma CleanAdoptionIsSafe(cfg: Config, s: System, step: Step)
    requires ServiceSafety.SystemInv(cfg, s) && MailInv(s) && CleanAdoption(s, step)
    ensures !CanResend(cfg, After(cfg, s, step))
  {
    StepKeepsMail(cfg, s, step);
    ServiceSafety.StepKeepsInv(cfg, s, step);
    forall more | CleanRun(cfg, After(cfg, s, step), more) ensures NeverResent(Run(cfg, After(cfg, s, step), more)) {
      RunKeepsMail(cfg, After(cfg, s, step), more);
    }
  }
}
