/**
 * A delivery is sent only if the provider said so. In every run, a row that is `sent`, or `unknown` by its
 * holder's completion, and a worker that reports either, stand on a call of that delivery that the
 * provider answered that way.
 */
module ProviderTruth {
  import opened Wrappers
  import opened Rows
  import opened Transactions
  import opened Service
  import opened ServiceSafety
  import Deliveries
  import AtMostOnce

  /** What an outcome of the mail port says about the message; a refusal says it was not sent. */
  function Said(outcome: Deliveries.Outcome): Option<CompletionKind> {
    match outcome
    case ProviderAccepted => Some(CompletedSent)
    case Ambiguous(_) => Some(CompletedUnknown)
    case NotAccepted(_, _) => None
  }

  /** What a row says the provider did; the sweep's own `unknown` says nothing about it. */
  function Claimed(d: Delivery): Option<CompletionKind> {
    if d.status == Sent then Some(CompletedSent)
    else if d.status == Unknown && d.lastError.Some? && d.lastError.value.AttemptError? then Some(CompletedUnknown)
    else None
  }

  /** Some call of this delivery was answered this way; nothing needs to be shown for anything else. */
  ghost predicate Heard(s: System, q: QuoteId, d: DeliveryId, kind: Option<CompletionKind>) {
    kind == Some(CompletedSent) || kind == Some(CompletedUnknown) ==>
      exists i :: 0 <= i < |s.calls| && s.calls[i].quote == q && s.calls[i].fence.delivery == d && Said(s.calls[i].outcome) == kind
  }

  ghost predicate RowTrue(s: System, q: QuoteId, d: DeliveryId) {
    q in s.cells && d in s.cells[q].deliveries ==> Heard(s, q, d, Claimed(s.cells[q].deliveries[d]))
  }

  ghost predicate WorkerTrue(s: System, p: Mailer) {
    && (p.Recording? ==> Heard(s, p.quote, p.fence.delivery, Said(p.outcome)))
    && (p.CompletionInDoubt? ==> Heard(s, p.quote, p.fence.delivery, p.intended))
    && (p.Finished? ==> Heard(s, p.quote, p.fence.delivery, p.result))
  }

  ghost predicate ChangeTrue(s: System, q: QuoteId, change: Change) {
    change.Existing? && change.tx.CompleteDelivery? ==> Heard(s, q, change.tx.deliveryFence.delivery, Said(change.tx.outcome))
  }

  ghost predicate Truthful(s: System) {
    && (forall q, d :: RowTrue(s, q, d))
    && (forall w :: WorkerTrue(s, MailerOf(s, w)))
    && (forall q <- s.doubts :: ChangeTrue(s, q, s.doubts[q].change))
  }

  // ---------- one transaction ----------

  /** Only a completion makes a row say anything about the provider, and then what its outcome says. */
  lemma ClaimsMove(cfg: Config, c: Cell, tx: Tx, now: nat, d: DeliveryId)
    ensures var after := Apply(cfg, c, tx, now).0;
            d in after.deliveries && Claimed(after.deliveries[d]).Some? ==>
              || (d in c.deliveries && Claimed(c.deliveries[d]) == Claimed(after.deliveries[d]))
              || (tx.CompleteDelivery? && tx.deliveryFence.delivery == d && Claimed(after.deliveries[d]) == Said(tx.outcome))
  {
    if tx.CancelQuote? { AtMostOnce.CancelMoves(c, tx.principal, tx.cancel, now, d); }
    else if !tx.CompleteDelivery? { AtMostOnce.RowsMove(cfg, c, tx, now, d); }
  }

  lemma AnswerIsSaid(c: Cell, f: DeliveryFence, outcome: Deliveries.Outcome, now: nat)
    ensures var reply := Deliveries.CompleteDelivery(c, f, outcome, now).1;
            reply.Completed? && (reply.kind == CompletedSent || reply.kind == CompletedUnknown) ==> Said(outcome) == Some(reply.kind)
  {
  }

  lemma TransactMoves(cfg: Config, cells: map<QuoteId, Cell>, x: QuoteId, change: Change, now: nat, q: QuoteId, d: DeliveryId)
    ensures var after := Transact(cfg, cells, x, change, now).0;
            q in after && d in after[q].deliveries && Claimed(after[q].deliveries[d]).Some? ==>
              || (q in cells && d in cells[q].deliveries && Claimed(cells[q].deliveries[d]) == Claimed(after[q].deliveries[d]))
              || (q == x && change.Existing? && change.tx.CompleteDelivery? && change.tx.deliveryFence.delivery == d
                  && Claimed(after[q].deliveries[d]) == Said(change.tx.outcome))
  {
    match change
    case Existing(tx) => if q == x && x in cells { ClaimsMove(cfg, cells[x], tx, now, d); }
    case NewDraft(creator, content) =>
    case NewIssue(creator, content, terms) => NewQuotesHaveNoDeliveries(cfg, cells, x, change, now);
  }

  lemma NewQuotesHaveNoDeliveries(cfg: Config, cells: map<QuoteId, Cell>, x: QuoteId, change: Change, now: nat)
    requires !change.Existing?
    ensures var after := Transact(cfg, cells, x, change, now).0; x in after && x !in cells ==> after[x].deliveries == map[]
  {
  }

  // ---------- one step ----------

  /** The tables moved by one transaction whose claim about the provider is true; nothing else did. */
  lemma TransactionIsTrue(cfg: Config, s: System, q: QuoteId, change: Change, now: nat)
    requires Truthful(s) && ChangeTrue(s, q, change)
    ensures Truthful(s.(cells := Transact(cfg, s.cells, q, change, now).0))
  {
    var after := s.(cells := Transact(cfg, s.cells, q, change, now).0);
    forall r, d ensures RowTrue(after, r, d) {
      assert RowTrue(s, r, d);
      TransactMoves(cfg, s.cells, q, change, now, r, d);
    }
    forall w ensures WorkerTrue(after, MailerOf(after, w)) { assert WorkerTrue(s, MailerOf(s, w)); }
    forall r <- after.doubts ensures ChangeTrue(after, r, after.doubts[r].change) { assert ChangeTrue(s, r, s.doubts[r].change); }
  }

  /** No call was forgotten, rows and COMMITs in doubt are the same, and fewer at most are in doubt. */
  ghost predicate Grows(s: System, after: System) {
    && s.calls <= after.calls && after.cells == s.cells && after.mailers == s.mailers
    && forall q <- after.doubts :: q in s.doubts && after.doubts[q] == s.doubts[q]
  }

  lemma HeardStays(s: System, after: System, q: QuoteId, d: DeliveryId, kind: Option<CompletionKind>)
    requires s.calls <= after.calls && Heard(s, q, d, kind)
    ensures Heard(after, q, d, kind)
  {
    if kind == Some(CompletedSent) || kind == Some(CompletedUnknown) {
      var i :| 0 <= i < |s.calls| && s.calls[i].quote == q && s.calls[i].fence.delivery == d && Said(s.calls[i].outcome) == kind;
      assert after.calls[i] == s.calls[i];
    }
  }

  lemma WorkerStays(s: System, after: System, p: Mailer)
    requires s.calls <= after.calls && WorkerTrue(s, p)
    ensures WorkerTrue(after, p)
  {
    if p.Recording? { HeardStays(s, after, p.quote, p.fence.delivery, Said(p.outcome)); }
    if p.CompletionInDoubt? { HeardStays(s, after, p.quote, p.fence.delivery, p.intended); }
    if p.Finished? { HeardStays(s, after, p.quote, p.fence.delivery, p.result); }
  }

  lemma GrowsTruthfully(s: System, after: System)
    requires Truthful(s) && Grows(s, after)
    ensures Truthful(after)
  {
    forall q, d ensures RowTrue(after, q, d) {
      assert RowTrue(s, q, d);
      if q in s.cells && d in s.cells[q].deliveries { HeardStays(s, after, q, d, Claimed(s.cells[q].deliveries[d])); }
    }
    forall w ensures WorkerTrue(after, MailerOf(after, w)) {
      assert MailerOf(after, w) == MailerOf(s, w) && WorkerTrue(s, MailerOf(s, w));
      WorkerStays(s, after, MailerOf(s, w));
    }
    forall q <- after.doubts ensures ChangeTrue(after, q, after.doubts[q].change) {
      assert ChangeTrue(s, q, s.doubts[q].change);
      var change := s.doubts[q].change;
      if change.Existing? && change.tx.CompleteDelivery? { HeardStays(s, after, q, change.tx.deliveryFence.delivery, Said(change.tx.outcome)); }
    }
  }

  lemma WorkerMoves(s: System, w: Owner, p: Mailer)
    requires Truthful(s) && WorkerTrue(s, p)
    ensures Truthful(WithMailer(s, w, p))
  {
    var after := WithMailer(s, w, p);
    forall q, d ensures RowTrue(after, q, d) { assert RowTrue(s, q, d); }
    forall x ensures WorkerTrue(after, MailerOf(after, x)) {
      if x != w { assert MailerOf(after, x) == MailerOf(s, x) && WorkerTrue(s, MailerOf(s, x)); }
    }
    forall q <- after.doubts ensures ChangeTrue(after, q, after.doubts[q].change) { assert ChangeTrue(s, q, s.doubts[q].change); }
  }

  /** Only a worker that records submits a completion, with the outcome it learned. */
  lemma SubmissionIsTrue(s: System, step: Step)
    requires Truthful(s) && Submits(s, step).Some?
    ensures ChangeTrue(s, Submits(s, step).value.quote, Submits(s, step).value.change)
  {
    if step.MailRecord? { assert WorkerTrue(s, MailerOf(s, step.worker)); }
  }

  lemma CommitIsTrue(cfg: Config, s: System, x: Submission)
    requires Truthful(s) && ChangeTrue(s, x.quote, x.change)
    ensures Truthful(Commit(cfg, s, x).0)
  {
    match x.ending
    case UnansweredLost =>
    case UnansweredPending => DoubtIsTrue(s, x.quote, x.change);
    case _ => TransactionIsTrue(cfg, s, x.quote, x.change, s.clock);
  }

  lemma DoubtIsTrue(s: System, q: QuoteId, change: Change)
    requires Truthful(s) && ChangeTrue(s, q, change)
    ensures Truthful(s.(doubts := s.doubts[q := Doubt(change, s.clock)]))
  {
    var after := s.(doubts := s.doubts[q := Doubt(change, s.clock)]);
    forall r, d ensures RowTrue(after, r, d) { assert RowTrue(s, r, d); }
    forall w ensures WorkerTrue(after, MailerOf(after, w)) { assert WorkerTrue(s, MailerOf(s, w)); }
    forall r <- after.doubts ensures ChangeTrue(after, r, after.doubts[r].change) {
      if r != q { assert ChangeTrue(s, r, s.doubts[r].change); }
    }
  }

  lemma RecordIsHeardTruly(cfg: Config, s: System, w: Owner, ending: Ending)
    requires Truthful(s) && MailerOf(s, w).Recording?
    ensures var p := MailerOf(s, w);
            WorkerTrue(s, RecordHeard(p, ending.Answered?, Commit(cfg, s, Submission(p.quote, Existing(CompleteDelivery(p.fence, p.outcome)), ending)).1))
  {
    var p := MailerOf(s, w);
    assert WorkerTrue(s, p);
    if p.quote in s.cells { AnswerIsSaid(s.cells[p.quote], p.fence, p.outcome, s.clock); }
  }

  lemma RecordKeepsTruth(cfg: Config, s: System, w: Owner, ending: Ending)
    requires Truthful(s) && MailerOf(s, w).Recording? && MailerOf(s, w).quote !in s.doubts
    ensures Truthful(After(cfg, s, MailRecord(w, ending)))
  {
    var p := MailerOf(s, w);
    var x := Submission(p.quote, Existing(CompleteDelivery(p.fence, p.outcome)), ending);
    var (committed, reply) := Commit(cfg, s, x);
    SubmissionIsTrue(s, MailRecord(w, ending));
    CommitIsTrue(cfg, s, x);
    RecordIsHeardTruly(cfg, s, w, ending);
    CommitKeepsCalls(cfg, s, x);
    WorkerStays(s, committed, RecordHeard(p, ending.Answered?, reply));
    WorkerMoves(committed, w, RecordHeard(p, ending.Answered?, reply));
    AtMostOnce.RecordIsCommit(cfg, s, w, ending);
  }

  lemma CommitKeepsCalls(cfg: Config, s: System, x: Submission)
    ensures Commit(cfg, s, x).0.calls == s.calls && Commit(cfg, s, x).0.mailers == s.mailers
  {
  }

  /** Whatever else is heard, no worker comes to report a completion by it. */
  lemma OthersHearNothing(s: System, step: Step, x: Submission, reply: Reply)
    requires !step.MailRecord? && Truthful(s)
    ensures Truthful(Observe(s, step, x, reply))
  {
    var after := Observe(s, step, x, reply);
    ObserveLeavesTables(s, step, x, reply);
    if step.MailClaim? {
      WorkerMoves(s, step.worker, MailClaimHeard(step.quote, x.ending.Answered?, reply));
    } else {
      GrowsTruthfully(s, after);
    }
  }

  lemma SubmissionKeepsTruth(cfg: Config, s: System, step: Step)
    requires Truthful(s) && Submits(s, step).Some? && !step.MailRecord?
    ensures Truthful(After(cfg, s, step))
  {
    var x := Submits(s, step).value;
    if x.quote !in s.doubts {
      SubmissionIsTrue(s, step);
      CommitIsTrue(cfg, s, x);
      OthersHearNothing(Commit(cfg, s, x).0, step, x, Commit(cfg, s, x).1);
    }
  }

  lemma SendKeepsTruth(cfg: Config, s: System, w: Owner, outcome: Deliveries.Outcome)
    requires Truthful(s) && MailerOf(s, w).Ready?
    ensures Truthful(MailLocal(cfg, s, MailSend(w, outcome)))
  {
    var p := MailerOf(s, w);
    var sent := s.(calls := s.calls + [Call(p.quote, p.fence, outcome, p.pdf)]);
    GrowsTruthfully(s, sent);
    assert sent.calls[|s.calls|] == Call(p.quote, p.fence, outcome, p.pdf);
    WorkerMoves(sent, w, Recording(p.quote, p.fence, outcome));
  }

  /** What is read back is what was intended, or nothing. */
  lemma ReadBackIsIntended(c: Cell, f: DeliveryFence, intended: Option<CompletionKind>)
    ensures var read := Deliveries.ReconcileCompletion(c, f, intended); read.None? || read == intended
  {
  }

  lemma ReconcileKeepsTruth(cfg: Config, s: System, w: Owner)
    requires Truthful(s) && MailerOf(s, w).CompletionInDoubt?
    ensures Truthful(MailLocal(cfg, s, MailReconcile(w)))
  {
    var p := MailerOf(s, w);
    assert WorkerTrue(s, p);
    if p.quote in s.cells { ReadBackIsIntended(s.cells[p.quote], p.fence, p.intended); }
    WorkerMoves(s, w, Finished(p.quote, p.fence,
      if p.quote in s.cells then Deliveries.ReconcileCompletion(s.cells[p.quote], p.fence, p.intended) else None));
  }

  /** Every other local step of a delivery worker leads to a phase that claims nothing. */
  lemma OtherMailStepKeepsTruth(cfg: Config, s: System, step: Step)
    requires Truthful(s) && (step.MailAdopt? || step.MailPrepare? || step.MailInterrupt? || step.MailDrop? || step.MailStop?)
    ensures Truthful(MailLocal(cfg, s, step))
  {
    var after := MailLocal(cfg, s, step);
    if after != s {
      var p := MailerOf(after, step.worker);
      assert after == WithMailer(s, step.worker, p);
      assert !p.CompletionInDoubt? && !p.Finished? && (p.Recording? ==> p.outcome == PREPARATION_FAILED);
      WorkerMoves(s, step.worker, p);
    }
  }

  lemma LocalKeepsTruth(cfg: Config, s: System, step: Step)
    requires Truthful(s) && !step.Resolve? && !step.MailClaim? && !step.MailRecord?
    ensures Truthful(Local(cfg, s, step))
  {
    match step
    case MailSend(w, outcome) => if MailerOf(s, w).Ready? { SendKeepsTruth(cfg, s, w, outcome); }
    case MailReconcile(w) => if MailerOf(s, w).CompletionInDoubt? { ReconcileKeepsTruth(cfg, s, w); }
    case Advance(_) => GrowsTruthfully(s, Local(cfg, s, step));
    case _ =>
      if OfMailer(step) {
        OtherMailStepKeepsTruth(cfg, s, step);
      } else {
        IssuerLocalIsLocal(cfg, s, step);
        GrowsTruthfully(s, IssuerLocal(cfg, s, step));
      }
  }

  lemma ResolveKeepsTruth(cfg: Config, s: System, q: QuoteId, lands: bool)
    requires Truthful(s) && q in s.doubts
    ensures Truthful(Local(cfg, s, Resolve(q, lands)))
  {
    assert ChangeTrue(s, q, s.doubts[q].change);
    var applied := if lands then s.(cells := Transact(cfg, s.cells, q, s.doubts[q].change, s.doubts[q].now).0) else s;
    if lands { TransactionIsTrue(cfg, s, q, s.doubts[q].change, s.doubts[q].now); }
    GrowsTruthfully(applied, Local(cfg, s, Resolve(q, lands)));
  }

  lemma StepKeepsTruth(cfg: Config, s: System, step: Step)
    requires Truthful(s)
    ensures Truthful(After(cfg, s, step))
  {
    if Submits(s, step).Some? {
      if step.MailRecord? {
        if MailerOf(s, step.worker).quote !in s.doubts { RecordKeepsTruth(cfg, s, step.worker, step.ending); }
      } else {
        SubmissionKeepsTruth(cfg, s, step);
      }
    } else if step.Resolve? {
      if step.quote in s.doubts { ResolveKeepsTruth(cfg, s, step.quote, step.lands); }
    } else if step.MailClaim? || step.MailRecord? {
      assert Local(cfg, s, step) == s;
    } else {
      LocalKeepsTruth(cfg, s, step);
    }
  }

  lemma {:induction false} RunKeepsTruth(cfg: Config, s: System, steps: seq<Step>)
    requires Truthful(s)
    ensures Truthful(Run(cfg, s, steps))
    decreases |steps|
  {
    if steps != [] {
      StepKeepsTruth(cfg, s, steps[0]);
      RunKeepsTruth(cfg, After(cfg, s, steps[0]), steps[1..]);
    }
  }

  ghost predicate Answered(s: System, q: QuoteId, d: DeliveryId, i: nat) {
    i < |s.calls| && s.calls[i].quote == q && s.calls[i].fence.delivery == d
  }

  /**
   * In every run of any number of workers, whatever is lost, adopted or left in doubt: a delivery that is
   * sent in its row, or reported sent by a worker, was accepted by the provider in one of its calls; and
   * one that a holder left or reported as unknown had a call with an ambiguous outcome.
   */
  lemma SentMeansAccepted(cfg: Config, steps: seq<Step>, q: QuoteId, d: DeliveryId, w: Owner)
    ensures var s := Run(cfg, INITIAL, steps);
            var p := MailerOf(s, w);
            && (q in s.cells && d in s.cells[q].deliveries && s.cells[q].deliveries[d].status == Sent ==>
                  exists i: nat :: Answered(s, q, d, i) && s.calls[i].outcome.ProviderAccepted?)
            && (p.Finished? && p.result == Some(CompletedSent) ==>
                  exists i: nat :: Answered(s, p.quote, p.fence.delivery, i) && s.calls[i].outcome.ProviderAccepted?)
            && (p.Finished? && p.result == Some(CompletedUnknown) ==>
                  exists i: nat :: Answered(s, p.quote, p.fence.delivery, i) && s.calls[i].outcome.Ambiguous?)
            && (q in s.cells && d in s.cells[q].deliveries && s.cells[q].deliveries[d].status == Unknown
                && s.cells[q].deliveries[d].lastError.Some? && s.cells[q].deliveries[d].lastError.value.AttemptError? ==>
                  exists i: nat :: Answered(s, q, d, i) && s.calls[i].outcome.Ambiguous?)
  {
    assert Truthful(INITIAL);
    RunKeepsTruth(cfg, INITIAL, steps);
    var s := Run(cfg, INITIAL, steps);
    assert RowTrue(s, q, d) && WorkerTrue(s, MailerOf(s, w));
    HeardIsAnswered(s, q, d, CompletedSent);
    HeardIsAnswered(s, q, d, CompletedUnknown);
    HeardIsAnswered(s, MailerQuote(s, w), MailerDelivery(s, w), CompletedSent);
    HeardIsAnswered(s, MailerQuote(s, w), MailerDelivery(s, w), CompletedUnknown);
  }

  function MailerQuote(s: System, w: Owner): QuoteId { if MailerOf(s, w).Finished? then MailerOf(s, w).quote else 0 }

  function MailerDelivery(s: System, w: Owner): DeliveryId { if MailerOf(s, w).Finished? then MailerOf(s, w).fence.delivery else 0 }

  lemma HeardIsAnswered(s: System, q: QuoteId, d: DeliveryId, kind: CompletionKind)
    ensures Heard(s, q, d, Some(kind)) && kind == CompletedSent ==> exists i: nat :: Answered(s, q, d, i) && s.calls[i].outcome.ProviderAccepted?
    ensures Heard(s, q, d, Some(kind)) && kind == CompletedUnknown ==> exists i: nat :: Answered(s, q, d, i) && s.calls[i].outcome.Ambiguous?
  {
    if Heard(s, q, d, Some(kind)) && (kind == CompletedSent || kind == CompletedUnknown) {
      var i :| 0 <= i < |s.calls| && s.calls[i].quote == q && s.calls[i].fence.delivery == d && Said(s.calls[i].outcome) == Some(kind);
      assert Answered(s, q, d, i);
    }
  }
}
