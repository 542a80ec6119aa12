/** What the provider is handed and what a worker reports, over every run of the service. */
module EmailSafety {
  import opened Wrappers
  import opened Rows
  import opened Transactions
  import opened Service
  import opened ServiceSafety
  import Deliveries
  import CellInvariants
  import Guarantees
  import AtMostOnce

  /** These are the bytes of the quote's committed document, as far as length and hash tell. */
  ghost predicate CommittedBytes(cfg: Config, s: System, q: QuoteId, pdf: Bytes) {
    && q in s.cells && s.cells[q].manifest.Some?
    && |pdf| == s.cells[q].manifest.value.document.byteLength
    && cfg.sha256(pdf) == s.cells[q].manifest.value.document.pdfSha256
  }

  /** The final status a reported completion stands for; a rescheduled delivery goes on. */
  function FinalStatus(kind: CompletionKind): Option<DeliveryStatus> {
    match kind
    case CompletedSent => Some(Sent)
    case CompletedUnknown => Some(Unknown)
    case CompletedFailed => Some(Undelivered)
    case CompletedRescheduled => None
  }

  ghost predicate HasStatus(s: System, q: QuoteId, d: DeliveryId, status: DeliveryStatus) {
    q in s.cells && d in s.cells[q].deliveries && s.cells[q].deliveries[d].status == status
  }

  ghost predicate MailerOk(cfg: Config, s: System, w: Owner) {
    var p := MailerOf(s, w);
    && (p.Ready? ==> CommittedBytes(cfg, s, p.quote, p.pdf))
    && (p.Finished? && p.result.Some? && FinalStatus(p.result.value).Some? ==>
          HasStatus(s, p.quote, p.fence.delivery, FinalStatus(p.result.value).value))
  }

  ghost predicate CallOk(cfg: Config, s: System, i: nat)
    requires i < |s.calls|
  {
    CommittedBytes(cfg, s, s.calls[i].quote, s.calls[i].pdf)
  }

  ghost predicate EmailInv(cfg: Config, s: System) {
    (forall w :: MailerOk(cfg, s, w)) && (forall i | 0 <= i < |s.calls| :: CallOk(cfg, s, i))
  }

  /** What one step may do to what the invariant speaks of. */
  ghost predicate Preserves(cfg: Config, s: System, after: System) {
    && (forall q, pdf :: CommittedBytes(cfg, s, q, pdf) ==> CommittedBytes(cfg, after, q, pdf))
    && (forall q, d, status :: Deliveries.Terminal(status) && HasStatus(s, q, d, status) ==> HasStatus(after, q, d, status))
  }

  lemma BytesStayCommitted(cfg: Config, s: System, q: QuoteId, change: Change, now: nat, r: QuoteId, pdf: Bytes)
    requires TablesOk(cfg, s) && CommittedBytes(cfg, s, r, pdf)
    ensures CommittedBytes(cfg, s.(cells := Transact(cfg, s.cells, q, change, now).0), r, pdf)
  {
    ManifestMoves(cfg, s.cells, q, change, now, r);
  }

  lemma FinalStatusStays(cfg: Config, s: System, q: QuoteId, change: Change, now: nat, r: QuoteId, d: DeliveryId, status: DeliveryStatus)
    requires Deliveries.Terminal(status) && HasStatus(s, r, d, status)
    ensures HasStatus(s.(cells := Transact(cfg, s.cells, q, change, now).0), r, d, status)
  {
    if r == q && change.Existing? { Guarantees.DeliveryEndingsAbsorb(cfg, s.cells[q], change.tx, now, d); }
  }

  lemma TransactionPreserves(cfg: Config, s: System, q: QuoteId, change: Change, now: nat)
    requires TablesOk(cfg, s)
    ensures Preserves(cfg, s, s.(cells := Transact(cfg, s.cells, q, change, now).0))
  {
    var after := s.(cells := Transact(cfg, s.cells, q, change, now).0);
    forall r, pdf | CommittedBytes(cfg, s, r, pdf) ensures CommittedBytes(cfg, after, r, pdf) {
      BytesStayCommitted(cfg, s, q, change, now, r, pdf);
    }
    forall r, d, status | Deliveries.Terminal(status) && HasStatus(s, r, d, status) ensures HasStatus(after, r, d, status) {
      FinalStatusStays(cfg, s, q, change, now, r, d, status);
    }
  }

  /** Nothing the invariant speaks of moved except as preserved. */
  lemma EmailInvCarries(cfg: Config, s: System, after: System)
    requires EmailInv(cfg, s) && Preserves(cfg, s, after) && after.mailers == s.mailers && after.calls == s.calls
    ensures EmailInv(cfg, after)
  {
    forall w ensures MailerOk(cfg, after, w) {
      assert MailerOk(cfg, s, w) && MailerOf(after, w) == MailerOf(s, w);
      var p := MailerOf(s, w);
      if p.Finished? && p.result.Some? && FinalStatus(p.result.value).Some? {
        assert Deliveries.Terminal(FinalStatus(p.result.value).value);
      }
    }
    forall i | 0 <= i < |after.calls| ensures CallOk(cfg, after, i) { assert CallOk(cfg, s, i); }
  }

  lemma MoveMailer(cfg: Config, s: System, w: Owner, p: Mailer)
    requires EmailInv(cfg, s) && MailerOk(cfg, WithMailer(s, w, p), w)
    ensures EmailInv(cfg, WithMailer(s, w, p))
  {
    var after := WithMailer(s, w, p);
    forall x ensures MailerOk(cfg, after, x) {
      if x != w { assert MailerOf(after, x) == MailerOf(s, x) && MailerOk(cfg, s, x); }
    }
    forall i | 0 <= i < |after.calls| ensures CallOk(cfg, after, i) { assert CallOk(cfg, s, i); }
  }

  lemma CommitPreserves(cfg: Config, s: System, x: Submission)
    requires TablesOk(cfg, s)
    ensures var after := Commit(cfg, s, x).0;
            Preserves(cfg, s, after) && after.mailers == s.mailers && after.calls == s.calls
  {
    match x.ending
    case UnansweredLost =>
    case UnansweredPending =>
    case _ => TransactionPreserves(cfg, s, x.quote, x.change, s.clock);
  }

  /** An answered completion reports the status it left. */
  lemma AnsweredCompletionIsTrue(c: Cell, f: DeliveryFence, outcome: Deliveries.Outcome, now: nat)
    ensures var (after, reply) := Deliveries.CompleteDelivery(c, f, outcome, now);
            reply.Completed? && FinalStatus(reply.kind).Some? ==>
              f.delivery in after.deliveries && after.deliveries[f.delivery].status == FinalStatus(reply.kind).value
  {
  }

  lemma ReconciledCompletionIsTrue(c: Cell, f: DeliveryFence, intended: Option<CompletionKind>)
    ensures var result := Deliveries.ReconcileCompletion(c, f, intended);
            result.Some? && FinalStatus(result.value).Some? ==>
              f.delivery in c.deliveries && c.deliveries[f.delivery].status == FinalStatus(result.value).value
  {
  }

  lemma RecordedIsTrue(cfg: Config, s: System, w: Owner, ending: Ending)
    requires MailerOf(s, w).Recording?
    ensures var p := MailerOf(s, w);
            var (committed, reply) := Commit(cfg, s, Submission(p.quote, Existing(CompleteDelivery(p.fence, p.outcome)), ending));
            MailerOk(cfg, WithMailer(committed, w, RecordHeard(p, ending.Answered?, reply)), w)
  {
    var p := MailerOf(s, w);
    if p.quote in s.cells { AnsweredCompletionIsTrue(s.cells[p.quote], p.fence, p.outcome, s.clock); }
  }

  lemma RecordKeepsEmail(cfg: Config, s: System, w: Owner, ending: Ending)
    requires TablesOk(cfg, s) && EmailInv(cfg, s) && MailerOf(s, w).Recording? && MailerOf(s, w).quote !in s.doubts
    ensures EmailInv(cfg, After(cfg, s, MailRecord(w, ending)))
  {
    var p := MailerOf(s, w);
    var x := Submission(p.quote, Existing(CompleteDelivery(p.fence, p.outcome)), ending);
    CommitPreserves(cfg, s, x);
    EmailInvCarries(cfg, s, Commit(cfg, s, x).0);
    RecordedIsTrue(cfg, s, w, ending);
    MoveMailer(cfg, Commit(cfg, s, x).0, w, RecordHeard(p, ending.Answered?, Commit(cfg, s, x).1));
    AtMostOnce.RecordIsCommit(cfg, s, w, ending);
  }

  lemma OthersHearNothingFinal(s: System, step: Step, x: Submission, reply: Reply)
    requires !step.MailRecord?
    ensures var after := Observe(s, step, x, reply);
            after.mailers == s.mailers ||
            (step.MailClaim? && exists p :: after == WithMailer(s, step.worker, p) && !p.Ready? && !p.Finished?)
  {
    if step.MailClaim? {
      var p := MailClaimHeard(step.quote, x.ending.Answered?, reply);
      assert Observe(s, step, x, reply) == WithMailer(s, step.worker, p) && !p.Ready? && !p.Finished?;
    }
  }

  lemma SubmissionKeepsEmail(cfg: Config, s: System, step: Step)
    requires TablesOk(cfg, s) && EmailInv(cfg, s) && Submits(s, step).Some? && !step.MailRecord?
    ensures EmailInv(cfg, After(cfg, s, step))
  {
    var x := Submits(s, step).value;
    if x.quote !in s.doubts {
      CommitPreserves(cfg, s, x);
      var (committed, reply) := Commit(cfg, s, x);
      EmailInvCarries(cfg, s, committed);
      HeardKeepsEmail(cfg, committed, step, x, reply);
    }
  }

  lemma HeardKeepsEmail(cfg: Config, s: System, step: Step, x: Submission, reply: Reply)
    requires EmailInv(cfg, s) && !step.MailRecord?
    ensures EmailInv(cfg, Observe(s, step, x, reply))
  {
    var after := Observe(s, step, x, reply);
    ObserveLeavesTables(s, step, x, reply);
    OthersHearNothingFinal(s, step, x, reply);
    if after.mailers == s.mailers {
      EmailInvCarries(cfg, s, after);
    } else {
      var p :| after == WithMailer(s, step.worker, p) && !p.Ready? && !p.Finished?;
      MoveMailer(cfg, s, step.worker, p);
    }
  }

  lemma SendKeepsEmail(cfg: Config, s: System, w: Owner, outcome: Deliveries.Outcome)
    requires EmailInv(cfg, s) && MailerOf(s, w).Ready?
    ensures EmailInv(cfg, MailLocal(cfg, s, MailSend(w, outcome)))
  {
    var p := MailerOf(s, w);
    var sent := s.(calls := s.calls + [Call(p.quote, p.fence, outcome, p.pdf)]);
    assert MailerOk(cfg, s, w);
    forall x ensures MailerOk(cfg, sent, x) { assert MailerOk(cfg, s, x) && MailerOf(sent, x) == MailerOf(s, x); }
    forall i | 0 <= i < |sent.calls| ensures CallOk(cfg, sent, i) {
      if i < |s.calls| { assert CallOk(cfg, s, i); }
    }
    MoveMailer(cfg, sent, w, Recording(p.quote, p.fence, outcome));
  }

  /** Only verified bytes make a worker ready. */
  lemma PrepareKeepsEmail(cfg: Config, s: System, w: Owner, ready: bool)
    requires EmailInv(cfg, s) && MailerOf(s, w).Preparing?
    ensures EmailInv(cfg, MailLocal(cfg, s, MailPrepare(w, ready)))
  {
    var p := MailerOf(s, w);
    var bytes := VerifiedBytes(cfg, s, p.quote, p.fence.delivery);
    MoveMailer(cfg, s, w, if ready && bytes.Some? then Ready(p.quote, p.fence, bytes.value)
                          else Recording(p.quote, p.fence, PREPARATION_FAILED));
  }

  lemma ReconcileKeepsEmail(cfg: Config, s: System, w: Owner)
    requires EmailInv(cfg, s) && MailerOf(s, w).CompletionInDoubt?
    ensures EmailInv(cfg, MailLocal(cfg, s, MailReconcile(w)))
  {
    var p := MailerOf(s, w);
    if p.quote in s.cells { ReconciledCompletionIsTrue(s.cells[p.quote], p.fence, p.intended); }
    MoveMailer(cfg, s, w, Finished(p.quote, p.fence,
      if p.quote in s.cells then Deliveries.ReconcileCompletion(s.cells[p.quote], p.fence, p.intended) else None));
  }

  lemma OtherMailStepKeepsEmail(cfg: Config, s: System, step: Step)
    requires EmailInv(cfg, s)
    requires step.MailAdopt? || step.MailInterrupt? || step.MailDrop? || step.MailStop?
    ensures EmailInv(cfg, MailLocal(cfg, s, step))
  {
    var after := MailLocal(cfg, s, step);
    if after != s {
      var p := MailerOf(after, step.worker);
      assert after == WithMailer(s, step.worker, p) && !p.Ready? && !p.Finished?;
      MoveMailer(cfg, s, step.worker, p);
    }
  }

  lemma LocalKeepsEmail(cfg: Config, s: System, step: Step)
    requires EmailInv(cfg, s) && !step.Resolve? && !step.MailClaim? && !step.MailRecord?
    ensures EmailInv(cfg, Local(cfg, s, step))
  {
    match step
    case MailSend(w, outcome) => if MailerOf(s, w).Ready? { SendKeepsEmail(cfg, s, w, outcome); }
    case MailPrepare(w, ready) => if MailerOf(s, w).Preparing? { PrepareKeepsEmail(cfg, s, w, ready); }
    case MailReconcile(w) => if MailerOf(s, w).CompletionInDoubt? { ReconcileKeepsEmail(cfg, s, w); }
    case Advance(_) => EmailInvCarries(cfg, s, Local(cfg, s, step));
    case _ =>
      if OfMailer(step) {
        OtherMailStepKeepsEmail(cfg, s, step);
      } else {
        IssuerLocalIsLocal(cfg, s, step);
        EmailInvCarries(cfg, s, IssuerLocal(cfg, s, step));
      }
  }

  lemma ResolveKeepsEmail(cfg: Config, s: System, q: QuoteId, lands: bool)
    requires TablesOk(cfg, s) && EmailInv(cfg, s)
    ensures EmailInv(cfg, Local(cfg, s, Resolve(q, lands)))
  {
    var after := Local(cfg, s, Resolve(q, lands));
    if q in s.doubts {
      TransactionPreserves(cfg, s, q, s.doubts[q].change, s.doubts[q].now);
      assert Preserves(cfg, s, after);
      EmailInvCarries(cfg, s, after);
    }
  }

  lemma StepKeepsEmail(cfg: Config, s: System, step: Step)
    requires TablesOk(cfg, s) && EmailInv(cfg, s)
    ensures EmailInv(cfg, After(cfg, s, step))
  {
    if Submits(s, step).Some? {
      if step.MailRecord? {
        if MailerOf(s, step.worker).quote !in s.doubts { RecordKeepsEmail(cfg, s, step.worker, step.ending); }
      } else {
        SubmissionKeepsEmail(cfg, s, step);
      }
    } else if step.Resolve? {
      ResolveKeepsEmail(cfg, s, step.quote, step.lands);
    } else if step.MailClaim? || step.MailRecord? {
      assert Local(cfg, s, step) == s;
    } else {
      LocalKeepsEmail(cfg, s, step);
    }
  }

  lemma {:induction false} RunKeepsEmail(cfg: Config, s: System, steps: seq<Step>)
    requires SystemInv(cfg, s) && EmailInv(cfg, s)
    ensures EmailInv(cfg, Run(cfg, s, steps))
    decreases |steps|
  {
    if steps != [] {
      StepKeepsEmail(cfg, s, steps[0]);
      StepKeepsInv(cfg, s, steps[0]);
      RunKeepsEmail(cfg, After(cfg, s, steps[0]), steps[1..]);
    }
  }

  /**
   * In every run each message handed to the provider carries the bytes of its quote's committed
   * document, and a worker that reports a delivery as sent, failed or unknown reports the final
   * status of its row, even when it never heard whether its COMMIT applied.
   */
  lemma EmailsCarryTheDocument(cfg: Config, steps: seq<Step>, i: nat, w: Owner)
    ensures var s := Run(cfg, INITIAL, steps);
            && (i < |s.calls| ==> CommittedBytes(cfg, s, s.calls[i].quote, s.calls[i].pdf))
            && MailerOk(cfg, s, w)
  {
    assert EmailInv(cfg, INITIAL);
    RunKeepsEmail(cfg, INITIAL, steps);
    if i < |Run(cfg, INITIAL, steps).calls| { assert CallOk(cfg, Run(cfg, INITIAL, steps), i); }
  }
}
