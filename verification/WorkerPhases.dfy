/**
 * The phases a process goes through in the service are those of its workers' loops: in every run the
 * effects of a worker, in order, are a legal sequence of effects.
 */
module WorkerPhases {
  import opened Wrappers
  import opened Rows
  import opened Service
  import W = Workers
  import Deliveries
  import Transactions
  import ServiceSafety

  lemma Regroups<T>(a: seq<T>, b: seq<T>, c: seq<T>)
    ensures a + (b + c) == a + b + c
  {
  }

  // ---------- email delivery ----------

  /** The loop stands where the service says the worker stands; a stopped process does nothing any more. */
  predicate MailMatches(state: W.MailState, p: Mailer) {
    match p
    case MailerIdle => state.Free?
    case MailClaimInDoubt => state.Free?
    case Preparing(_, _) => state.Held?
    case Ready(_, _, _) => state.CanSend?
    case Recording(_, _, outcome) => state == W.MustReport(outcome) || (state.CanSend? && outcome == W.NOT_SENT)
    case CompletionInDoubt(_, _, _) => state.Free?
    case Finished(_, _, _) => state.Free?
    case MailerStopped => true
  }

  ghost function MailClaimOf(reply: Reply): W.MailClaim {
    if reply.DeliveryClaimed? then W.Leased else if reply.Ineligible? then W.FailedIneligible else W.NothingDue
  }

  /** The effect of a delivery worker a step of the service stands for, if it is one. */
  ghost function MailActions(cfg: Config, s: System, step: Step, w: Owner): seq<W.MailAction> {
    var p := MailerOf(s, w);
    match step
    case MailClaim(x, q, d, ending) =>
      if x != w || !MailerFree(p) || q in s.doubts || !ending.Answered? then []
      else [W.Claim(MailClaimOf(Commit(cfg, s, Submission(q, Existing(Transactions.ClaimDelivery(d, w)), ending)).1))]
    case MailAdopt(x, adopted) =>
      if x != w || !p.MailClaimInDoubt? || !AdoptableDelivery(s, w, adopted) then []
      else [W.Claim(if adopted.Some? then W.Leased else W.NothingDue)]
    case MailPrepare(x, ready) =>
      if x != w || !p.Preparing? then [] else [W.Prepare(ready && VerifiedBytes(cfg, s, p.quote, p.fence.delivery).Some?)]
    case MailSend(x, outcome) => if x != w || !p.Ready? then [] else [W.Send(outcome)]
    case MailRecord(x, _) => if x != w || !p.Recording? || p.quote in s.doubts then [] else [W.Complete(p.outcome, true)]
    case MailDrop(x) =>
      if x != w || !MayDrop(p) then []
      else if p.Recording? then [W.Complete(p.outcome, false)]
      else if p.MailClaimInDoubt? then [W.Claim(W.MailClaimThrew)]
      else []
    case _ => []
  }

  function MailFollow(state: W.MailState, actions: seq<W.MailAction>): Option<W.MailState>
    decreases |actions|
  {
    if actions == [] then Some(state)
    else
      var next := W.MailNext(state, actions[0]);
      if next.None? then None else MailFollow(next.value, actions[1..])
  }

  ghost predicate MailLegal(state: W.MailState, actions: seq<W.MailAction>, p: Mailer) {
    MailFollow(state, actions).Some? && MailMatches(MailFollow(state, actions).value, p)
  }

  lemma NothingIsLegal(state: W.MailState, p: Mailer)
    requires MailMatches(state, p)
    ensures MailLegal(state, [], p)
  {
  }

  lemma OneMailActionIsLegal(state: W.MailState, a: W.MailAction, p: Mailer)
    requires W.MailNext(state, a).Some? && MailMatches(W.MailNext(state, a).value, p)
    ensures MailLegal(state, [a], p)
  {
    assert [a][1..] == [];
  }

  predicate MailStepOf(step: Step, w: Owner) { OfMailer(step) && step.worker == w }

  /** Where a local step of this worker takes it. */
  lemma MailLocalMoves(cfg: Config, s: System, step: Step, w: Owner)
    requires !MailStepOf(step, w) || step.MailInterrupt? || step.MailReconcile? || step.MailStop?
    requires Submits(s, step).None?
    ensures var (p, after) := (MailerOf(s, w), MailerOf(After(cfg, s, step), w));
            || after == p || after.MailerStopped?
            || (p.Ready? && after == Recording(p.quote, p.fence, PREPARATION_FAILED))
            || (p.CompletionInDoubt? && after.Finished?)
  {
    if OfMailer(step) && step.worker != w { OtherMailerMoves(cfg, s, step, w); }
  }

  lemma OtherMailerMoves(cfg: Config, s: System, step: Step, w: Owner)
    requires OfMailer(step) && step.worker != w
    ensures MailerOf(MailLocal(cfg, s, step), w) == MailerOf(s, w)
  {
  }

  lemma MailAdoptIsLegal(cfg: Config, s: System, w: Owner, adopted: Option<(QuoteId, DeliveryId)>, state: W.MailState)
    requires MailMatches(state, MailerOf(s, w))
    ensures MailLegal(state, MailActions(cfg, s, MailAdopt(w, adopted), w), MailerOf(After(cfg, s, MailAdopt(w, adopted)), w))
  {
    var (actions, after) := (MailActions(cfg, s, MailAdopt(w, adopted), w), MailerOf(After(cfg, s, MailAdopt(w, adopted)), w));
    if actions == [] { NothingIsLegal(state, after); } else { OneMailActionIsLegal(state, actions[0], after); }
  }

  lemma MailPrepareIsLegal(cfg: Config, s: System, w: Owner, ready: bool, state: W.MailState)
    requires MailMatches(state, MailerOf(s, w))
    ensures MailLegal(state, MailActions(cfg, s, MailPrepare(w, ready), w), MailerOf(After(cfg, s, MailPrepare(w, ready)), w))
  {
    var (actions, after) := (MailActions(cfg, s, MailPrepare(w, ready), w), MailerOf(After(cfg, s, MailPrepare(w, ready)), w));
    if actions == [] { NothingIsLegal(state, after); } else { OneMailActionIsLegal(state, actions[0], after); }
  }

  lemma MailSendIsLegal(cfg: Config, s: System, w: Owner, outcome: Deliveries.Outcome, state: W.MailState)
    requires MailMatches(state, MailerOf(s, w))
    ensures MailLegal(state, MailActions(cfg, s, MailSend(w, outcome), w), MailerOf(After(cfg, s, MailSend(w, outcome)), w))
  {
    var (actions, after) := (MailActions(cfg, s, MailSend(w, outcome), w), MailerOf(After(cfg, s, MailSend(w, outcome)), w));
    if actions == [] { NothingIsLegal(state, after); } else { OneMailActionIsLegal(state, actions[0], after); }
  }

  lemma MailDropIsLegal(cfg: Config, s: System, w: Owner, state: W.MailState)
    requires MailMatches(state, MailerOf(s, w))
    ensures MailLegal(state, MailActions(cfg, s, MailDrop(w), w), MailerOf(After(cfg, s, MailDrop(w)), w))
  {
    var (actions, after) := (MailActions(cfg, s, MailDrop(w), w), MailerOf(After(cfg, s, MailDrop(w)), w));
    if actions == [] { NothingIsLegal(state, after); } else { OneMailActionIsLegal(state, actions[0], after); }
  }

  /** An answer reaches the worker that submitted, and nobody else. */
  lemma MailSubmissionMoves(cfg: Config, s: System, step: Step, w: Owner)
    requires Submits(s, step).Some?
    ensures var x := Submits(s, step).value;
            var (p, after) := (MailerOf(s, w), MailerOf(After(cfg, s, step), w));
            var answered := x.ending.Answered?;
            after == if x.quote in s.doubts || !MailStepOf(step, w) then p
                     else if step.MailClaim? then MailClaimHeard(x.quote, answered, Commit(cfg, s, x).1)
                     else RecordHeard(p, answered, Commit(cfg, s, x).1)
  {
    CommitLeavesMailers(cfg, s, Submits(s, step).value);
  }

  lemma CommitLeavesMailers(cfg: Config, s: System, x: Submission)
    ensures Commit(cfg, s, x).0.mailers == s.mailers
  {
  }

  lemma MailSubmissionIsLegal(cfg: Config, s: System, step: Step, w: Owner, state: W.MailState)
    requires MailMatches(state, MailerOf(s, w)) && Submits(s, step).Some?
    ensures MailLegal(state, MailActions(cfg, s, step, w), MailerOf(After(cfg, s, step), w))
  {
    MailSubmissionMoves(cfg, s, step, w);
    var (actions, after) := (MailActions(cfg, s, step, w), MailerOf(After(cfg, s, step), w));
    if actions == [] { NothingIsLegal(state, after); } else { OneMailActionIsLegal(state, actions[0], after); }
  }

  lemma MailStepIsLegal(cfg: Config, s: System, step: Step, w: Owner, state: W.MailState)
    requires MailMatches(state, MailerOf(s, w))
    ensures MailLegal(state, MailActions(cfg, s, step, w), MailerOf(After(cfg, s, step), w))
  {
    if Submits(s, step).Some? { MailSubmissionIsLegal(cfg, s, step, w, state); }
    else { MailLocalIsLegal(cfg, s, step, w, state); }
  }

  lemma MailLocalIsLegal(cfg: Config, s: System, step: Step, w: Owner, state: W.MailState)
    requires MailMatches(state, MailerOf(s, w)) && Submits(s, step).None?
    ensures MailLegal(state, MailActions(cfg, s, step, w), MailerOf(After(cfg, s, step), w))
  {
    if MailStepOf(step, w) && step.MailAdopt? { MailAdoptIsLegal(cfg, s, w, step.adopted, state); }
    else if MailStepOf(step, w) && step.MailPrepare? { MailPrepareIsLegal(cfg, s, w, step.ready, state); }
    else if MailStepOf(step, w) && step.MailSend? { MailSendIsLegal(cfg, s, w, step.outcome, state); }
    else if MailStepOf(step, w) && step.MailDrop? { MailDropIsLegal(cfg, s, w, state); }
    else { QuietMailStepIsLegal(cfg, s, step, w, state); }
  }

  /** Steps that are no effect of this worker leave its loop where it stands. */
  lemma QuietMailStepIsLegal(cfg: Config, s: System, step: Step, w: Owner, state: W.MailState)
    requires MailMatches(state, MailerOf(s, w)) && Submits(s, step).None?
    requires !MailStepOf(step, w) || step.MailInterrupt? || step.MailReconcile? || step.MailStop? || step.MailClaim? || step.MailRecord?
    ensures MailLegal(state, MailActions(cfg, s, step, w), MailerOf(After(cfg, s, step), w))
  {
    if MailStepOf(step, w) && (step.MailClaim? || step.MailRecord?) {
      assert After(cfg, s, step) == s;
    } else {
      MailLocalMoves(cfg, s, step, w);
    }
    NothingIsLegal(state, MailerOf(After(cfg, s, step), w));
  }

  /** What a delivery worker does in a run. */
  ghost function MailTrace(cfg: Config, s: System, steps: seq<Step>, w: Owner): seq<W.MailAction>
    decreases |steps|
  {
    if steps == [] then [] else MailActions(cfg, s, steps[0], w) + MailTrace(cfg, After(cfg, s, steps[0]), steps[1..], w)
  }

  lemma {:induction false} MailReplaysOn(before: seq<W.MailAction>, actions: seq<W.MailAction>)
    requires W.MailReplay(before).Some? && MailFollow(W.MailReplay(before).value, actions).Some?
    ensures W.MailReplay(before + actions) == MailFollow(W.MailReplay(before).value, actions)
    decreases |actions|
  {
    if actions == [] {
      assert before + actions == before;
    } else {
      var longer := before + [actions[0]];
      assert longer[..|longer| - 1] == before;
      assert longer + actions[1..] == before + actions;
      MailReplaysOn(longer, actions[1..]);
    }
  }

  ghost predicate MailStands(trace: seq<W.MailAction>, p: Mailer) {
    W.MailReplay(trace).Some? && MailMatches(W.MailReplay(trace).value, p)
  }

  lemma MailStandsOn(cfg: Config, s: System, step: Step, w: Owner, before: seq<W.MailAction>)
    requires MailStands(before, MailerOf(s, w))
    ensures MailStands(before + MailActions(cfg, s, step, w), MailerOf(After(cfg, s, step), w))
  {
    MailStepIsLegal(cfg, s, step, w, W.MailReplay(before).value);
    MailReplaysOn(before, MailActions(cfg, s, step, w));
  }

  lemma MailTraceSplits(cfg: Config, s: System, steps: seq<Step>, w: Owner, before: seq<W.MailAction>)
    requires steps != []
    ensures before + MailTrace(cfg, s, steps, w) ==
            before + MailActions(cfg, s, steps[0], w) + MailTrace(cfg, After(cfg, s, steps[0]), steps[1..], w)
  {
    Regroups(before, MailActions(cfg, s, steps[0], w), MailTrace(cfg, After(cfg, s, steps[0]), steps[1..], w));
  }

  lemma {:induction false} MailRunIsLegal(cfg: Config, s: System, steps: seq<Step>, w: Owner, before: seq<W.MailAction>)
    requires MailStands(before, MailerOf(s, w))
    ensures W.MailReplay(before + MailTrace(cfg, s, steps, w)).Some?
    decreases |steps|
  {
    if steps == [] {
      assert before + [] == before;
    } else {
      MailStandsOn(cfg, s, steps[0], w, before);
      MailRunIsLegal(cfg, After(cfg, s, steps[0]), steps[1..], w, before + MailActions(cfg, s, steps[0], w));
      MailTraceSplits(cfg, s, steps, w, before);
    }
  }

  /** In every run a delivery worker's effects are a legal sequence, with at most one send per row leased to it. */
  lemma MailersFollowTheirLoop(cfg: Config, steps: seq<Step>, w: Owner)
    ensures var trace := MailTrace(cfg, INITIAL, steps, w);
            W.MailReplay(trace).Some? && W.Sends(trace) <= W.Claims(trace)
  {
    MailRunIsLegal(cfg, INITIAL, steps, w, []);
    assert [] + MailTrace(cfg, INITIAL, steps, w) == MailTrace(cfg, INITIAL, steps, w);
    W.OneSendPerClaim(MailTrace(cfg, INITIAL, steps, w));
  }

  // ---------- issuance ----------

  predicate Describes(cfg: Config, pdf: Bytes, document: Document) {
    document.pdfSha256 == cfg.sha256(pdf) && document.byteLength == |pdf|
  }

  /** While a commit is being read back its call has not returned. */
  predicate IssueMatches(cfg: Config, state: W.IssueState, p: Issuer) {
    match p
    case IssuerIdle => state.Idle?
    case ClaimInDoubt(_) => state.Idle?
    case Holding(_, _) => state.Loading?
    case Verified(_, _) => state.Rendering?
    case Rendered(_, _, pdf) => state == W.Publishing(pdf)
    case Published(_, _, document, _) => state.Committing? && Describes(cfg, state.pdf, document)
    case CommitInDoubt(_, _, document, _) => state.Committing? && Describes(cfg, state.pdf, document)
    case IssuerSucceeded(_, _, _) => state.Idle?
    case IssuerStopped => true
  }

  /** The effect that failed when an attempt fails in this phase. */
  function Failure(state: W.IssueState): seq<W.IssueAction> {
    match state
    case Loading => [W.Load(W.LoadFailed)]
    case Rendering => [W.Render(None)]
    case Publishing(_) => [W.Publish(None)]
    case Committing(pdf) => [W.CommitIssued(pdf, W.CommitThrew)]
    case _ => []
  }

  function Committed(state: W.IssueState, applied: bool): seq<W.IssueAction> {
    if state.Committing? then [W.CommitIssued(state.pdf, if applied then W.Applied else W.NotApplied)] else []
  }

  /** The effects of an issuance worker a step of the service stands for. */
  ghost function IssueActions(cfg: Config, s: System, step: Step, w: Owner, state: W.IssueState): seq<W.IssueAction> {
    var (p, after) := (IssuerOf(s, w), IssuerOf(After(cfg, s, step), w));
    match step
    case IssuerClaim(x, q, _, _, ending) =>
      if x != w || !IssuerFree(p) || q in s.doubts || !ending.Answered? then [] else [W.ClaimOperation(if after.Holding? then W.Handed else W.NoneDue)]
    case IssuerAdopt(x, found) =>
      if x != w || !p.ClaimInDoubt? || !AdoptableOperation(s, w, p.asked, found) then [] else [W.ClaimOperation(if found.Some? then W.Handed else W.NoneDue)]
    case IssuerVerify(x) => if x != w || !p.Holding? || !after.Verified? then [] else [W.Load(W.Snapshot)]
    case IssuerRender(x, pdf) => if x != w || !p.Verified? then [] else [W.Render(Some(pdf))]
    case IssuerPublish(x) => if x != w || !p.Rendered? || !after.Published? then [] else [W.Publish(Some(p.pdf))]
    case IssuerCommit(x, ending) =>
      if x != w || !p.Published? || p.quote in s.doubts || !ending.Answered? then [] else Committed(state, after.IssuerSucceeded?)
    case IssuerReconcile(x) =>
      if x != w || !p.CommitInDoubt? || after.Published? then [] else Committed(state, after.IssuerSucceeded?)
    case IssuerFail(x, _, ending) =>
      if x != w || !Attempting(p) || p.quote in s.doubts then [] else Failure(state) + [W.FailAttempt(ending.Answered?)]
    case IssuerAbandon(x) =>
      if x != w then []
      else if p.ClaimInDoubt? then [W.ClaimOperation(W.ClaimThrew)]
      else if Attempting(p) then Failure(state) + [W.Abandon]
      else []
    case _ => []
  }

  function IssueFollow(state: W.IssueState, actions: seq<W.IssueAction>): Option<W.IssueState>
    decreases |actions|
  {
    if actions == [] then Some(state)
    else
      var next := W.IssueNext(state, actions[0]);
      if next.None? then None else IssueFollow(next.value, actions[1..])
  }

  ghost predicate IssueLegal(cfg: Config, state: W.IssueState, actions: seq<W.IssueAction>, p: Issuer) {
    IssueFollow(state, actions).Some? && IssueMatches(cfg, IssueFollow(state, actions).value, p)
  }

  /** An attempt that fails in some phase, and what is then recorded or not. */
  lemma FailuresAreLegal(state: W.IssueState, last: W.IssueAction)
    requires !state.Idle? && !state.Failing? && (last.FailAttempt? || last.Abandon?)
    ensures IssueFollow(state, Failure(state) + [last]) == Some(W.Idle)
  {
    var failure := Failure(state)[0];
    assert W.IssueNext(state, failure) == Some(W.Failing) && W.IssueNext(W.Failing, last) == Some(W.Idle);
    assert Failure(state) + [last] == [failure, last] && [failure, last][1..] == [last] && [last][1..] == [];
    assert IssueFollow(W.Idle, []) == Some(W.Idle);
    assert IssueFollow(W.Failing, [last]) == Some(W.Idle);
  }

  lemma NoIssueActionIsLegal(cfg: Config, state: W.IssueState, p: Issuer)
    requires IssueMatches(cfg, state, p)
    ensures IssueLegal(cfg, state, [], p)
  {
  }

  lemma OneIssueActionIsLegal(cfg: Config, state: W.IssueState, a: W.IssueAction, p: Issuer)
    requires W.IssueNext(state, a).Some? && IssueMatches(cfg, W.IssueNext(state, a).value, p)
    ensures IssueLegal(cfg, state, [a], p)
  {
    assert [a][1..] == [];
  }

  /** At most one action, checked against the phase it leads to. */
  lemma FewActionsAreLegal(cfg: Config, state: W.IssueState, actions: seq<W.IssueAction>, p: Issuer)
    requires |actions| <= 1
    requires actions == [] ==> IssueMatches(cfg, state, p)
    requires actions != [] ==> W.IssueNext(state, actions[0]).Some? && IssueMatches(cfg, W.IssueNext(state, actions[0]).value, p)
    ensures IssueLegal(cfg, state, actions, p)
  {
    if actions == [] { NoIssueActionIsLegal(cfg, state, p); }
    else { assert actions == [actions[0]]; OneIssueActionIsLegal(cfg, state, actions[0], p); }
  }

  predicate OfIssuer(step: Step) {
    || step.IssuerClaim? || step.IssuerAdopt? || step.IssuerVerify? || step.IssuerRender? || step.IssuerPublish? || step.IssuerRenew?
    || step.IssuerCommit? || step.IssuerReconcile? || step.IssuerFail? || step.IssuerAbandon? || step.IssuerStop?
  }

  predicate IssueStepOf(step: Step, w: Owner) { OfIssuer(step) && step.worker == w }

  lemma IssuerAdoptIsLegal(cfg: Config, s: System, w: Owner, found: Option<(QuoteId, OperationId)>, state: W.IssueState)
    requires IssueMatches(cfg, state, IssuerOf(s, w))
    ensures IssueLegal(cfg, state, IssueActions(cfg, s, IssuerAdopt(w, found), w, state), IssuerOf(After(cfg, s, IssuerAdopt(w, found)), w))
  {
    FewActionsAreLegal(cfg, state, IssueActions(cfg, s, IssuerAdopt(w, found), w, state), IssuerOf(After(cfg, s, IssuerAdopt(w, found)), w));
  }

  /** Verifying, rendering and publishing. */
  lemma IssuerWorkIsLegal(cfg: Config, s: System, step: Step, w: Owner, state: W.IssueState)
    requires IssueMatches(cfg, state, IssuerOf(s, w)) && (step.IssuerVerify? || step.IssuerRender? || step.IssuerPublish?) && step.worker == w
    ensures IssueLegal(cfg, state, IssueActions(cfg, s, step, w, state), IssuerOf(After(cfg, s, step), w))
  {
    FewActionsAreLegal(cfg, state, IssueActions(cfg, s, step, w, state), IssuerOf(After(cfg, s, step), w));
  }

  lemma IssuerReconcileIsLegal(cfg: Config, s: System, w: Owner, state: W.IssueState)
    requires IssueMatches(cfg, state, IssuerOf(s, w))
    ensures IssueLegal(cfg, state, IssueActions(cfg, s, IssuerReconcile(w), w, state), IssuerOf(After(cfg, s, IssuerReconcile(w)), w))
  {
    FewActionsAreLegal(cfg, state, IssueActions(cfg, s, IssuerReconcile(w), w, state), IssuerOf(After(cfg, s, IssuerReconcile(w)), w));
  }

  lemma IssuerAbandonIsLegal(cfg: Config, s: System, w: Owner, state: W.IssueState)
    requires IssueMatches(cfg, state, IssuerOf(s, w))
    ensures IssueLegal(cfg, state, IssueActions(cfg, s, IssuerAbandon(w), w, state), IssuerOf(After(cfg, s, IssuerAbandon(w)), w))
  {
    if Attempting(IssuerOf(s, w)) {
      FailuresAreLegal(state, W.Abandon);
    } else {
      FewActionsAreLegal(cfg, state, IssueActions(cfg, s, IssuerAbandon(w), w, state), IssuerOf(After(cfg, s, IssuerAbandon(w)), w));
    }
  }

  lemma OtherIssuerMoves(cfg: Config, s: System, step: Step, w: Owner)
    requires !IssueStepOf(step, w)
    ensures IssuerOf(IssuerLocal(cfg, s, step), w) == IssuerOf(s, w)
  {
  }

  /** Steps that are no effect of this worker, and submit nothing, leave its loop where it stands, or stop it. */
  lemma QuietIssueStepIsLegal(cfg: Config, s: System, step: Step, w: Owner, state: W.IssueState)
    requires IssueMatches(cfg, state, IssuerOf(s, w)) && Submits(s, step).None?
    requires !IssueStepOf(step, w) || step.IssuerClaim? || step.IssuerRenew? || step.IssuerCommit? || step.IssuerFail? || step.IssuerStop?
    ensures IssueLegal(cfg, state, IssueActions(cfg, s, step, w, state), IssuerOf(After(cfg, s, step), w))
  {
    QuietIssuerMoves(cfg, s, step, w);
    NoIssueActionIsLegal(cfg, state, IssuerOf(After(cfg, s, step), w));
  }

  lemma QuietIssuerMoves(cfg: Config, s: System, step: Step, w: Owner)
    requires Submits(s, step).None?
    requires !IssueStepOf(step, w) || step.IssuerClaim? || step.IssuerRenew? || step.IssuerCommit? || step.IssuerFail? || step.IssuerStop?
    ensures IssuerOf(After(cfg, s, step), w) == IssuerOf(s, w) || IssuerOf(After(cfg, s, step), w).IssuerStopped?
  {
    if OfMailer(step) { ServiceSafety.MailLocalIsLocal(cfg, s, step); }
    else if !IssueStepOf(step, w) { OtherIssuerMoves(cfg, s, step, w); }
  }

  lemma IssueLocalIsLegal(cfg: Config, s: System, step: Step, w: Owner, state: W.IssueState)
    requires IssueMatches(cfg, state, IssuerOf(s, w)) && Submits(s, step).None?
    ensures IssueLegal(cfg, state, IssueActions(cfg, s, step, w, state), IssuerOf(After(cfg, s, step), w))
  {
    if !IssueStepOf(step, w) { QuietIssueStepIsLegal(cfg, s, step, w, state); }
    else {
      match step
      case IssuerAdopt(_, found) => IssuerAdoptIsLegal(cfg, s, w, found, state);
      case IssuerVerify(_) => IssuerWorkIsLegal(cfg, s, step, w, state);
      case IssuerRender(_, _) => IssuerWorkIsLegal(cfg, s, step, w, state);
      case IssuerPublish(_) => IssuerWorkIsLegal(cfg, s, step, w, state);
      case IssuerReconcile(_) => IssuerReconcileIsLegal(cfg, s, w, state);
      case IssuerAbandon(_) => IssuerAbandonIsLegal(cfg, s, w, state);
      case _ => QuietIssueStepIsLegal(cfg, s, step, w, state);
    }
  }

  /** An answer reaches the worker that submitted, and nobody else. */
  lemma IssueSubmissionMoves(cfg: Config, s: System, step: Step, w: Owner)
    requires Submits(s, step).Some?
    ensures var x := Submits(s, step).value;
            var (p, after) := (IssuerOf(s, w), IssuerOf(After(cfg, s, step), w));
            var answered := x.ending.Answered?;
            after == if x.quote in s.doubts || !IssueStepOf(step, w) then p
                     else if step.IssuerClaim? then ClaimHeard(x.quote, Asked(x.quote, step.operation, step.only), answered, Commit(cfg, s, x).1)
                     else if step.IssuerCommit? then CommitHeard(p, answered, Commit(cfg, s, x).1)
                     else if step.IssuerFail? then IssuerIdle
                     else p
  {
    ServiceSafety.CommitLeavesIssuers(cfg, s, Submits(s, step).value);
  }

  lemma IssuerFailIsLegal(cfg: Config, s: System, step: Step, w: Owner, state: W.IssueState)
    requires IssueMatches(cfg, state, IssuerOf(s, w)) && step.IssuerFail? && step.worker == w && Submits(s, step).Some?
    ensures IssueLegal(cfg, state, IssueActions(cfg, s, step, w, state), IssuerOf(After(cfg, s, step), w))
  {
    IssueSubmissionMoves(cfg, s, step, w);
    if IssuerOf(s, w).quote in s.doubts {
      NoIssueActionIsLegal(cfg, state, IssuerOf(s, w));
    } else {
      FailuresAreLegal(state, W.FailAttempt(step.ending.Answered?));
    }
  }

  lemma IssueSubmissionIsLegal(cfg: Config, s: System, step: Step, w: Owner, state: W.IssueState)
    requires IssueMatches(cfg, state, IssuerOf(s, w)) && Submits(s, step).Some?
    ensures IssueLegal(cfg, state, IssueActions(cfg, s, step, w, state), IssuerOf(After(cfg, s, step), w))
  {
    if step.IssuerFail? && step.worker == w {
      IssuerFailIsLegal(cfg, s, step, w, state);
    } else {
      IssueSubmissionMoves(cfg, s, step, w);
      FewActionsAreLegal(cfg, state, IssueActions(cfg, s, step, w, state), IssuerOf(After(cfg, s, step), w));
    }
  }

  lemma IssueStepIsLegal(cfg: Config, s: System, step: Step, w: Owner, state: W.IssueState)
    requires IssueMatches(cfg, state, IssuerOf(s, w))
    ensures IssueLegal(cfg, state, IssueActions(cfg, s, step, w, state), IssuerOf(After(cfg, s, step), w))
  {
    if Submits(s, step).Some? { IssueSubmissionIsLegal(cfg, s, step, w, state); }
    else { IssueLocalIsLegal(cfg, s, step, w, state); }
  }

  /** What an issuance worker does in a run, from where its loop stands. */
  ghost function IssueTrace(cfg: Config, s: System, steps: seq<Step>, w: Owner, state: W.IssueState): seq<W.IssueAction>
    decreases |steps|
  {
    if steps == [] then []
    else
      var actions := IssueActions(cfg, s, steps[0], w, state);
      var next := IssueFollow(state, actions);
      if next.None? then actions else actions + IssueTrace(cfg, After(cfg, s, steps[0]), steps[1..], w, next.value)
  }

  lemma {:induction false} IssueReplaysOn(before: seq<W.IssueAction>, actions: seq<W.IssueAction>)
    requires W.IssueReplay(before).Some? && IssueFollow(W.IssueReplay(before).value, actions).Some?
    ensures W.IssueReplay(before + actions) == IssueFollow(W.IssueReplay(before).value, actions)
    decreases |actions|
  {
    if actions == [] {
      assert before + actions == before;
    } else {
      var longer := before + [actions[0]];
      assert longer[..|longer| - 1] == before;
      assert longer + actions[1..] == before + actions;
      IssueReplaysOn(longer, actions[1..]);
    }
  }

  ghost predicate IssueStands(cfg: Config, trace: seq<W.IssueAction>, p: Issuer) {
    W.IssueReplay(trace).Some? && IssueMatches(cfg, W.IssueReplay(trace).value, p)
  }

  lemma IssueStandsOn(cfg: Config, s: System, step: Step, w: Owner, before: seq<W.IssueAction>)
    requires IssueStands(cfg, before, IssuerOf(s, w))
    ensures var (state, actions) := (W.IssueReplay(before).value, IssueActions(cfg, s, step, w, W.IssueReplay(before).value));
            && IssueStands(cfg, before + actions, IssuerOf(After(cfg, s, step), w))
            && W.IssueReplay(before + actions) == IssueFollow(state, actions)
  {
    IssueStepIsLegal(cfg, s, step, w, W.IssueReplay(before).value);
    IssueReplaysOn(before, IssueActions(cfg, s, step, w, W.IssueReplay(before).value));
  }

  lemma IssueTraceSplits(cfg: Config, s: System, steps: seq<Step>, w: Owner, state: W.IssueState, before: seq<W.IssueAction>)
    requires steps != []
    ensures var actions := IssueActions(cfg, s, steps[0], w, state);
            IssueFollow(state, actions).Some? ==>
              before + IssueTrace(cfg, s, steps, w, state) ==
              before + actions + IssueTrace(cfg, After(cfg, s, steps[0]), steps[1..], w, IssueFollow(state, actions).value)
  {
    var actions := IssueActions(cfg, s, steps[0], w, state);
    if IssueFollow(state, actions).Some? {
      Regroups(before, actions, IssueTrace(cfg, After(cfg, s, steps[0]), steps[1..], w, IssueFollow(state, actions).value));
    }
  }

  lemma {:induction false} IssueRunIsLegal(cfg: Config, s: System, steps: seq<Step>, w: Owner, before: seq<W.IssueAction>)
    requires IssueStands(cfg, before, IssuerOf(s, w))
    ensures W.IssueReplay(before + IssueTrace(cfg, s, steps, w, W.IssueReplay(before).value)).Some?
    decreases |steps|
  {
    var state := W.IssueReplay(before).value;
    if steps == [] {
      assert before + [] == before;
    } else {
      IssueStandsOn(cfg, s, steps[0], w, before);
      IssueRunIsLegal(cfg, After(cfg, s, steps[0]), steps[1..], w, before + IssueActions(cfg, s, steps[0], w, state));
      IssueTraceSplits(cfg, s, steps, w, state, before);
    }
  }

  /** In every run an issuance worker's effects are a legal sequence: what it commits it published and rendered in that attempt. */
  lemma IssuersFollowTheirLoop(cfg: Config, steps: seq<Step>, w: Owner, i: nat)
    ensures var trace := IssueTrace(cfg, INITIAL, steps, w, W.Idle);
            && W.IssueReplay(trace).Some?
            && (i < |trace| && trace[i].CommitIssued? ==>
                  i >= 4 && trace[i - 1] == W.Publish(Some(trace[i].pdf)) && trace[i - 4] == W.ClaimOperation(W.Handed))
  {
    var trace := IssueTrace(cfg, INITIAL, steps, w, W.Idle);
    IssueRunIsLegal(cfg, INITIAL, steps, w, []);
    assert [] + trace == trace;
    if i < |trace| && trace[i].CommitIssued? { W.CommitsFollowPublications(trace, i); }
  }
}
