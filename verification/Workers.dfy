/**
 * One process's workers as they run (src/application/quote-v2/delivery/delivery-worker.ts,
 * src/application/quote-v2/issuance-worker.ts and issuance-attempt.ts): a single slot, sequential
 * claims, and a fixed order of effects within an attempt. Whatever the repository, the renderer, the
 * store and the provider answer, the effects of a tick are a legal sequence.
 */
module Workers {
  import opened Wrappers
  import opened Rows
  import Deliveries

  // ---------- email delivery ----------

  datatype MailClaim = NothingDue | FailedIneligible | Leased | MailClaimThrew

  /** Effects on the repository and on the provider, in the order they happen. */
  datatype MailAction =
    | Claim(claim: MailClaim)
    | Prepare(ready: bool)
    | Send(outcome: Deliveries.Outcome)
    | Complete(reported: Deliveries.Outcome, recorded: bool)

  /** What the process may do next. */
  datatype MailState = Free | Held | CanSend | MustReport(outcome: Deliveries.Outcome)

  const NOT_SENT := Deliveries.NotAccepted(true, 0)

  /** At most one provider call per claim, and every outcome reported is the one learned. */
  function MailNext(state: MailState, a: MailAction): Option<MailState> {
    match a
    case Claim(claim) => if state.Free? then Some(if claim.Leased? then Held else Free) else None
    case Prepare(ready) => if state.Held? then Some(if ready then CanSend else MustReport(NOT_SENT)) else None
    case Send(outcome) => if state.CanSend? then Some(MustReport(outcome)) else None
    case Complete(reported, _) =>
      if (state.MustReport? && state.outcome == reported) || (state.CanSend? && reported == NOT_SENT) then Some(Free) else None
  }

  function MailReplay(trace: seq<MailAction>): Option<MailState> {
    if trace == [] then Some(Free)
    else
      var before := MailReplay(trace[..|trace| - 1]);
      if before.None? then None else MailNext(before.value, trace[|trace| - 1])
  }

  function Sends(trace: seq<MailAction>): nat {
    if trace == [] then 0 else Sends(trace[..|trace| - 1]) + if trace[|trace| - 1].Send? then 1 else 0
  }

  function Claims(trace: seq<MailAction>): nat {
    if trace == [] then 0
    else Claims(trace[..|trace| - 1]) + if trace[|trace| - 1].Claim? && trace[|trace| - 1].claim.Leased? then 1 else 0
  }

  /** In a legal trace no claim leads to two provider calls. */
  lemma {:induction false} OneSendPerClaim(trace: seq<MailAction>)
    requires MailReplay(trace).Some?
    ensures Sends(trace) + (if MailReplay(trace).value.Held? || MailReplay(trace).value.CanSend? then 1 else 0) <= Claims(trace)
    decreases |trace|
  {
    if trace != [] { OneSendPerClaim(trace[..|trace| - 1]); }
  }

  /** What the surroundings answer at each moment; the moment is the number of effects so far. */
  datatype MailWorld = MailWorld(
    claim: nat -> MailClaim,
    ready: nat -> bool,
    stopped: nat -> bool,
    leaseLeft: nat -> bool,
    outcome: nat -> Deliveries.Outcome,
    recorded: nat -> bool)

  /**
   * Every effect is what the surroundings answered. Nothing is claimed once the process is stopping, and a
   * prepared message is sent exactly unless the process is stopping or too little lease is left.
   */
  predicate MailHeeds(world: MailWorld, state: MailState, a: MailAction, moment: nat) {
    match a
    case Claim(claim) => !world.stopped(moment) && claim == world.claim(moment)
    case Prepare(ready) => ready == world.ready(moment)
    case Send(outcome) => !world.stopped(moment) && world.leaseLeft(moment) && outcome == world.outcome(moment)
    case Complete(_, recorded) =>
      recorded == world.recorded(moment) && (state.CanSend? ==> world.stopped(moment) || !world.leaseLeft(moment))
  }

  /** Every effect heeds a stop, whenever it is raised. */
  predicate MailHeeded(world: MailWorld, trace: seq<MailAction>) {
    trace == [] ||
    var before := trace[..|trace| - 1];
    MailHeeded(world, before) && MailReplay(before).Some?
    && MailHeeds(world, MailReplay(before).value, trace[|trace| - 1], |before|)
  }

  ghost predicate MailHeedsAt(world: MailWorld, trace: seq<MailAction>, i: nat)
    requires i < |trace|
  {
    MailReplay(trace[..i]).Some? && MailHeeds(world, MailReplay(trace[..i]).value, trace[i], i)
  }

  lemma {:induction false} MailHeededAt(world: MailWorld, trace: seq<MailAction>, i: nat)
    requires MailHeeded(world, trace) && i < |trace|
    ensures MailHeedsAt(world, trace, i)
    decreases |trace|
  {
    if i < |trace| - 1 {
      MailHeededAt(world, trace[..|trace| - 1], i);
      assert trace[..|trace| - 1][..i] == trace[..i];
    }
  }

  /** Rows taken, handed over or failed unsent. */
  function Taken(trace: seq<MailAction>): nat {
    if trace == [] then 0
    else
      var last := trace[|trace| - 1];
      Taken(trace[..|trace| - 1]) + if last.Claim? && (last.claim.Leased? || last.claim.FailedIneligible?) then 1 else 0
  }

  /** The only error a tick does not handle itself. */
  predicate MailEscapes(a: MailAction) { a == Claim(MailClaimThrew) }

  class DeliveryWorker {
    const world: MailWorld
    const maxClaimsPerTick: nat
    var slotTaken: bool
    var trace: seq<MailAction>

    constructor (world: MailWorld, maxClaimsPerTick: nat)
      ensures !slotTaken && trace == [] && this.maxClaimsPerTick == maxClaimsPerTick
    {
      this.world, this.maxClaimsPerTick := world, maxClaimsPerTick;
      slotTaken, trace := false, [];
    }

    ghost predicate Between()
      reads this
    {
      MailReplay(trace) == Some(Free) && MailHeeded(world, trace)
    }

    method Do(a: MailAction)
      requires MailReplay(trace).Some? && MailHeeded(world, trace)
      requires MailHeeds(world, MailReplay(trace).value, a, |trace|)
      modifies this`trace
      ensures MailHeeded(world, trace)
      ensures trace == old(trace) + [a]
      ensures MailReplay(trace) == MailNext(MailReplay(old(trace)).value, a)
      ensures Sends(trace) == Sends(old(trace)) + (if a.Send? then 1 else 0)
      ensures Taken(trace) == Taken(old(trace)) + if a.Claim? && (a.claim.Leased? || a.claim.FailedIneligible?) then 1 else 0
    {
      assert (trace + [a])[..|trace|] == trace;
      trace := trace + [a];
    }

    /** Prepare, then send unless stopping or short of lease, then report. */
    method RunAttempt()
      requires MailReplay(trace) == Some(Held) && MailHeeded(world, trace)
      modifies this`trace
      ensures Between() && old(trace) < trace && Sends(trace) <= Sends(old(trace)) + 1 && trace[|trace| - 1].Complete?
      ensures Taken(trace) == Taken(old(trace))
    {
      var outcome := NOT_SENT;
      var ready := world.ready(|trace|);
      Do(Prepare(ready));
      if ready && !world.stopped(|trace|) && world.leaseLeft(|trace|) {
        outcome := world.outcome(|trace|);
        Do(Send(outcome));
      }
      Do(Complete(outcome, world.recorded(|trace|)));
    }

    /**
     * Claims and runs deliveries one after the other, and ends for one of the reasons stated only. A claim that throws ends the tick; whatever ends it, the slot is released.
     */
    method Tick() returns (claims: nat, threw: bool)
      requires Between()
      modifies this`slotTaken, this`trace
      ensures Between() && old(trace) <= trace && slotTaken == old(slotTaken)
      ensures claims <= maxClaimsPerTick && Sends(trace) <= Sends(old(trace)) + claims && Taken(trace) == Taken(old(trace)) + claims
      ensures forall i | 0 <= i < |trace| :: MailHeedsAt(world, trace, i)
      ensures claims == maxClaimsPerTick || old(slotTaken) || world.stopped(|trace|) || threw
              || (trace != old(trace) && trace[|trace| - 1] == Claim(MailClaim.NothingDue))
      ensures threw <==> trace != old(trace) && MailEscapes(trace[|trace| - 1])
      ensures old(slotTaken) || world.stopped(|old(trace)|) ==> claims == 0 && trace == old(trace)
    {
      claims, threw := 0, false;
      while claims < maxClaimsPerTick && !world.stopped(|trace|) && !slotTaken
        invariant Between() && old(trace) <= trace && slotTaken == old(slotTaken)
        invariant claims <= maxClaimsPerTick && Sends(trace) <= Sends(old(trace)) + claims && Taken(trace) == Taken(old(trace)) + claims
        invariant !threw && (trace == old(trace) || !MailEscapes(trace[|trace| - 1]))
        invariant old(slotTaken) || world.stopped(|old(trace)|) ==> claims == 0 && trace == old(trace)
        decreases maxClaimsPerTick - claims
      {
        slotTaken := true;
        var claim := world.claim(|trace|);
        Do(Claim(claim));
        if claim.NothingDue? || claim.MailClaimThrew? {
          slotTaken, threw := false, claim.MailClaimThrew?;
          break;
        }
        claims := claims + 1;
        if claim.Leased? {
          RunAttempt();
        }
        slotTaken := false;
      }
      forall i | 0 <= i < |trace| ensures MailHeedsAt(world, trace, i) { MailHeededAt(world, trace, i); }
    }
  }

  // ---------- issuance ----------

  datatype IssueClaim = Handed | NoneDue | ClaimThrew

  datatype Loaded = Snapshot | IntegrityFailed | LoadFailed

  /** commitIssued answers, or throws when reading a commit back fails or the snapshot differs. */
  datatype CommitResult = Applied | NotApplied | CommitThrew

  datatype IssueAction =
    | ClaimOperation(claim: IssueClaim)
    | Load(loaded: Loaded)
    | Render(rendered: Option<Bytes>)
    | Publish(published: Option<Bytes>)
    | CommitIssued(pdf: Bytes, result: CommitResult)
    | FailAttempt(recorded: bool)
    | Abandon

  datatype IssueState = Idle | Loading | Rendering | Publishing(pdf: Bytes) | Committing(pdf: Bytes) | Failing

  /** Verify, render, publish, commit: what is committed was published in this attempt, and what was published was rendered in it. */
  function IssueNext(state: IssueState, a: IssueAction): Option<IssueState> {
    match a
    case ClaimOperation(claim) => if state.Idle? then Some(if claim.Handed? then Loading else Idle) else None
    case Load(loaded) => if state.Loading? then Some(if loaded.Snapshot? then Rendering else Failing) else None
    case Render(pdf) => if state.Rendering? then Some(if pdf.Some? then Publishing(pdf.value) else Failing) else None
    case Publish(published) =>
      if !state.Publishing? then None
      else if published.None? then Some(Failing)
      else if published.value == state.pdf then Some(Committing(state.pdf))
      else None
    case CommitIssued(pdf, result) => if state == Committing(pdf) then Some(if result.CommitThrew? then Failing else Idle) else None
    case FailAttempt(_) => if state.Failing? then Some(Idle) else None
    case Abandon => if state.Idle? || state.Loading? then None else Some(Idle)
  }

  function IssueReplay(trace: seq<IssueAction>): Option<IssueState> {
    if trace == [] then Some(Idle)
    else
      var before := IssueReplay(trace[..|trace| - 1]);
      if before.None? then None else IssueNext(before.value, trace[|trace| - 1])
  }

  /** Each state within an attempt is entered by one action from one state. */
  predicate Entered(before: IssueState, last: IssueAction, state: IssueState) {
    && (state.Loading? ==> last == ClaimOperation(Handed))
    && (state.Rendering? ==> last == Load(Snapshot) && before == Loading)
    && (state.Publishing? ==> last == Render(Some(state.pdf)) && before == Rendering)
    && (state.Committing? ==> last == Publish(Some(state.pdf)) && before == Publishing(state.pdf))
    && (last.CommitIssued? ==> before == Committing(last.pdf))
  }

  lemma OneWayIn(before: IssueState, last: IssueAction, state: IssueState)
    requires IssueNext(before, last) == Some(state)
    ensures Entered(before, last, state)
  {
  }

  lemma {:induction false} PrefixesReplay(trace: seq<IssueAction>, n: nat)
    requires IssueReplay(trace).Some? && n <= |trace|
    ensures IssueReplay(trace[..n]).Some?
    decreases |trace|
  {
    if n == |trace| {
      assert trace[..n] == trace;
    } else {
      PrefixesReplay(trace[..|trace| - 1], n);
      assert trace[..|trace| - 1][..n] == trace[..n];
    }
  }

  lemma ComesBefore(trace: seq<IssueAction>, n: nat)
    requires IssueReplay(trace).Some? && 0 < n <= |trace|
    ensures IssueReplay(trace[..n]).Some? && IssueReplay(trace[..n - 1]).Some?
    ensures Entered(IssueReplay(trace[..n - 1]).value, trace[n - 1], IssueReplay(trace[..n]).value)
  {
    PrefixesReplay(trace, n);
    PrefixesReplay(trace, n - 1);
    assert trace[..n][..n - 1] == trace[..n - 1] && trace[..n][n - 1] == trace[n - 1];
    OneWayIn(IssueReplay(trace[..n - 1]).value, trace[n - 1], IssueReplay(trace[..n]).value);
  }

  /** A committed document was rendered and published in the attempt that commits it, from a verified snapshot. */
  lemma CommitsFollowPublications(trace: seq<IssueAction>, i: nat)
    requires IssueReplay(trace).Some? && i < |trace| && trace[i].CommitIssued?
    ensures i >= 4 && trace[i - 1] == Publish(Some(trace[i].pdf)) && trace[i - 2] == Render(Some(trace[i].pdf))
    ensures trace[i - 3] == Load(Snapshot) && trace[i - 4] == ClaimOperation(Handed)
  {
    assert IssueReplay(trace[..0]) == Some(Idle);
    ComesBefore(trace, i + 1);
    ComesBefore(trace, i);
    ComesBefore(trace, i - 1);
    ComesBefore(trace, i - 2);
    ComesBefore(trace, i - 3);
  }

  /** A lease that a renewal found lost, or that was not renewed because the deadline was reached. */
  datatype LeaseState = LeaseHeld | LeaseLost | AtDeadline

  /**
   * What the surroundings answer at each moment: claims, loads, renderings, publications, commits,
   * recorded failures, the last renewal, whether `stop` was called, and whether the process shuts down.
   */
  datatype IssueWorld = IssueWorld(
    claim: nat -> IssueClaim,
    load: nat -> Loaded,
    render: nat -> Option<Bytes>,
    publish: nat -> bool,
    commit: nat -> CommitResult,
    recorded: nat -> bool,
    lease: nat -> LeaseState,
    stopping: nat -> bool,
    shuttingDown: nat -> bool)

  /** The attempt's signal: aborted by `stop`, by a lost lease, and by a renewal at the deadline. */
  predicate Aborted(world: IssueWorld, moment: nat) { world.stopping(moment) || !world.lease(moment).LeaseHeld? }

  /** A failure is recorded unless the lease was lost or `stop` was called; a lease at its deadline is still held. */
  predicate Records(world: IssueWorld, moment: nat) { !world.lease(moment).LeaseLost? && !world.stopping(moment) }

  /**
   * Every effect is what the surroundings answered. Only claims heed a shutdown as well as `stop`. An aborted attempt renders, publishes and commits
   * nothing, and is abandoned; a failed one is recorded or abandoned.
   */
  predicate IssueHeeds(world: IssueWorld, state: IssueState, a: IssueAction, moment: nat) {
    match a
    case ClaimOperation(claim) => !world.stopping(moment) && !world.shuttingDown(moment) && claim == world.claim(moment)
    case Load(loaded) => loaded == world.load(moment)
    case Render(rendered) => !Aborted(world, moment) && rendered == world.render(moment)
    case Publish(published) => !Aborted(world, moment) && published.Some? == world.publish(moment)
    case CommitIssued(_, result) => !Aborted(world, moment) && result == world.commit(moment)
    case FailAttempt(recorded) => Records(world, moment) && recorded == world.recorded(moment)
    case Abandon => if state.Failing? then !Records(world, moment) else Aborted(world, moment)
  }

  /** Every effect so far heeds the lease, a stop and a shutdown, whenever they come. */
  predicate IssueHeeded(world: IssueWorld, trace: seq<IssueAction>) {
    trace == [] ||
    var before := trace[..|trace| - 1];
    IssueHeeded(world, before) && IssueReplay(before).Some?
    && IssueHeeds(world, IssueReplay(before).value, trace[|trace| - 1], |before|)
  }

  ghost predicate HeedsAt(world: IssueWorld, trace: seq<IssueAction>, i: nat)
    requires i < |trace|
  {
    IssueReplay(trace[..i]).Some? && IssueHeeds(world, IssueReplay(trace[..i]).value, trace[i], i)
  }

  lemma {:induction false} IssueHeededAt(world: IssueWorld, trace: seq<IssueAction>, i: nat)
    requires IssueHeeded(world, trace) && i < |trace|
    ensures HeedsAt(world, trace, i)
    decreases |trace|
  {
    if i < |trace| - 1 {
      IssueHeededAt(world, trace[..|trace| - 1], i);
      assert trace[..|trace| - 1][..i] == trace[..i];
    }
  }

  /**
   * An attempt that failed is recorded exactly if, at that moment, its lease is not lost and nobody
   * called `stop`: also when the deadline alone aborted it, and in a process that is only shutting down.
   */
  lemma FailuresAreRecordedUnless(world: IssueWorld, trace: seq<IssueAction>, i: nat)
    requires IssueHeeded(world, trace) && IssueReplay(trace).Some? && i < |trace|
    requires IssueReplay(trace[..i]) == Some(Failing)
    ensures trace[i].FailAttempt? <==> world.lease(i) != LeaseLost && !world.stopping(i)
    ensures !trace[i].FailAttempt? ==> trace[i].Abandon?
  {
    IssueHeededAt(world, trace, i);
    PrefixesReplay(trace, i + 1);
    assert trace[..i + 1][..i] == trace[..i] && trace[..i + 1][i] == trace[i];
  }

  /** From a `stop` on, a worker at most finishes loading: it claims, renders, publishes, commits and records nothing. */
  lemma StopIsFinal(world: IssueWorld, trace: seq<IssueAction>, stop: nat, i: nat)
    requires IssueHeeded(world, trace) && stop <= i < |trace| && forall moment | moment >= stop :: world.stopping(moment)
    ensures trace[i].Load? || trace[i].Abandon?
  {
    IssueHeededAt(world, trace, i);
  }

  /** Operations handed to this process. */
  function Attempts(trace: seq<IssueAction>): nat {
    if trace == [] then 0
    else Attempts(trace[..|trace| - 1]) + if trace[|trace| - 1] == ClaimOperation(Handed) then 1 else 0
  }

  /** Errors a tick or an inline run does not handle itself. */
  predicate Escapes(a: IssueAction) { a == ClaimOperation(ClaimThrew) || a == FailAttempt(false) }

  class IssuanceWorker {
    const world: IssueWorld
    const maxClaimsPerTick: nat
    var slotTaken: bool
    var trace: seq<IssueAction>

    constructor (world: IssueWorld, maxClaimsPerTick: nat)
      ensures !slotTaken && trace == [] && this.maxClaimsPerTick == maxClaimsPerTick
    {
      this.world, this.maxClaimsPerTick := world, maxClaimsPerTick;
      slotTaken, trace := false, [];
    }

    ghost predicate At(state: IssueState)
      reads this
    {
      IssueReplay(trace) == Some(state) && IssueHeeded(world, trace)
    }

    method Do(a: IssueAction)
      requires IssueReplay(trace).Some? && IssueHeeded(world, trace)
      requires IssueHeeds(world, IssueReplay(trace).value, a, |trace|)
      modifies this`trace
      ensures IssueHeeded(world, trace)
      ensures trace == old(trace) + [a]
      ensures IssueReplay(trace) == IssueNext(IssueReplay(old(trace)).value, a)
      ensures Attempts(trace) == Attempts(old(trace)) + if a == ClaimOperation(Handed) then 1 else 0
    {
      assert (trace + [a])[..|trace|] == trace;
      trace := trace + [a];
    }

    /** Records the failure, or abandons the attempt; recording may throw. */
    method EndFailed() returns (threw: bool)
      requires At(Failing)
      modifies this`trace
      ensures At(Idle) && old(trace) < trace && Attempts(trace) == Attempts(old(trace)) && (threw <==> Escapes(trace[|trace| - 1]))
    {
      if world.lease(|trace|).LeaseLost? || world.stopping(|trace|) {
        Do(Abandon);
        return false;
      }
      var recorded := world.recorded(|trace|);
      Do(FailAttempt(recorded));
      threw := !recorded;
    }

    /** The integrity check, then the body. */
    method RunAttempt() returns (threw: bool)
      requires At(Loading)
      modifies this`trace
      ensures At(Idle) && old(trace) < trace && Attempts(trace) == Attempts(old(trace)) && (threw <==> Escapes(trace[|trace| - 1]))
    {
      var loaded := world.load(|trace|);
      Do(Load(loaded));
      if loaded.Snapshot? {
        threw := RunBody();
      } else {
        threw := EndFailed();
      }
    }

    /** Render, unless the attempt was aborted meanwhile. */
    method RunBody() returns (threw: bool)
      requires At(Rendering)
      modifies this`trace
      ensures At(Idle) && old(trace) < trace && Attempts(trace) == Attempts(old(trace)) && (threw <==> Escapes(trace[|trace| - 1]))
    {
      if Aborted(world, |trace|) {
        Do(Abandon);
        return false;
      }
      var pdf := world.render(|trace|);
      Do(Render(pdf));
      if pdf.Some? {
        threw := PublishPdf(pdf.value);
      } else {
        threw := EndFailed();
      }
    }

    method PublishPdf(pdf: Bytes) returns (threw: bool)
      requires At(Publishing(pdf))
      modifies this`trace
      ensures At(Idle) && old(trace) < trace && Attempts(trace) == Attempts(old(trace)) && (threw <==> Escapes(trace[|trace| - 1]))
    {
      if Aborted(world, |trace|) {
        Do(Abandon);
        return false;
      }
      var published := if world.publish(|trace|) then Some(pdf) else None;
      Do(Publish(published));
      if published.None? {
        threw := EndFailed();
      } else {
        threw := CommitPublished(pdf);
      }
    }

    method CommitPublished(pdf: Bytes) returns (threw: bool)
      requires At(Committing(pdf))
      modifies this`trace
      ensures At(Idle) && old(trace) < trace && Attempts(trace) == Attempts(old(trace)) && (threw <==> Escapes(trace[|trace| - 1]))
    {
      if Aborted(world, |trace|) {
        Do(Abandon);
        return false;
      }
      var result := world.commit(|trace|);
      Do(CommitIssued(pdf, result));
      threw := false;
      if result.CommitThrew? {
        threw := EndFailed();
      }
    }

    /** Takes the slot, claims, runs what it was handed, and releases the slot whatever happens. */
    method ClaimAndRun() returns (claim: IssueClaim, threw: bool)
      requires At(Idle) && !slotTaken && !world.stopping(|trace|) && !world.shuttingDown(|trace|)
      modifies this`slotTaken, this`trace
      ensures At(Idle) && old(trace) < trace && !slotTaken
      ensures Attempts(trace) == Attempts(old(trace)) + if claim.Handed? then 1 else 0
      ensures (threw <==> Escapes(trace[|trace| - 1])) && (!claim.Handed? ==> trace[|trace| - 1] == ClaimOperation(claim))
    {
      slotTaken := true;
      claim := world.claim(|trace|);
      Do(ClaimOperation(claim));
      threw := claim.ClaimThrew?;
      if claim.Handed? {
        threw := RunAttempt();
      }
      slotTaken := false;
    }

    /**
     * Claims and runs operations one after the other. A claim or a recording that throws ends the
     * tick; whatever ends it, the slot is released.
     */
    method Tick() returns (attempts: nat, threw: bool)
      requires At(Idle)
      modifies this`slotTaken, this`trace
      ensures At(Idle) && old(trace) <= trace && slotTaken == old(slotTaken)
      ensures attempts <= maxClaimsPerTick && Attempts(trace) == Attempts(old(trace)) + attempts
      ensures attempts == maxClaimsPerTick || old(slotTaken) || world.stopping(|trace|) || world.shuttingDown(|trace|) || threw
              || (trace != old(trace) && trace[|trace| - 1] == ClaimOperation(NoneDue))
      ensures forall i | 0 <= i < |trace| :: HeedsAt(world, trace, i)
      ensures threw <==> trace != old(trace) && Escapes(trace[|trace| - 1])
      ensures old(slotTaken) || world.stopping(|old(trace)|) || world.shuttingDown(|old(trace)|) ==> attempts == 0 && trace == old(trace)
    {
      attempts, threw := 0, false;
      while attempts < maxClaimsPerTick && !threw
        invariant At(Idle) && old(trace) <= trace && slotTaken == old(slotTaken)
        invariant attempts <= maxClaimsPerTick && Attempts(trace) == Attempts(old(trace)) + attempts
        invariant threw <==> trace != old(trace) && Escapes(trace[|trace| - 1])
        invariant old(slotTaken) || world.stopping(|old(trace)|) || world.shuttingDown(|old(trace)|) ==> attempts == 0 && trace == old(trace)
        decreases maxClaimsPerTick - attempts, !threw
      {
        if world.stopping(|trace|) || world.shuttingDown(|trace|) || slotTaken {
          break;
        }
        var claim;
        claim, threw := ClaimAndRun();
        if !claim.Handed? {
          break;
        }
        attempts := attempts + 1;
      }
      forall i | 0 <= i < |trace| ensures HeedsAt(world, trace, i) { IssueHeededAt(world, trace, i); }
    }

    /** The inline path shares the slot with the ticks and never waits for it. */
    method RunOperation() returns (ran: bool, threw: bool)
      requires At(Idle)
      modifies this`slotTaken, this`trace
      ensures At(Idle) && old(trace) <= trace && slotTaken == old(slotTaken)
      ensures forall i | 0 <= i < |trace| :: HeedsAt(world, trace, i)
      ensures threw <==> trace != old(trace) && Escapes(trace[|trace| - 1])
      ensures Attempts(trace) == Attempts(old(trace)) + if ran then 1 else 0
      ensures if old(slotTaken) || world.stopping(|old(trace)|) || world.shuttingDown(|old(trace)|) then !ran && trace == old(trace)
              else trace != old(trace)
    {
      ran, threw := false, false;
      if !world.stopping(|trace|) && !world.shuttingDown(|trace|) && !slotTaken {
        var claim;
        claim, threw := ClaimAndRun();
        ran := claim.Handed?;
      }
      forall i | 0 <= i < |trace| ensures HeedsAt(world, trace, i) { IssueHeededAt(world, trace, i); }
    }
  }
}
