/**
 * The service with its idempotency keys. Every keyed command looks its scope up first: a bound one
 * only notes the repetition on the bound quote, an unbound one runs and is bound in the same COMMIT.
 * While that COMMIT is in doubt the scope stays locked. Runs are runs of the service, and what they
 * commit and answer is the serial specification of the idempotency protocol.
 */
module KeyedService {
  import opened Wrappers
  import opened Rows
  import opened Transactions
  import S = Service
  import I = Idempotency
  import ServiceSafety
  import Deliveries
  import Commands

  /** A command sent with a key; a created quote names its id. */
  datatype Ask = Ask(session: I.SessionId, request: I.Request, quote: QuoteId, command: S.Change)

  datatype Chosen = Chosen(quote: QuoteId, change: S.Change)

  /** The service, the committed bindings, the asks whose COMMIT is in doubt, and the committed requests with what each ran. */
  datatype Keyed = Keyed(s: S.System, store: I.Store, owed: map<QuoteId, Ask>, history: seq<I.Served>, log: seq<Chosen>)

  const EMPTY := Keyed(S.INITIAL, I.Store([], map[], []), map[], [], [])

  datatype Step = Request(ask: Ask, ending: S.Ending) | Other(step: S.Step)

  predicate IsCommand(change: S.Change) {
    change.Existing? ==> change.tx.UpdateDraft? || change.tx.IssueDraft? || change.tx.CancelQuote? || change.tx.RequestDelivery?
  }

  predicate IsNote(change: S.Change) { change.Existing? && change.tx.AnswerFromBinding? }

  function NoteFor(b: I.Binding, r: I.Request): Chosen {
    Chosen(b.resource, S.Existing(AnswerFromBinding(b.fingerprint == r.fingerprint)))
  }

  /** What the transaction of an ask does, once it holds its scope. */
  function Choose(store: I.Store, ask: Ask): Chosen {
    if ask.request.scope in store.bindings then NoteFor(store.bindings[ask.request.scope], ask.request)
    else Chosen(ask.quote, ask.command)
  }

  /** Every other reply is a rejection, which rolls the transaction back with its binding. */
  predicate Effective(reply: Reply) { reply.Accepted? || reply.DeliveryAccepted? || reply.Noted? }

  ghost predicate ScopeLocked(k: Keyed, scope: I.Scope) { exists q :: q in k.owed && k.owed[q].request.scope == scope }

  /** The effect or the note is committed, and the key with it. */
  function Recorded(k: Keyed, ask: Ask): Keyed {
    var (store, answer) := I.Serve(k.store, ask.request, ask.quote);
    k.(store := store, history := k.history + [I.Served(ask.session, ask.request, ask.quote, answer)],
       log := k.log + [Choose(k.store, ask)])
  }

  ghost predicate Enabled(k: Keyed, ask: Ask) {
    IsCommand(ask.command) && !ScopeLocked(k, ask.request.scope) && Choose(k.store, ask).quote !in k.s.doubts
  }

  function ServiceStep(k: Keyed, ask: Ask, ending: S.Ending): S.Step {
    S.Serve(Choose(k.store, ask).quote, Choose(k.store, ask).change, ending)
  }

  ghost function Reply(cfg: Config, k: Keyed, ask: Ask): Reply {
    S.Transact(cfg, k.s.cells, Choose(k.store, ask).quote, Choose(k.store, ask).change, k.s.clock).1
  }

  ghost function Requested(cfg: Config, k: Keyed, ask: Ask, ending: S.Ending): Keyed {
    if !Enabled(k, ask) then k
    else
      var left := k.(s := S.After(cfg, k.s, ServiceStep(k, ask, ending)));
      if ending.UnansweredPending? then left.(owed := left.owed[Choose(k.store, ask).quote := ask])
      else if ending.UnansweredLost? || !Effective(Reply(cfg, k, ask)) then left
      else Recorded(left, ask)
  }

  /** Steps of the service without keyed commands. */
  predicate Unkeyed(step: S.Step) { step.Serve? ==> !IsCommand(step.change) && !IsNote(step.change) }

  ghost function Moved(cfg: Config, k: Keyed, step: S.Step): Keyed {
    var left := k.(s := S.After(cfg, k.s, step));
    if !step.Resolve? || step.quote !in k.owed then left
    else
      var q, freed := step.quote, left.(owed := k.owed - {step.quote});
      if step.lands && q in k.s.doubts && Effective(S.Transact(cfg, k.s.cells, q, k.s.doubts[q].change, k.s.doubts[q].now).1)
      then Recorded(freed, k.owed[q]) else freed
  }

  ghost function After(cfg: Config, k: Keyed, step: Step): Keyed {
    match step
    case Request(ask, ending) => Requested(cfg, k, ask, ending)
    case Other(step) => if Unkeyed(step) then Moved(cfg, k, step) else k
  }

  ghost function Run(cfg: Config, k: Keyed, steps: seq<Step>): Keyed
    decreases |steps|
  {
    if steps == [] then k else Run(cfg, After(cfg, k, steps[0]), steps[1..])
  }

  // ---------- a run of the service ----------

  /** The steps of the service behind a run with keys. */
  ghost function Plain(cfg: Config, k: Keyed, steps: seq<Step>): seq<S.Step>
    decreases |steps|
  {
    if steps == [] then []
    else
      var rest := Plain(cfg, After(cfg, k, steps[0]), steps[1..]);
      match steps[0]
      case Request(ask, ending) => if Enabled(k, ask) then [ServiceStep(k, ask, ending)] + rest else rest
      case Other(step) => if Unkeyed(step) then [step] + rest else rest
  }

  lemma RunStep(cfg: Config, s: S.System, step: S.Step, rest: seq<S.Step>)
    ensures S.Run(cfg, s, [step] + rest) == S.Run(cfg, S.After(cfg, s, step), rest)
  {
    assert ([step] + rest)[1..] == rest;
  }

  /** Every run with keys is a run of the service, so whatever holds of those holds of it. */
  lemma {:induction false} KeyedRunsAreServiceRuns(cfg: Config, k: Keyed, steps: seq<Step>)
    ensures Run(cfg, k, steps).s == S.Run(cfg, k.s, Plain(cfg, k, steps))
    decreases |steps|
  {
    if steps != [] {
      var next := After(cfg, k, steps[0]);
      KeyedRunsAreServiceRuns(cfg, next, steps[1..]);
      var rest := Plain(cfg, next, steps[1..]);
      match steps[0]
      case Request(ask, ending) => if Enabled(k, ask) { RunStep(cfg, k.s, ServiceStep(k, ask, ending), rest); }
      case Other(step) => if Unkeyed(step) { RunStep(cfg, k.s, step, rest); }
    }
  }

  // ---------- what is committed ----------

  /** The i-th committed request ran what its scope's binding at that time calls for. */
  ghost predicate RanRightly(history: seq<I.Served>, log: seq<Chosen>, i: nat)
    requires i < |history| == |log|
  {
    var (h, bindings) := (history[i], I.Serial(history[..i]).bindings);
    if h.request.scope in bindings then log[i] == NoteFor(bindings[h.request.scope], h.request)
    else IsCommand(log[i].change) && log[i].quote == h.made
  }

  ghost predicate Faithful(k: Keyed) {
    && |k.history| == |k.log|
    && k.store == I.Serial(k.history) && I.Serially(k.history)
    && forall i | 0 <= i < |k.history| :: RanRightly(k.history, k.log, i)
  }

  ghost predicate BoundExists(k: Keyed, scope: I.Scope) { scope in k.store.bindings ==> k.store.bindings[scope].resource in k.s.cells }

  /** A COMMIT in doubt is that of what its ask chose, which its scope's lock keeps the right choice. */
  ghost predicate OwedOk(k: Keyed, q: QuoteId)
    requires q in k.owed
  {
    && q in k.s.doubts && IsCommand(k.owed[q].command) && Choose(k.store, k.owed[q]) == Chosen(q, k.s.doubts[q].change)
    && forall r | r in k.owed && k.owed[r].request.scope == k.owed[q].request.scope :: r == q
  }

  /** Nothing keyed is in doubt without its key. */
  ghost predicate DoubtOwed(k: Keyed, q: QuoteId) {
    q in k.s.doubts && (IsCommand(k.s.doubts[q].change) || IsNote(k.s.doubts[q].change)) ==> q in k.owed
  }

  ghost predicate Inv(k: Keyed) {
    && Faithful(k)
    && (forall scope :: BoundExists(k, scope))
    && (forall q <- k.owed :: OwedOk(k, q))
    && (forall q :: DoubtOwed(k, q))
  }

  lemma RecordedIsFaithful(k: Keyed, ask: Ask)
    requires Faithful(k) && IsCommand(ask.command)
    ensures Faithful(Recorded(k, ask))
  {
    var after := Recorded(k, ask);
    I.HistoryGrows(k.history, after.history[|k.history|]);
    assert after.history[..|k.history|] == k.history;
    forall i | 0 <= i < |after.history| ensures RanRightly(after.history, after.log, i) {
      if i < |k.history| {
        assert RanRightly(k.history, k.log, i);
        assert after.history[..i] == k.history[..i];
      }
    }
  }

  // ---------- the service underneath ----------

  lemma TransactKeepsQuotes(cfg: Config, cells: map<QuoteId, Cell>, x: QuoteId, change: S.Change, now: nat)
    ensures var (after, reply) := S.Transact(cfg, cells, x, change, now);
            && (forall q <- cells :: q in after)
            && (Effective(reply) ==> x in after)
  {
  }

  lemma CommitKeepsQuotes(cfg: Config, s: S.System, x: S.Submission)
    ensures var after := S.Commit(cfg, s, x).0;
            && (forall q <- s.cells :: q in after.cells)
            && after.doubts == if x.ending.UnansweredPending? then s.doubts[x.quote := S.Doubt(x.change, s.clock)] else s.doubts
  {
    TransactKeepsQuotes(cfg, s.cells, x.quote, x.change, s.clock);
  }

  /** One step of the service keeps every quote, and leaves every COMMIT in doubt but the one it ends. */
  lemma ServiceKeepsQuotes(cfg: Config, s: S.System, step: S.Step, q: QuoteId)
    ensures var after := S.After(cfg, s, step);
            && (q in s.cells ==> q in after.cells)
            && (q in s.doubts && !(step.Resolve? && step.quote == q) ==> q in after.doubts && after.doubts[q] == s.doubts[q])
            && (step.Resolve? && step.quote == q ==> q !in after.doubts)
            && (q in after.doubts && q !in s.doubts ==>
                  S.Submits(s, step).Some? && after.doubts[q].change == S.Submits(s, step).value.change)
  {
    if S.Submits(s, step).Some? {
      SubmissionKeepsQuotes(cfg, s, step);
    } else if step.Resolve? {
      ResolveKeepsQuotes(cfg, s, step.quote, step.lands);
    } else {
      ServiceSafety.LocalLeavesTables(cfg, s, step);
    }
  }

  lemma SubmissionKeepsQuotes(cfg: Config, s: S.System, step: S.Step)
    requires S.Submits(s, step).Some?
    ensures var (x, after) := (S.Submits(s, step).value, S.After(cfg, s, step));
            && (forall q <- s.cells :: q in after.cells)
            && after.doubts == if x.ending.UnansweredPending? && x.quote !in s.doubts then s.doubts[x.quote := S.Doubt(x.change, s.clock)] else s.doubts
  {
    var x := S.Submits(s, step).value;
    if x.quote !in s.doubts {
      CommitKeepsQuotes(cfg, s, x);
      ServiceSafety.ObserveLeavesTables(S.Commit(cfg, s, x).0, step, x, S.Commit(cfg, s, x).1);
    }
  }

  lemma ResolveKeepsQuotes(cfg: Config, s: S.System, q: QuoteId, lands: bool)
    ensures var after := S.Local(cfg, s, S.Resolve(q, lands));
            && (forall r <- s.cells :: r in after.cells)
            && after.doubts == s.doubts - {q}
            && (lands && q in s.doubts ==> after.cells == S.Transact(cfg, s.cells, q, s.doubts[q].change, s.doubts[q].now).0)
  {
    if q in s.doubts { TransactKeepsQuotes(cfg, s.cells, q, s.doubts[q].change, s.doubts[q].now); }
    else { assert s.doubts - {q} == s.doubts; }
  }

  /** The step of the service behind an enabled ask. */
  lemma AskIsCommit(cfg: Config, k: Keyed, ask: Ask, ending: S.Ending)
    requires Enabled(k, ask)
    ensures var (c, x) := (Choose(k.store, ask), S.Submission(Choose(k.store, ask).quote, Choose(k.store, ask).change, ending));
            && S.Submits(k.s, ServiceStep(k, ask, ending)) == Some(x)
            && S.After(cfg, k.s, ServiceStep(k, ask, ending)) == S.Commit(cfg, k.s, x).0
  {
  }

  /** Only an effective transaction is recorded, and then its quote exists. */
  lemma AskKeepsQuotes(cfg: Config, k: Keyed, ask: Ask, ending: S.Ending)
    requires Enabled(k, ask)
    ensures var (c, after) := (Choose(k.store, ask), S.After(cfg, k.s, ServiceStep(k, ask, ending)));
            && (forall q <- k.s.cells :: q in after.cells)
            && after.doubts == (if ending.UnansweredPending? then k.s.doubts[c.quote := S.Doubt(c.change, k.s.clock)] else k.s.doubts)
            && (ending.Answered? || ending.UnansweredApplied? ==> Effective(Reply(cfg, k, ask)) ==> c.quote in after.cells)
  {
    AskIsCommit(cfg, k, ask, ending);
    var c := Choose(k.store, ask);
    CommitKeepsQuotes(cfg, k.s, S.Submission(c.quote, c.change, ending));
    TransactKeepsQuotes(cfg, k.s.cells, c.quote, c.change, k.s.clock);
  }

  // ---------- the invariant ----------

  /** The bindings after one more committed request: one more scope at most, bound to the quote it ran on. */
  lemma RecordedBindings(k: Keyed, ask: Ask)
    ensures var after := Recorded(k, ask).store.bindings;
            && (forall scope <- k.store.bindings :: scope in after && after[scope] == k.store.bindings[scope])
            && (forall scope <- after :: scope in k.store.bindings
                  || (scope == ask.request.scope && after[scope].resource == Choose(k.store, ask).quote))
  {
  }

  lemma RecordedKeepsInv(k: Keyed, ask: Ask)
    requires Inv(k) && IsCommand(ask.command) && !ScopeLocked(k, ask.request.scope) && Choose(k.store, ask).quote in k.s.cells
    ensures Inv(Recorded(k, ask))
  {
    var after := Recorded(k, ask);
    RecordedIsFaithful(k, ask);
    RecordedBindings(k, ask);
    forall scope ensures BoundExists(after, scope) { assert BoundExists(k, scope); }
    forall q <- after.owed ensures OwedOk(after, q) {
      assert OwedOk(k, q);
      assert k.owed[q].request.scope != ask.request.scope;
    }
    forall q ensures DoubtOwed(after, q) { assert DoubtOwed(k, q); }
  }

  lemma LostKeepsInv(cfg: Config, k: Keyed, ask: Ask, ending: S.Ending)
    requires Inv(k) && Enabled(k, ask) && !ending.UnansweredPending?
    ensures Inv(k.(s := S.After(cfg, k.s, ServiceStep(k, ask, ending))))
  {
    var after := k.(s := S.After(cfg, k.s, ServiceStep(k, ask, ending)));
    AskKeepsQuotes(cfg, k, ask, ending);
    forall scope ensures BoundExists(after, scope) { assert BoundExists(k, scope); }
    forall q <- after.owed ensures OwedOk(after, q) { assert OwedOk(k, q); }
    forall q ensures DoubtOwed(after, q) { assert DoubtOwed(k, q); }
  }

  lemma PendingKeepsInv(cfg: Config, k: Keyed, ask: Ask)
    requires Inv(k) && Enabled(k, ask)
    ensures Inv(Requested(cfg, k, ask, S.UnansweredPending))
  {
    var (c, after) := (Choose(k.store, ask), Requested(cfg, k, ask, S.UnansweredPending));
    AskKeepsQuotes(cfg, k, ask, S.UnansweredPending);
    forall scope ensures BoundExists(after, scope) { assert BoundExists(k, scope); }
    forall q <- after.owed ensures OwedOk(after, q) {
      if q != c.quote { assert OwedOk(k, q); }
    }
    forall q ensures DoubtOwed(after, q) { assert DoubtOwed(k, q); }
  }

  lemma RequestKeepsInv(cfg: Config, k: Keyed, ask: Ask, ending: S.Ending)
    requires Inv(k)
    ensures Inv(Requested(cfg, k, ask, ending))
  {
    if Enabled(k, ask) {
      if ending.UnansweredPending? {
        PendingKeepsInv(cfg, k, ask);
      } else {
        LostKeepsInv(cfg, k, ask, ending);
        AskKeepsQuotes(cfg, k, ask, ending);
        var left := k.(s := S.After(cfg, k.s, ServiceStep(k, ask, ending)));
        if !ending.UnansweredLost? && Effective(Reply(cfg, k, ask)) { RecordedKeepsInv(left, ask); }
      }
    }
  }

  /** A step of the service that ends no keyed COMMIT. */
  lemma PlainStepKeepsInv(cfg: Config, k: Keyed, step: S.Step)
    requires Inv(k) && Unkeyed(step) && (step.Resolve? ==> step.quote !in k.owed)
    ensures Inv(k.(s := S.After(cfg, k.s, step)))
  {
    var after := k.(s := S.After(cfg, k.s, step));
    forall scope ensures BoundExists(after, scope) {
      assert BoundExists(k, scope);
      if scope in k.store.bindings { ServiceKeepsQuotes(cfg, k.s, step, k.store.bindings[scope].resource); }
    }
    forall q <- after.owed ensures OwedOk(after, q) {
      assert OwedOk(k, q);
      ServiceKeepsQuotes(cfg, k.s, step, q);
    }
    forall q ensures DoubtOwed(after, q) {
      assert DoubtOwed(k, q);
      ServiceKeepsQuotes(cfg, k.s, step, q);
      if S.Submits(k.s, step).Some? { UnkeyedSubmitsNoCommand(k.s, step); }
    }
  }

  lemma UnkeyedSubmitsNoCommand(s: S.System, step: S.Step)
    requires Unkeyed(step) && S.Submits(s, step).Some?
    ensures !IsCommand(S.Submits(s, step).value.change) && !IsNote(S.Submits(s, step).value.change)
  {
  }

  /** The end of a keyed COMMIT in doubt frees its scope. */
  lemma FreedKeepsInv(cfg: Config, k: Keyed, q: QuoteId, lands: bool)
    requires Inv(k) && q in k.owed
    ensures Inv(k.(s := S.After(cfg, k.s, S.Resolve(q, lands)), owed := k.owed - {q}))
    ensures !ScopeLocked(k.(s := S.After(cfg, k.s, S.Resolve(q, lands)), owed := k.owed - {q}), k.owed[q].request.scope)
  {
    var after := k.(s := S.After(cfg, k.s, S.Resolve(q, lands)), owed := k.owed - {q});
    assert OwedOk(k, q);
    ResolveKeepsQuotes(cfg, k.s, q, lands);
    forall scope ensures BoundExists(after, scope) { assert BoundExists(k, scope); }
    forall r <- after.owed ensures OwedOk(after, r) { assert OwedOk(k, r); }
    forall r ensures DoubtOwed(after, r) { assert DoubtOwed(k, r); }
  }

  lemma ResolveKeepsInv(cfg: Config, k: Keyed, q: QuoteId, lands: bool)
    requires Inv(k) && q in k.owed
    ensures Inv(Moved(cfg, k, S.Resolve(q, lands)))
  {
    var freed := k.(s := S.After(cfg, k.s, S.Resolve(q, lands)), owed := k.owed - {q});
    FreedKeepsInv(cfg, k, q, lands);
    assert OwedOk(k, q);
    if lands && Effective(S.Transact(cfg, k.s.cells, q, k.s.doubts[q].change, k.s.doubts[q].now).1) {
      ResolveKeepsQuotes(cfg, k.s, q, lands);
      TransactKeepsQuotes(cfg, k.s.cells, q, k.s.doubts[q].change, k.s.doubts[q].now);
      RecordedKeepsInv(freed, k.owed[q]);
    }
  }

  lemma {:induction false} RunKeepsInv(cfg: Config, k: Keyed, steps: seq<Step>)
    requires Inv(k)
    ensures Inv(Run(cfg, k, steps))
    decreases |steps|
  {
    if steps != [] {
      match steps[0] {
        case Request(ask, ending) => RequestKeepsInv(cfg, k, ask, ending);
        case Other(step) =>
          if Unkeyed(step) {
            if step.Resolve? && step.quote in k.owed { ResolveKeepsInv(cfg, k, step.quote, step.lands); }
            else { PlainStepKeepsInv(cfg, k, step); }
          }
      }
      RunKeepsInv(cfg, After(cfg, k, steps[0]), steps[1..]);
    }
  }

  // ---------- exactly once ----------

  /** Committed commands of a scope, notes not counted. */
  ghost function CommandsOf(history: seq<I.Served>, log: seq<Chosen>, scope: I.Scope): nat
    requires |history| == |log|
  {
    if history == [] then 0
    else
      var n := |history| - 1;
      CommandsOf(history[..n], log[..n], scope) + if history[n].request.scope == scope && IsCommand(log[n].change) then 1 else 0
  }

  lemma {:induction false} CommandsAreEffects(history: seq<I.Served>, log: seq<Chosen>, scope: I.Scope)
    requires |history| == |log| && forall i | 0 <= i < |history| :: RanRightly(history, log, i)
    ensures CommandsOf(history, log, scope) == I.EffectsOf(I.Serial(history).effects, scope)
    decreases |history|
  {
    if history != [] {
      var n := |history| - 1;
      PrefixRanRightly(history, log);
      CommandsAreEffects(history[..n], log[..n], scope);
      assert RanRightly(history, log, n);
      I.ServedAddsEffect(I.Serial(history[..n]), history[n].request, history[n].made, scope);
    }
  }

  lemma PrefixRanRightly(history: seq<I.Served>, log: seq<Chosen>)
    requires 0 < |history| == |log| && forall i | 0 <= i < |history| :: RanRightly(history, log, i)
    ensures var n := |history| - 1; forall i | 0 <= i < n :: RanRightly(history[..n], log[..n], i)
  {
    var n := |history| - 1;
    forall i | 0 <= i < n ensures RanRightly(history[..n], log[..n], i) {
      assert RanRightly(history, log, i);
      assert history[..n][..i] == history[..i];
    }
  }

  /**
   * Exactly-once commands over the service itself: in every run with keys, whatever is retried, rejected,
   * lost or left in doubt, a scope has exactly one committed command if it is bound and none if not; the
   * bound quote exists; and all answers are those of the committed requests served one at a time.
   */
  lemma CommandsTakeEffectOnce(cfg: Config, steps: seq<Step>, scope: I.Scope)
    ensures var k := Run(cfg, EMPTY, steps);
            && |k.history| == |k.log|
            && CommandsOf(k.history, k.log, scope) == (if scope in k.store.bindings then 1 else 0)
            && (scope in k.store.bindings ==> k.store.bindings[scope].resource in k.s.cells)
            && k.store == I.Serial(k.history) && I.Serially(k.history)
  {
    assert Inv(EMPTY);
    RunKeepsInv(cfg, EMPTY, steps);
    var k := Run(cfg, EMPTY, steps);
    CommandsAreEffects(k.history, k.log, scope);
    I.OneEffectPerScope(k.history, scope);
    assert BoundExists(k, scope);
  }

  /** The rows with one more note on the bound quote. */
  ghost predicate OnlyNoted(k: Keyed, after: Keyed, b: I.Binding, r: I.Request) {
    && b.resource in k.s.cells
    && after.s == k.s.(cells := k.s.cells[b.resource := Deliveries.Logged(k.s.cells[b.resource],
                                                          if b.fingerprint == r.fingerprint then KeyReplayed else KeyConflict)])
    && after.store.bindings == k.store.bindings && after.store.effects == k.store.effects && after.owed == k.owed
  }

  /** In every run an answered request with a bound key changes nothing but the audit log of the bound quote. */
  lemma RepeatedKeysOnlyNote(cfg: Config, steps: seq<Step>, ask: Ask)
    ensures var k := Run(cfg, EMPTY, steps);
            Enabled(k, ask) && ask.request.scope in k.store.bindings ==>
              OnlyNoted(k, After(cfg, k, Request(ask, S.Answered)), k.store.bindings[ask.request.scope], ask.request)
  {
    var k := Run(cfg, EMPTY, steps);
    assert Inv(EMPTY);
    RunKeepsInv(cfg, EMPTY, steps);
    if Enabled(k, ask) && ask.request.scope in k.store.bindings {
      assert BoundExists(k, ask.request.scope);
      NotesOnly(cfg, k, ask);
    }
  }

  lemma NotesOnly(cfg: Config, k: Keyed, ask: Ask)
    requires Enabled(k, ask) && ask.request.scope in k.store.bindings && BoundExists(k, ask.request.scope)
    ensures OnlyNoted(k, Requested(cfg, k, ask, S.Answered), k.store.bindings[ask.request.scope], ask.request)
  {
    AskIsCommit(cfg, k, ask, S.Answered);
  }
}
