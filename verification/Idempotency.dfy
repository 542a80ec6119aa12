/**
 * Exactly-once commands. Any number of requests run the same transaction concurrently: take the
 * advisory lock of their scope, look the key up, then answer from the binding or run the effect and
 * bind the key, and commit. Every run commits exactly what a serial execution of its committed
 * requests, in commit order, would commit and answer.
 */
module Idempotency {
  import opened Wrappers

  type Scope = nat
  type Fingerprint = nat
  type Resource = nat
  type SessionId = nat
  type LockKey = int

  datatype Request = Request(scope: Scope, fingerprint: Fingerprint)

  datatype Binding = Binding(fingerprint: Fingerprint, resource: Resource)

  datatype Effect = Effect(scope: Scope, resource: Resource)

  /** `idempotency.replayed` or `idempotency.conflict`, on the bound resource. */
  datatype Note = Note(scope: Scope, resource: Resource, replayed: bool)

  /** What is committed: effects of commands, bindings, and the audit notes of repeated keys. */
  datatype Store = Store(effects: seq<Effect>, bindings: map<Scope, Binding>, notes: seq<Note>)

  datatype Answer = Accepted(resource: Resource) | Replayed(resource: Resource) | Conflict(bound: Fingerprint)

  // ---------- the serial specification ----------

  /** One request on its own; an unbound key runs its effect, which yields `made`. */
  function Serve(store: Store, r: Request, made: Resource): (Store, Answer) {
    if r.scope !in store.bindings then
      (Store(store.effects + [Effect(r.scope, made)], store.bindings[r.scope := Binding(r.fingerprint, made)], store.notes),
       Accepted(made))
    else
      var b := store.bindings[r.scope];
      var replayed := b.fingerprint == r.fingerprint;
      (store.(notes := store.notes + [Note(r.scope, b.resource, replayed)]),
       if replayed then Replayed(b.resource) else Conflict(b.fingerprint))
  }

  /** A committed request: who sent it, what its effect made (if it ran one), and what it is answered. */
  datatype Served = Served(session: SessionId, request: Request, made: Resource, answer: Answer)

  function Serial(history: seq<Served>): Store {
    if history == [] then Store([], map[], [])
    else
      var last := history[|history| - 1];
      Serve(Serial(history[..|history| - 1]), last.request, last.made).0
  }

  /** Every answer of the history is the answer of the serial execution. */
  ghost predicate Serially(history: seq<Served>) {
    forall i | 0 <= i < |history| ::
      history[i].answer == Serve(Serial(history[..i]), history[i].request, history[i].made).1
  }

  // ---------- the concurrent protocol ----------

  /** What an open transaction has written and not committed. */
  datatype Writes = EffectAndBinding(resource: Resource, inserted: bool) | OnlyNote(note: Note)

  datatype Phase =
    | Begun
    | Locked
    | Unbound
    | Effected(resource: Resource)
    | Ready(writes: Writes, answer: Answer)
    | Ended(heard: Option<Answer>)

  datatype Session = Session(request: Request, phase: Phase)

  /** `lockOf` hashes a scope to its advisory lock, so different scopes may share one. */
  datatype Service = Service(
    lockOf: Scope -> LockKey,
    store: Store,
    locks: map<LockKey, SessionId>,
    sessions: map<SessionId, Session>,
    history: seq<Served>)

  datatype Step =
    | Begin(id: SessionId, request: Request)
    | Lock(id: SessionId)
    | Look(id: SessionId)
    | Act(id: SessionId, resource: Resource)
    | Bind(id: SessionId)
    | RollBack(id: SessionId)
    | Commit(id: SessionId, heard: bool)

  function Initial(lockOf: Scope -> LockKey): Service { Service(lockOf, Store([], map[], []), map[], map[], []) }

  function Move(s: Service, id: SessionId, phase: Phase): Service
    requires id in s.sessions
  {
    s.(sessions := s.sessions[id := s.sessions[id].(phase := phase)])
  }

  predicate At(s: Service, id: SessionId) { id in s.sessions }

  function KeyOf(s: Service, id: SessionId): LockKey
    requires id in s.sessions
  {
    s.lockOf(s.sessions[id].request.scope)
  }

  /** The end of a transaction releases its advisory lock. */
  function Release(s: Service, id: SessionId): Service
    requires id in s.sessions
  {
    s.(locks := if KeyOf(s, id) in s.locks && s.locks[KeyOf(s, id)] == id then s.locks - {KeyOf(s, id)} else s.locks)
  }

  /** What a commit applies; `on conflict do nothing` leaves an existing binding alone. */
  function Applied(store: Store, r: Request, w: Writes): Store {
    match w
    case OnlyNote(note) => store.(notes := store.notes + [note])
    case EffectAndBinding(resource, inserted) =>
      Store(store.effects + [Effect(r.scope, resource)],
            if inserted then store.bindings[r.scope := Binding(r.fingerprint, resource)] else store.bindings,
            store.notes)
  }

  /** The two ways a found binding is answered. */
  function FromBinding(r: Request, b: Binding): Phase {
    var replayed := b.fingerprint == r.fingerprint;
    Ready(OnlyNote(Note(r.scope, b.resource, replayed)), if replayed then Replayed(b.resource) else Conflict(b.fingerprint))
  }

  function After(s: Service, step: Step): Service {
    match step
    case Begin(id, request) =>
      if At(s, id) then s else s.(sessions := s.sessions[id := Session(request, Begun)])
    case Lock(id) =>
      if !At(s, id) || s.sessions[id].phase != Begun || KeyOf(s, id) in s.locks then s
      else Move(s, id, Locked).(locks := s.locks[KeyOf(s, id) := id])
    case Look(id) =>
      if !At(s, id) || s.sessions[id].phase != Locked then s
      else
        var r := s.sessions[id].request;
        Move(s, id, if r.scope in s.store.bindings then FromBinding(r, s.store.bindings[r.scope]) else Unbound)
    case Act(id, resource) =>
      if !At(s, id) || s.sessions[id].phase != Unbound then s else Move(s, id, Effected(resource))
    case Bind(id) =>
      if !At(s, id) || !s.sessions[id].phase.Effected? then s
      else
        var made := s.sessions[id].phase.resource;
        Move(s, id, Ready(EffectAndBinding(made, s.sessions[id].request.scope !in s.store.bindings), Accepted(made)))
    case RollBack(id) =>
      if !At(s, id) || s.sessions[id].phase.Ended? then s else Move(Release(s, id), id, Ended(None))
    case Commit(id, heard) =>
      if !At(s, id) || !s.sessions[id].phase.Ready? then s
      else
        var Session(r, phase) := s.sessions[id];
        var made := if phase.writes.EffectAndBinding? then phase.writes.resource else 0;
        Move(Release(s, id), id, Ended(if heard then Some(phase.answer) else None))
          .(store := Applied(s.store, r, phase.writes), history := s.history + [Served(id, r, made, phase.answer)])
  }

  function Run(s: Service, steps: seq<Step>): Service
    decreases |steps|
  {
    if steps == [] then s else Run(After(s, steps[0]), steps[1..])
  }

  // ---------- invariant ----------

  predicate HoldsLock(phase: Phase) { phase.Locked? || phase.Unbound? || phase.Effected? || phase.Ready? }

  /** What a transaction in its locked section knows stays true until it ends. */
  ghost predicate SessionOk(s: Service, id: SessionId)
    requires id in s.sessions
  {
    var Session(r, phase) := s.sessions[id];
    && (HoldsLock(phase) ==> KeyOf(s, id) in s.locks && s.locks[KeyOf(s, id)] == id)
    && (phase.Unbound? || phase.Effected? ==> r.scope !in s.store.bindings)
    && (phase.Ready? ==>
          match phase.writes
          case EffectAndBinding(resource, inserted) => inserted && r.scope !in s.store.bindings && phase.answer == Accepted(resource)
          case OnlyNote(_) => r.scope in s.store.bindings && phase == FromBinding(r, s.store.bindings[r.scope]))
  }

  ghost predicate Inv(s: Service) {
    && (forall id <- s.sessions :: SessionOk(s, id))
    && s.store == Serial(s.history)
    && Serially(s.history)
    && (forall id <- s.sessions :: HeardOk(s, id))
  }

  /** A heard answer is the answer of a committed request of that session. */
  ghost predicate HeardOk(s: Service, id: SessionId)
    requires id in s.sessions
  {
    s.sessions[id].phase.Ended? && s.sessions[id].phase.heard.Some? ==>
      exists i :: 0 <= i < |s.history| && s.history[i].session == id
                  && s.history[i].request == s.sessions[id].request && s.history[i].answer == s.sessions[id].phase.heard.value
  }

  lemma HeardStays(s: Service, after: Service, id: SessionId)
    requires id in s.sessions && HeardOk(s, id)
    requires id in after.sessions && after.sessions[id] == s.sessions[id] && s.history <= after.history
    ensures HeardOk(after, id)
  {
    if s.sessions[id].phase.Ended? && s.sessions[id].phase.heard.Some? {
      var i :| 0 <= i < |s.history| && s.history[i].session == id
               && s.history[i].request == s.sessions[id].request && s.history[i].answer == s.sessions[id].phase.heard.value;
      assert after.history[i] == s.history[i];
    }
  }

  /** A commit is one more serial request: nothing it read has changed since it took its lock. */
  lemma CommitIsServe(s: Service, id: SessionId)
    requires id in s.sessions && SessionOk(s, id) && s.sessions[id].phase.Ready?
    ensures var Session(r, phase) := s.sessions[id];
            var made := if phase.writes.EffectAndBinding? then phase.writes.resource else 0;
            (Applied(s.store, r, phase.writes), phase.answer) == Serve(s.store, r, made)
  {
  }

  lemma HistoryGrows(history: seq<Served>, next: Served)
    requires Serially(history) && next.answer == Serve(Serial(history), next.request, next.made).1
    ensures Serially(history + [next])
    ensures Serial(history + [next]) == Serve(Serial(history), next.request, next.made).0
  {
    var after := history + [next];
    assert after[..|history|] == history;
    forall i | 0 <= i < |after|
      ensures after[i].answer == Serve(Serial(after[..i]), after[i].request, after[i].made).1
    {
      if i < |history| { assert after[..i] == history[..i]; }
    }
  }

  /** Another session in its locked section has another lock, hence another scope. */
  lemma LocksExclude(s: Service, id: SessionId, other: SessionId)
    requires id in s.sessions && other in s.sessions && id != other
    requires SessionOk(s, id) && SessionOk(s, other) && HoldsLock(s.sessions[id].phase) && HoldsLock(s.sessions[other].phase)
    ensures KeyOf(s, id) != KeyOf(s, other) && s.sessions[id].request.scope != s.sessions[other].request.scope
  {
  }

  lemma CommitKeepsSession(s: Service, id: SessionId, heard: bool, other: SessionId)
    requires id in s.sessions && s.sessions[id].phase.Ready? && SessionOk(s, id)
    requires other in s.sessions && SessionOk(s, other) && other != id
    ensures SessionOk(After(s, Commit(id, heard)), other)
  {
    if HoldsLock(s.sessions[other].phase) { LocksExclude(s, id, other); }
  }

  lemma CommitIsHeard(s: Service, id: SessionId, heard: bool)
    requires id in s.sessions && s.sessions[id].phase.Ready?
    ensures SessionOk(After(s, Commit(id, heard)), id) && HeardOk(After(s, Commit(id, heard)), id)
  {
    assert After(s, Commit(id, heard)).history[|s.history|].session == id;
  }

  lemma CommitGrowsHistory(s: Service, id: SessionId, heard: bool)
    requires id in s.sessions && s.sessions[id].phase.Ready? && SessionOk(s, id)
    requires s.store == Serial(s.history) && Serially(s.history)
    ensures var after := After(s, Commit(id, heard)); after.store == Serial(after.history) && Serially(after.history)
  {
    var after := After(s, Commit(id, heard));
    CommitIsServe(s, id);
    HistoryGrows(s.history, after.history[|s.history|]);
  }

  lemma CommitKeepsInv(s: Service, id: SessionId, heard: bool)
    requires Inv(s) && id in s.sessions && s.sessions[id].phase.Ready?
    ensures Inv(After(s, Commit(id, heard)))
  {
    var after := After(s, Commit(id, heard));
    assert SessionOk(s, id);
    CommitGrowsHistory(s, id, heard);
    CommitIsHeard(s, id, heard);
    forall other <- after.sessions ensures SessionOk(after, other) && HeardOk(after, other) {
      if other != id {
        assert SessionOk(s, other) && HeardOk(s, other);
        CommitKeepsSession(s, id, heard, other);
        HeardStays(s, after, other);
      }
    }
  }

  /** Every other step commits nothing. */
  lemma OtherStepKeepsSession(s: Service, step: Step, other: SessionId)
    requires !(step.Commit? && At(s, step.id) && s.sessions[step.id].phase.Ready?)
    requires step.id in s.sessions ==> SessionOk(s, step.id)
    requires other in s.sessions ==> SessionOk(s, other) && HeardOk(s, other)
    ensures var after := After(s, step);
            && after.history == s.history && after.store == s.store
            && (other in after.sessions ==> SessionOk(after, other) && HeardOk(after, other))
  {
  }

  lemma StepKeepsInv(s: Service, step: Step)
    requires Inv(s)
    ensures Inv(After(s, step))
  {
    if step.Commit? && At(s, step.id) && s.sessions[step.id].phase.Ready? {
      CommitKeepsInv(s, step.id, step.heard);
    } else {
      forall other
        ensures After(s, step).history == s.history && After(s, step).store == s.store
        ensures other in After(s, step).sessions ==> SessionOk(After(s, step), other) && HeardOk(After(s, step), other)
      {
        OtherStepKeepsSession(s, step, other);
      }
      OtherStepKeepsSession(s, step, 0);
    }
  }

  lemma {:induction false} RunKeepsInv(s: Service, steps: seq<Step>)
    requires Inv(s)
    ensures Inv(Run(s, steps))
    decreases |steps|
  {
    if steps != [] {
      StepKeepsInv(s, steps[0]);
      RunKeepsInv(After(s, steps[0]), steps[1..]);
    }
  }

  ghost predicate Reachable(s: Service) { exists lockOf, steps :: s == Run(Initial(lockOf), steps) }

  /**
   * Linearizability: whatever the interleaving, the rejections, the crashes and the unheard COMMITs,
   * the committed store is that of the committed requests executed one at a time in commit order,
   * every heard answer is the one that execution gives, and no commit ignored an existing binding.
   */
  lemma CommandsAreLinearizable(lockOf: Scope -> LockKey, steps: seq<Step>, id: SessionId)
    ensures var s := Run(Initial(lockOf), steps);
            && s.store == Serial(s.history) && Serially(s.history)
            && (id in s.sessions ==>
                  && HeardOk(s, id)
                  && (s.sessions[id].phase.Ready? && s.sessions[id].phase.writes.EffectAndBinding? ==> s.sessions[id].phase.writes.inserted))
  {
    RunKeepsInv(Initial(lockOf), steps);
    if id in Run(Initial(lockOf), steps).sessions { assert SessionOk(Run(Initial(lockOf), steps), id); }
  }

  lemma ReachableIsSerial(s: Service, id: SessionId)
    requires Reachable(s)
    ensures s.store == Serial(s.history) && Serially(s.history) && (id in s.sessions ==> HeardOk(s, id))
  {
    var lockOf, steps :| s == Run(Initial(lockOf), steps);
    CommandsAreLinearizable(lockOf, steps, id);
  }

  // ---------- what the serial execution guarantees ----------

  /** Committed effects of a scope. */
  function EffectsOf(effects: seq<Effect>, scope: Scope): nat {
    if effects == [] then 0
    else EffectsOf(effects[..|effects| - 1], scope) + if effects[|effects| - 1].scope == scope then 1 else 0
  }

  /** A scope has an effect exactly when it is bound, and then exactly one, which made the bound resource. */
  lemma {:induction false} OneEffectPerScope(history: seq<Served>, scope: Scope)
    ensures var store := Serial(history);
            && EffectsOf(store.effects, scope) == (if scope in store.bindings then 1 else 0)
            && (scope in store.bindings ==> Effect(scope, store.bindings[scope].resource) in store.effects)
    decreases |history|
  {
    if history != [] {
      var last := history[|history| - 1];
      OneEffectPerScope(history[..|history| - 1], scope);
      ServedAddsEffect(Serial(history[..|history| - 1]), last.request, last.made, scope);
      ServedKeepsEffects(Serial(history[..|history| - 1]), last.request, last.made);
    }
  }

  lemma ServedAddsEffect(store: Store, r: Request, made: Resource, scope: Scope)
    ensures EffectsOf(Serve(store, r, made).0.effects, scope) ==
            EffectsOf(store.effects, scope) + if r.scope == scope && r.scope !in store.bindings then 1 else 0
  {
    var effects := store.effects + [Effect(r.scope, made)];
    assert effects[..|effects| - 1] == store.effects && effects[|effects| - 1].scope == r.scope;
  }

  lemma ServedKeepsEffects(store: Store, r: Request, made: Resource)
    ensures var after := Serve(store, r, made).0;
            && (forall e | e in store.effects :: e in after.effects)
            && (r.scope !in store.bindings ==> Effect(r.scope, made) in after.effects)
  {
    var effects := store.effects + [Effect(r.scope, made)];
    assert effects[|store.effects|] == Effect(r.scope, made);
  }

  lemma {:induction false} BindingsStay(history: seq<Served>, n: nat, scope: Scope)
    requires n <= |history| && scope in Serial(history[..n]).bindings
    ensures scope in Serial(history).bindings && Serial(history).bindings[scope] == Serial(history[..n]).bindings[scope]
    decreases |history|
  {
    if n == |history| {
      assert history[..n] == history;
    } else {
      var before := history[..|history| - 1];
      assert before[..n] == history[..n];
      BindingsStay(before, n, scope);
    }
  }

  /** The binding a committed request saw or made is the binding for good. */
  lemma AnswerNamesBinding(history: seq<Served>, i: nat)
    requires i < |history| && Serially(history)
    ensures var (h, bindings) := (history[i], Serial(history).bindings);
            && h.request.scope in bindings
            && match h.answer
               case Accepted(resource) => bindings[h.request.scope] == Binding(h.request.fingerprint, resource)
               case Replayed(resource) => bindings[h.request.scope] == Binding(h.request.fingerprint, resource)
               case Conflict(bound) => bindings[h.request.scope].fingerprint == bound != h.request.fingerprint
  {
    var upTo := history[..i + 1];
    assert upTo[..|upTo| - 1] == history[..i];
    BindingsStay(history, i + 1, history[i].request.scope);
  }

  /**
   * Exactly once: over any run, all heard answers of a scope name the same resource unless the
   * request differs, in which case it is a conflict with the bound fingerprint; and the scope has
   * at most one committed effect, which made that resource.
   */
  lemma ExactlyOnceCommands(s: Service, a: SessionId, b: SessionId)
    requires Reachable(s) && a in s.sessions && b in s.sessions
    requires s.sessions[a].phase.Ended? && s.sessions[a].phase.heard.Some?
    requires s.sessions[b].phase.Ended? && s.sessions[b].phase.heard.Some?
    requires s.sessions[a].request.scope == s.sessions[b].request.scope
    ensures var (x, y) := (s.sessions[a], s.sessions[b]);
            var (heardA, heardB, scope) := (x.phase.heard.value, y.phase.heard.value, x.request.scope);
            && EffectsOf(s.store.effects, scope) == 1
            && (!heardA.Conflict? && !heardB.Conflict? ==>
                  && heardA.resource == heardB.resource && x.request.fingerprint == y.request.fingerprint
                  && Effect(scope, heardA.resource) in s.store.effects)
            && (heardA.Conflict? && !heardB.Conflict? ==> heardA.bound == y.request.fingerprint != x.request.fingerprint)
  {
    ReachableIsSerial(s, a);
    ReachableIsSerial(s, b);
    var i :| 0 <= i < |s.history| && s.history[i].session == a
             && s.history[i].request == s.sessions[a].request && s.history[i].answer == s.sessions[a].phase.heard.value;
    var j :| 0 <= j < |s.history| && s.history[j].session == b
             && s.history[j].request == s.sessions[b].request && s.history[j].answer == s.sessions[b].phase.heard.value;
    AnswerNamesBinding(s.history, i);
    AnswerNamesBinding(s.history, j);
    OneEffectPerScope(s.history, s.sessions[a].request.scope);
  }

  /** In every reachable state a scope has at most one committed effect, heard of or not. */
  lemma AtMostOneEffect(s: Service, scope: Scope)
    requires Reachable(s)
    ensures EffectsOf(s.store.effects, scope) == if scope in s.store.bindings then 1 else 0
  {
    ReachableIsSerial(s, 0);
    OneEffectPerScope(s.history, scope);
  }
}
