/** The concurrent half of lock-gated WiFi: signals, link losses, clock ticks and changes of
    actuator arrive from any number of goroutines; settle decides and applies under applyMu,
    reading the gate and the actuator under mu. */
module LockWatch {
  import opened Bytes
  import opened LockGate

  type Tid = nat
  type Enforcer = nat  // an actuator function

  /** The fields of LockWatchService that matter to the actuator, and the last argument each
      actuator was called with. */
  datatype Core = Core(gate: Gate, enforcer: Option<Enforcer>, lastWanted: Option<bool>, lastArg: map<Enforcer, bool>)

  const START := Core(EMPTY, None, None, map[])

  function Decided(c: Core, want: bool): Core { c.(lastWanted := Some(want)) }

  function Called(c: Core, want: bool, fn: Option<Enforcer>): Core {
    if fn.Some? then c.(lastArg := c.lastArg[fn.value := want]) else c
  }

  /** Where a goroutine is inside the service. */
  datatype Pc =
    | ToClear(now: Instant)    // SetEnforcer has installed its actuator, lastWanted not yet cleared
    | ToSettle(now: Instant)   // about to take applyMu in settle(now)
    | Holding(now: Instant)    // has applyMu
    | Looked(want: bool, fn: Option<Enforcer>)   // has applyMu, has read gate and actuator
    | Calling(want: bool, fn: Option<Enforcer>)  // has applyMu, lastWanted set, about to call

  /** `settledAt` is the time argument of the settle that looked at the gate last. */
  datatype State = State(core: Core, applyMu: Option<Tid>, ops: map<Tid, Pc>, settledAt: Option<Instant>)

  datatype Action =
    | Hear(tid: Tid, sig: Signal, now: Instant)               // Ingest, ReportExternal
    | Lose(tid: Tid, now: Instant)                            // noteSessionLost
    | Tick(tid: Tid, now: Instant)                            // resettleLoop
    | Install(tid: Tid, fn: Option<Enforcer>, now: Instant)   // SetEnforcer
    | Clear(tid: Tid)
    | Lock(tid: Tid)
    | Look(tid: Tid)
    | Decide(tid: Tid)
    | Call(tid: Tid)

  predicate Begins(a: Action) { a.Hear? || a.Lose? || a.Tick? || a.Install? }

  predicate Enabled(s: State, a: Action) {
    if Begins(a) then a.tid !in s.ops && (a.Hear? ==> !a.sig.Inert?)
    else
      && a.tid in s.ops
      && var pc := s.ops[a.tid];
         match a
         case Clear(_) => pc.ToClear? && s.applyMu == None
         case Lock(_) => pc.ToSettle? && s.applyMu == None
         case Look(_) => pc.Holding?
         case Decide(_) => pc.Looked?
         case Call(_) => pc.Calling?
         case _ => false
  }

  function Apply(s: State, a: Action): State
    requires Enabled(s, a)
  {
    var t := a.tid;
    match a
    case Hear(_, sig, now) => s.(core := s.core.(gate := Applied(s.core.gate, sig, now)), ops := s.ops[t := ToSettle(now)])
    case Lose(_, now) => s.(core := s.core.(gate := EMPTY), ops := s.ops[t := ToSettle(now)])
    case Tick(_, now) => s.(ops := s.ops[t := ToSettle(now)])
    case Install(_, fn, now) => s.(core := s.core.(enforcer := fn), ops := s.ops[t := ToClear(now)])
    case Clear(_) => s.(core := s.core.(lastWanted := None), ops := s.ops[t := ToSettle(s.ops[t].now)])
    case Lock(_) => s.(applyMu := Some(t), ops := s.ops[t := Holding(s.ops[t].now)])
    case Look(_) =>
      var now := s.ops[t].now;
      s.(settledAt := Some(now), ops := s.ops[t := Looked(ShouldBeUp(s.core.gate, now), s.core.enforcer)])
    case Decide(_) =>
      var Looked(want, fn) := s.ops[t];
      if s.core.lastWanted == Some(want) then s.(applyMu := None, ops := s.ops - {t})
      else s.(core := Decided(s.core, want), ops := s.ops[t := Calling(want, fn)])
    case Call(_) =>
      var Calling(want, fn) := s.ops[t];
      s.(core := Called(s.core, want, fn), applyMu := None, ops := s.ops - {t})
  }

  predicate Init(s: State) { s == State(START, None, map[], None) }

  ghost predicate IsRun(states: seq<State>, actions: seq<Action>) {
    && |states| == |actions| + 1 && Init(states[0])
    && forall i :: 0 <= i < |actions| ==> Enabled(states[i], actions[i]) && states[i + 1] == Apply(states[i], actions[i])
  }

  // ----- invariants -----

  predicate HasApplyMu(pc: Pc) { pc.Holding? || pc.Looked? || pc.Calling? }

  /** A settle is still to look at the gate. */
  predicate Unsettled(pc: Pc) { pc.ToClear? || pc.ToSettle? || pc.Holding? }

  ghost predicate Settled(s: State) { forall t :: t in s.ops ==> !Unsettled(s.ops[t]) }

  ghost predicate NoneToClear(s: State) { forall t :: t in s.ops ==> !s.ops[t].ToClear? }

  ghost predicate LockHeld(s: State) {
    && (forall t :: t in s.ops && HasApplyMu(s.ops[t]) ==> s.applyMu == Some(t))
    && (s.applyMu.Some? ==> s.applyMu.value in s.ops && HasApplyMu(s.ops[s.applyMu.value]))
  }

  /** The actuator a settle is about to call is the installed one, unless a newer SetEnforcer has
      still to clear lastWanted. */
  ghost predicate FreshActuator(s: State) {
    NoneToClear(s) ==> forall t :: t in s.ops && (s.ops[t].Looked? || s.ops[t].Calling?) ==> s.ops[t].fn == s.core.enforcer
  }

  /** lastWanted is what the installed actuator was told last, or is about to be told. */
  ghost predicate ActuatorTold(s: State) {
    && (forall t :: t in s.ops && s.ops[t].Calling? ==> s.core.lastWanted == Some(s.ops[t].want))
    && (NoneToClear(s) && s.core.lastWanted.Some? && s.core.enforcer.Some? ==>
          || (exists t :: t in s.ops && s.ops[t].Calling?)
          || (s.core.enforcer.value in s.core.lastArg && s.core.lastArg[s.core.enforcer.value] == s.core.lastWanted.value))
  }

  /** lastWanted is the verdict at the last settle, or is about to be. */
  ghost predicate VerdictKept(s: State) {
    && (Settled(s) && s.settledAt.Some? ==>
          var want := ShouldBeUp(s.core.gate, s.settledAt.value);
          && (s.core.lastWanted == Some(want) || exists t :: t in s.ops && s.ops[t].Looked?)
          && forall t :: t in s.ops && s.ops[t].Looked? ==> s.ops[t].want == want)
    && (s.settledAt == None && s.core.enforcer.Some? ==> !Settled(s))
  }

  ghost predicate Inv(s: State) {
    LockHeld(s) && FreshActuator(s) && ActuatorTold(s) && VerdictKept(s)
  }

  lemma KeepsLock(s: State, a: Action)
    requires LockHeld(s) && Enabled(s, a)
    ensures LockHeld(Apply(s, a))
  {
  }

  lemma KeepsFresh(s: State, a: Action)
    requires LockHeld(s) && FreshActuator(s) && Enabled(s, a)
    ensures FreshActuator(Apply(s, a))
  {
    var s' := Apply(s, a);
    if NoneToClear(s') && (exists t :: t in s'.ops && (s'.ops[t].Looked? || s'.ops[t].Calling?)) && !a.Look? {
      assert a.tid in s'.ops ==> !s'.ops[a.tid].ToClear?;
      forall t | t in s.ops ensures !s.ops[t].ToClear? { assert t == a.tid || s'.ops[t] == s.ops[t]; }
    }
  }

  lemma KeepsTold(s: State, a: Action)
    requires LockHeld(s) && FreshActuator(s) && ActuatorTold(s) && Enabled(s, a)
    ensures ActuatorTold(Apply(s, a))
  {
    var s' := Apply(s, a);
    if NoneToClear(s') && !a.Clear? {
      forall t | t in s.ops ensures !s.ops[t].ToClear? { assert t == a.tid || s'.ops[t] == s.ops[t]; }
      assert NoneToClear(s);
    }
    if exists t :: t in s.ops && s.ops[t].Calling? {
      var t :| t in s.ops && s.ops[t].Calling?;
      if !a.Call? { assert t in s'.ops && s'.ops[t].Calling?; }
    }
    if a.Decide? && a.tid in s'.ops { assert s'.ops[a.tid].Calling?; }
    if a.Install? { assert s'.ops[a.tid].ToClear?; }
  }

  lemma KeepsVerdict(s: State, a: Action)
    requires LockHeld(s) && VerdictKept(s) && Enabled(s, a)
    ensures VerdictKept(Apply(s, a))
  {
    var s' := Apply(s, a);
    if a.Look? {
      assert s'.ops[a.tid].Looked?;
    } else if Begins(a) || a.Clear? || a.Lock? {
      assert Unsettled(s'.ops[a.tid]);
    } else {
      forall t | t in s.ops ensures Unsettled(s.ops[t]) ==> t in s'.ops && Unsettled(s'.ops[t]) {}
      if Settled(s') && s.settledAt.Some? {
        assert Settled(s);
        var want := ShouldBeUp(s.core.gate, s.settledAt.value);
        if s.core.lastWanted != Some(want) {
          var t :| t in s.ops && s.ops[t].Looked?;
          assert t == a.tid;
        }
      }
    }
  }

  lemma {:induction false} RunKeepsInv(states: seq<State>, actions: seq<Action>, i: nat)
    requires IsRun(states, actions) && i < |states|
    ensures Inv(states[i])
  {
    if i > 0 {
      RunKeepsInv(states, actions, i - 1);
      var s, a := states[i - 1], actions[i - 1];
      KeepsLock(s, a);
      KeepsFresh(s, a);
      KeepsTold(s, a);
      KeepsVerdict(s, a);
    }
  }

  /** In every interleaving of Ingest, ReportExternal, noteSessionLost, clock ticks and SetEnforcer
      calls, once no call is in progress the installed actuator's last argument is the verdict of
      the current gate at the most recent settle's time, whatever settled earlier with no
      actuator or with a replaced one. */
  lemma LastCallMatchesState(states: seq<State>, actions: seq<Action>, i: nat)
    requires IsRun(states, actions) && i < |states|
    requires states[i].ops == map[] && states[i].core.enforcer.Some?
    ensures var c := states[i].core;
      && states[i].settledAt.Some?
      && c.enforcer.value in c.lastArg
      && c.lastArg[c.enforcer.value] == ShouldBeUp(c.gate, states[i].settledAt.value)
  {
    RunKeepsInv(states, actions, i);
    assert Settled(states[i]) && NoneToClear(states[i]);
  }

  // ----- the state is the run's history -----

  /** What a call tells the gate. */
  function Told(a: Action): seq<Event> {
    match a
    case Hear(_, sig, now) => [Heard(sig, now)]
    case Lose(_, _) => [Lost]
    case _ => []
  }

  /** The signals and losses of a run, in order. */
  function History(actions: seq<Action>): seq<Event> {
    if actions == [] then [] else History(actions[..|actions| - 1]) + Told(actions[|actions| - 1])
  }

  lemma FoldedMore(es: seq<Event>, e: Event)
    ensures Folded(es + [e]) == LockGate.Step(Folded(es), e)
  {
    assert (es + [e])[..|es|] == es;
  }

  /** In every run the gate is the fold of the signals and losses so far, whatever else went on. */
  lemma {:induction false} GateIsHistory(states: seq<State>, actions: seq<Action>, i: nat)
    requires IsRun(states, actions) && i < |states|
    ensures states[i].core.gate == Folded(History(actions[..i]))
  {
    if i > 0 {
      var a := actions[i - 1];
      GateIsHistory(states, actions, i - 1);
      assert actions[..i][..i - 1] == actions[..i - 1];
      var before := History(actions[..i - 1]);
      assert before + [] == before;
      if a.Hear? { FoldedMore(before, Heard(a.sig, a.now)); }
      if a.Lose? { FoldedMore(before, Lost); }
    }
  }

  /** Once no call is in progress, the installed actuator was told "down" last exactly when, at the time of
      the most recent settle, the signals and losses heard say so. */
  lemma LastCallMatchesHistory(states: seq<State>, actions: seq<Action>, i: nat)
    requires IsRun(states, actions) && i < |states|
    requires states[i].ops == map[] && InstalledLast(actions[..i]).Some?
    ensures var c, fn := states[i].core, InstalledLast(actions[..i]).value;
      && states[i].settledAt.Some? && fn in c.lastArg
      && c.lastArg[fn] == !DownByHistory(History(actions[..i]), states[i].settledAt.value)
  {
    EnforcerIsInstalled(states, actions, i);
    LastCallMatchesState(states, actions, i);
    GateIsHistory(states, actions, i);
    VerdictByHistory(History(actions[..i]), states[i].settledAt.value);
  }

  /** The actuator SetEnforcer installed last; None before the first. */
  function InstalledLast(actions: seq<Action>): Option<Enforcer> {
    if actions == [] then None
    else if actions[|actions| - 1].Install? then actions[|actions| - 1].fn
    else InstalledLast(actions[..|actions| - 1])
  }

  lemma {:induction false} EnforcerIsInstalled(states: seq<State>, actions: seq<Action>, i: nat)
    requires IsRun(states, actions) && i < |states|
    ensures states[i].core.enforcer == InstalledLast(actions[..i])
  {
    if i > 0 {
      EnforcerIsInstalled(states, actions, i - 1);
      assert actions[..i][..i - 1] == actions[..i - 1];
    }
  }

  // ----- every call settles -----

  /** Call t, begun at time `now`, is still to look at the gate. */
  predicate StillToLook(s: State, t: Tid, now: Instant) {
    t in s.ops && Unsettled(s.ops[t]) && s.ops[t].now == now
  }

  lemma BeginsUnsettled(s: State, a: Action)
    requires Enabled(s, a) && Begins(a)
    ensures StillToLook(Apply(s, a), a.tid, a.now)
  {}

  lemma StaysUnsettled(s: State, a: Action, t: Tid, now: Instant)
    requires Enabled(s, a) && StillToLook(s, t, now)
    ensures if a == Look(t) then Apply(s, a).settledAt == Some(now) else StillToLook(Apply(s, a), t, now)
  {}

  /** No signal, loss, clock tick or change of actuator is left without its verdict: a call that has ended
      has looked at the gate, with its own time. */
  lemma {:induction false} EveryCallSettles(states: seq<State>, actions: seq<Action>, j: nat, i: nat)
    requires IsRun(states, actions) && j < i < |states| && Begins(actions[j])
    requires forall m :: j < m < i ==> actions[m] != Look(actions[j].tid)
    ensures StillToLook(states[i], actions[j].tid, actions[j].now)
  {
    if i == j + 1 {
      BeginsUnsettled(states[j], actions[j]);
    } else {
      EveryCallSettles(states, actions, j, i - 1);
      StaysUnsettled(states[i - 1], actions[i - 1], actions[j].tid, actions[j].now);
    }
  }

  // ----- the actuator is called on a flip -----

  ghost predicate NoneCalling(s: State) { forall t :: t in s.ops ==> !s.ops[t].Calling? }

  /** Since a call with v, the verdict wanted is still v, or a call with the opposite is under way. */
  ghost predicate SinceCall(s: State, v: bool) {
    && (forall t :: t in s.ops && s.ops[t].Calling? ==> s.ops[t].want != v)
    && (NoneCalling(s) ==> s.core.lastWanted == Some(v))
  }

  lemma CallStarts(s: State, a: Action)
    requires Inv(s) && Enabled(s, a) && a.Call?
    ensures SinceCall(Apply(s, a), s.ops[a.tid].want)
  {}

  lemma StaysSinceCall(s: State, a: Action, v: bool)
    requires Inv(s) && Enabled(s, a) && SinceCall(s, v) && !a.Call? && !a.Clear?
    ensures SinceCall(Apply(s, a), v)
  {
    var s' := Apply(s, a);
    if a.Decide? {
      assert NoneCalling(s);
      assert a.tid in s'.ops ==> s'.ops[a.tid].Calling?;
    } else {
      forall t | t in s.ops ensures s.ops[t].Calling? ==> t in s'.ops && s'.ops[t] == s.ops[t] {}
    }
  }

  lemma {:induction false} SinceCallAt(states: seq<State>, actions: seq<Action>, i: nat, j: nat)
    requires IsRun(states, actions) && i < j <= |actions| && actions[i].Call?
    requires forall m :: i < m < j ==> !actions[m].Call? && !actions[m].Clear?
    ensures actions[i].tid in states[i].ops && states[i].ops[actions[i].tid].Calling?
    ensures SinceCall(states[j], states[i].ops[actions[i].tid].want)
  {
    RunKeepsInv(states, actions, j - 1);
    if j == i + 1 {
      CallStarts(states[i], actions[i]);
    } else {
      SinceCallAt(states, actions, i, j - 1);
      StaysSinceCall(states[j - 1], actions[j - 1], states[i].ops[actions[i].tid].want);
    }
  }

  /** Two calls in a row, with no change of actuator between them, say opposite things. */
  lemma CallsFlip(states: seq<State>, actions: seq<Action>, i: nat, j: nat)
    requires IsRun(states, actions) && i < j < |actions| && actions[i].Call? && actions[j].Call?
    requires forall m :: i < m < j ==> !actions[m].Call? && !actions[m].Clear?
    ensures var s, t := states[i], states[j];
      && actions[i].tid in s.ops && s.ops[actions[i].tid].Calling? && actions[j].tid in t.ops && t.ops[actions[j].tid].Calling?
      && t.ops[actions[j].tid].want != s.ops[actions[i].tid].want
  {
    SinceCallAt(states, actions, i, j);
    assert Enabled(states[j], actions[j]);
  }

  // ----- the two locks never wedge the service -----

  /** The steps a call has left. */
  function StepsLeft(pc: Pc): nat {
    match pc
    case ToClear(_) => 5
    case ToSettle(_) => 4
    case Holding(_) => 3
    case Looked(_, _) => 2
    case Calling(_, _) => 1
  }

  /** In every reachable state with a call in progress some call can step, and a step only brings its
      own call closer to its end: with actuators that return, every call returns. */
  lemma NeverStuck(states: seq<State>, actions: seq<Action>, i: nat)
    requires IsRun(states, actions) && i < |states| && states[i].ops != map[]
    ensures exists a :: Enabled(states[i], a) && !Begins(a)
    ensures forall a :: Enabled(states[i], a) && !Begins(a) ==> Progress(states[i], a)
  {
    RunKeepsInv(states, actions, i);
    var s := states[i];
    var t :| t in s.ops;
    var u := if s.applyMu.Some? then s.applyMu.value else t;
    var a := NextOf(s.ops[u], u);
    assert Enabled(s, a) && !Begins(a);
    forall b | Enabled(s, b) && !Begins(b) ensures Progress(s, b) { StepProgresses(s, b); }
  }

  function NextOf(pc: Pc, t: Tid): Action {
    match pc
    case ToClear(_) => Clear(t)
    case ToSettle(_) => Lock(t)
    case Holding(_) => Look(t)
    case Looked(_, _) => Decide(t)
    case Calling(_, _) => Call(t)
  }

  ghost predicate Progress(s: State, a: Action)
    requires Enabled(s, a) && !Begins(a)
  {
    var s' := Apply(s, a);
    && (a.tid in s'.ops ==> StepsLeft(s'.ops[a.tid]) < StepsLeft(s.ops[a.tid]))
    && s'.ops - {a.tid} == s.ops - {a.tid}
  }

  lemma StepProgresses(s: State, a: Action)
    requires Enabled(s, a) && !Begins(a)
    ensures Progress(s, a)
  {}
}
