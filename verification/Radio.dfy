/** The BLE radio ownership protocol.

    One radio permit (a one-slot channel) is fought over by Opens, Closes, idle reapers,
    token removals and key enrolments.  Every region the source runs under its mutex, and
    every channel operation on the permit, is one atomic action here; a run is any
    interleaving of such actions by any number of operations.  */
module Radio {

  type Tid = nat        // an operation in flight (a goroutine)
  type SessionId = nat  // 16 random bytes; nothing below needs them to be unique

  /** A registered session.  `number` is which Open made it; the source keeps only the owner. */
  datatype Session = Session(number: nat, owner: int)

  /** pendingCancel and pendingOwner: the newest Open still in flight, if any. */
  datatype Pending = Idle | InFlight(tid: Tid, owner: int)

  /** What BLESessionService.mu guards. */
  datatype Table = Table(sessions: map<SessionId, Session>, openSeq: nat, pending: Pending)

  datatype Role =
    | Opener(number: nat, owner: int, cancelled: bool)
    | Closer
    | Remover(owner: int)
    | Reaper
    | Enrolment

  /** Where an operation is.  `ids` are the sessions it has still to close. */
  datatype Pc =
    | Snapshot                        // about to collect the sessions to close, under the mutex
    | Closing(ids: seq<SessionId>)    // about to close the next one
    | Releasing(ids: seq<SessionId>)  // deleted one from the map, its permit not yet given back
    | Waiting                         // for the permit
    | Connecting                      // has the permit, scanning and connecting
    | Connected                       // has the permit and a connection, about to register
    | BackingOut                      // has the permit, about to give it back
    | Ending                          // no permit of its own any more, about to return

  datatype Op = Op(role: Role, pc: Pc)

  datatype State = State(table: Table, slot: bool, panicked: bool, ops: map<Tid, Op>)

  // ----- the mutex-protected regions, as functions of the table -----

  function BegunOpen(tb: Table, t: Tid, owner: int): Table {
    Table(tb.sessions, tb.openSeq + 1, InFlight(t, owner))
  }

  function EndedOpen(tb: Table, number: nat): Table {
    if tb.openSeq == number then tb.(pending := Idle) else tb
  }

  predicate OwnsPending(tb: Table, owner: int) {
    tb.pending.InFlight? && tb.pending.owner == owner
  }

  function TokenRemoved(tb: Table, owner: int): Table {
    if OwnsPending(tb, owner) then Table(tb.sessions, tb.openSeq + 1, Idle) else tb
  }

  function Registered(tb: Table, id: SessionId, session: Session): Table {
    tb.(sessions := tb.sessions[id := session])
  }

  function Deleted(tb: Table, id: SessionId): Table {
    tb.(sessions := tb.sessions - {id})
  }

  /** `ids` enumerates the sessions that satisfy the closer's filter, in some order. */
  ghost predicate Enumerates(ids: seq<SessionId>, tb: Table, role: Role) {
    && (forall id :: id in ids <==> id in tb.sessions && (role.Remover? ==> tb.sessions[id].owner == role.owner))
    && |ids| <= |tb.sessions|
  }

  // ----- actions -----

  datatype Action =
    | BeginOpen(tid: Tid, owner: int)
    | BeginClose(tid: Tid, id: SessionId)
    | BeginRemove(tid: Tid, owner: int)
    | BeginEnrol(tid: Tid)
    | TakeSnapshot(tid: Tid, ids: seq<SessionId>)
    | CloseNext(tid: Tid)
    | Acquire(tid: Tid)
    | GiveUp(tid: Tid)        // the adapter failed to start, or the context ended
    | ConnectOk(tid: Tid)
    | ConnectFails(tid: Tid)
    | Register(tid: Tid, id: SessionId, reaper: Tid)
    | Refuse(tid: Tid)        // superseded, or no random bytes for an id
    | Release(tid: Tid)
    | Finish(tid: Tid)

  predicate Begins(a: Action) {
    a.BeginOpen? || a.BeginClose? || a.BeginRemove? || a.BeginEnrol?
  }

  predicate PcHolds(pc: Pc) {
    pc.Releasing? || pc.Connecting? || pc.Connected? || pc.BackingOut?
  }

  ghost predicate Enabled(s: State, a: Action) {
    if Begins(a) then a.tid !in s.ops && (a.BeginRemove? ==> a.owner != 0)
    else
      && a.tid in s.ops
      && var op := s.ops[a.tid];
         match a
         case TakeSnapshot(_, ids) => op.pc.Snapshot? && Enumerates(ids, s.table, op.role)
         case CloseNext(_) => op.pc.Closing? && op.pc.ids != []
         case Acquire(_) => op.pc.Waiting? && !s.slot
         case GiveUp(_) => op.pc.Waiting?
         case ConnectOk(_) => op.pc.Connecting? && op.role.Opener?
         case ConnectFails(_) => op.pc.Connecting?
         case Register(_, id, reaper) =>
           op.pc.Connected? && op.role.Opener? && op.role.number == s.table.openSeq && reaper !in s.ops
         case Refuse(_) => op.pc.Connected?
         case Release(_) => op.pc.Releasing? || op.pc.BackingOut?
         case Finish(_) => op.pc.Ending? || (op.pc.Closing? && op.pc.ids == [])
         case _ => false
  }

  function Cancel(ops: map<Tid, Op>, p: Pending): map<Tid, Op> {
    if p.InFlight? && p.tid in ops && ops[p.tid].role.Opener?
    then ops[p.tid := Op(ops[p.tid].role.(cancelled := true), ops[p.tid].pc)]
    else ops
  }

  function At(s: State, t: Tid, pc: Pc): State
    requires t in s.ops
  {
    s.(ops := s.ops[t := Op(s.ops[t].role, pc)])
  }

  /** Give the permit back.  Doing so with the slot empty is the source's panic. */
  function Unlocked(s: State): State {
    if s.slot then s.(slot := false) else s.(panicked := true)
  }

  ghost function Apply(s: State, a: Action): State
    requires Enabled(s, a)
  {
    var t := a.tid;
    match a
    case BeginOpen(_, owner) =>
      s.(table := BegunOpen(s.table, t, owner),
         ops := Cancel(s.ops, s.table.pending)[t := Op(Opener(s.table.openSeq + 1, owner, false), Snapshot)])
    case BeginClose(_, id) => s.(ops := s.ops[t := Op(Closer, Closing([id]))])
    case BeginRemove(_, owner) => s.(ops := s.ops[t := Op(Remover(owner), Snapshot)])
    case BeginEnrol(_) => s.(ops := s.ops[t := Op(Enrolment, Waiting)])
    case TakeSnapshot(_, ids) =>
      var role := s.ops[t].role;
      if role.Remover? && OwnsPending(s.table, role.owner) then
        var ops := Cancel(s.ops, s.table.pending);
        s.(table := TokenRemoved(s.table, role.owner), ops := ops[t := Op(role, Closing(ids))])
      else At(s, t, Closing(ids))
    case CloseNext(_) =>
      var ids := s.ops[t].pc.ids;
      if ids[0] in s.table.sessions
      then At(s.(table := Deleted(s.table, ids[0])), t, Releasing(ids[1..]))
      else At(s, t, Closing(ids[1..]))
    case Acquire(_) => At(s.(slot := true), t, Connecting)
    case GiveUp(_) => At(s, t, Ending)
    case ConnectOk(_) => At(s, t, Connected)
    case ConnectFails(_) => At(s, t, BackingOut)
    case Register(_, id, reaper) =>
      var r := s.ops[t].role;
      s.(table := Registered(s.table, id, Session(r.number, r.owner)),
         ops := s.ops[t := Op(r, Ending)][reaper := Op(Reaper, Closing([id]))])
    case Refuse(_) => At(s, t, BackingOut)
    case Release(_) =>
      At(Unlocked(s), t, if s.ops[t].pc.Releasing? then Closing(s.ops[t].pc.ids) else Ending)
    case Finish(_) =>
      var op := s.ops[t];
      if op.pc.Closing? && op.role.Opener? then At(s, t, Waiting)
      else if op.role.Opener? then s.(table := EndedOpen(s.table, op.role.number), ops := s.ops - {t})
      else s.(ops := s.ops - {t})
  }

  ghost predicate Init(s: State) {
    s == State(Table(map[], 0, Idle), false, false, map[])
  }

  /** `states` is what one interleaving of `actions` does from the start. */
  ghost predicate IsPath(states: seq<State>, actions: seq<Action>) {
    && |states| == |actions| + 1
    && forall i :: 0 <= i < |actions| ==> Enabled(states[i], actions[i]) && states[i + 1] == Apply(states[i], actions[i])
  }

  ghost predicate IsRun(states: seq<State>, actions: seq<Action>) {
    IsPath(states, actions) && Init(states[0])
  }

  // ----- who holds the permit -----

  datatype Holder = Running(tid: Tid) | Live(id: SessionId)

  predicate Holds(s: State, h: Holder) {
    match h
    case Running(t) => t in s.ops && PcHolds(s.ops[t].pc)
    case Live(id) => id in s.table.sessions
  }

  ghost predicate PermitConserved(s: State) {
    && (s.slot <==> exists h :: Holds(s, h))
    && (forall h, k :: Holds(s, h) && Holds(s, k) ==> h == k)
    && !s.panicked
  }

  // ----- what orders the Opens -----

  /** The newest Open in flight is the pending one, and every older one has been cancelled. */
  ghost predicate OpensOrdered(s: State) {
    && (forall t :: t in s.ops && s.ops[t].role.Opener? ==> OpenerOk(s.table, t, s.ops[t].role))
    && PendingOk(s)
    && (forall id :: id in s.table.sessions ==> s.table.sessions[id].number <= s.table.openSeq)
  }

  predicate OpenerOk(tb: Table, t: Tid, r: Role)
    requires r.Opener?
  {
    && 1 <= r.number <= tb.openSeq
    && (r.number == tb.openSeq ==> tb.pending == InFlight(t, r.owner))
    && (r.number < tb.openSeq ==> r.cancelled)
  }

  predicate PendingOk(s: State) {
    s.table.pending.InFlight? ==>
      && s.table.pending.tid in s.ops
      && s.ops[s.table.pending.tid].role.Opener?
      && s.ops[s.table.pending.tid].role.number == s.table.openSeq
  }

  predicate Newest(s: State, t: Tid) {
    t in s.ops && s.ops[t].role.Opener? && s.ops[t].role.number == s.table.openSeq
  }

  predicate BeforeRegister(pc: Pc) {
    pc.Waiting? || pc.Connecting? || pc.Connected? || pc.BackingOut?
  }

  /** While an Open is newest, the only sessions left are the ones it is about to preempt. */
  ghost predicate Preempting(s: State) {
    forall t :: Newest(s, t) ==>
      && (s.ops[t].pc.Closing? || s.ops[t].pc.Releasing? ==>
            forall id :: id in s.table.sessions ==> id in s.ops[t].pc.ids)
      && (BeforeRegister(s.ops[t].pc) ==> s.table.sessions == map[])
  }

  /** Only the roles that have a given step are ever at it. */
  ghost predicate RolesFit(s: State) {
    forall t :: t in s.ops ==>
      && (s.ops[t].pc.Connected? ==> s.ops[t].role.Opener?)
      && (s.ops[t].pc.Snapshot? ==> s.ops[t].role.Opener? || s.ops[t].role.Remover?)
      && (BeforeRegister(s.ops[t].pc) || s.ops[t].pc.Ending? ==> s.ops[t].role.Opener? || s.ops[t].role.Enrolment?)
  }

  ghost predicate Inv(s: State) {
    PermitConserved(s) && OpensOrdered(s) && Preempting(s) && RolesFit(s)
  }

  // ----- every action keeps the invariant -----

  /** How each action moves the permit: who holds it afterwards. */
  ghost predicate HoldsAfter(s: State, a: Action, h: Holder)
    requires Enabled(s, a)
  {
    match a
    case Acquire(t) => Holds(s, h) || h == Running(t)
    case Release(t) => Holds(s, h) && h != Running(t)
    case Register(t, id, _) => (Holds(s, h) && h != Running(t)) || h == Live(id)
    case CloseNext(t) =>
      var id := s.ops[t].pc.ids[0];
      if id in s.table.sessions then (Holds(s, h) && h != Live(id)) || h == Running(t) else Holds(s, h)
    case _ => Holds(s, h)
  }

  lemma PermitMoves(s: State, a: Action, h: Holder)
    requires OpensOrdered(s) && RolesFit(s) && Enabled(s, a)
    ensures Holds(Apply(s, a), h) <==> HoldsAfter(s, a, h)
  {
    if h.Live? { LiveMoves(s, a, h.id); } else if h.tid == a.tid { ActorHolds(s, a); } else { OthersHold(s, a, h.tid); }
  }

  lemma LiveMoves(s: State, a: Action, id: SessionId)
    requires Enabled(s, a)
    ensures Holds(Apply(s, a), Live(id)) <==> HoldsAfter(s, a, Live(id))
  {}

  lemma ActorHolds(s: State, a: Action)
    requires RolesFit(s) && Enabled(s, a)
    ensures Holds(Apply(s, a), Running(a.tid)) <==> HoldsAfter(s, a, Running(a.tid))
  {}

  lemma OthersHold(s: State, a: Action, t: Tid)
    requires Enabled(s, a) && t != a.tid
    ensures Holds(Apply(s, a), Running(t)) <==> HoldsAfter(s, a, Running(t))
  {}

  /** An action touches nobody else's operation, except to cancel the pending Open or start a reaper. */
  lemma OthersKept(s: State, a: Action, t: Tid)
    requires Enabled(s, a) && t != a.tid && t in Apply(s, a).ops
    ensures var s' := Apply(s, a);
      || (a.Register? && a.reaper == t && t !in s.ops && s'.ops[t] == Op(Reaper, Closing([a.id])))
      || (t in s.ops && s'.ops[t] == s.ops[t])
      || (t in s.ops && s'.ops == Cancel(s.ops, s.table.pending)[a.tid := s'.ops[a.tid]]
          && s.table.pending.InFlight? && s.table.pending.tid == t && s.ops[t].role.Opener?
          && s'.table.openSeq == s.table.openSeq + 1)
  {
    match a
    case BeginOpen(_, _) =>
    case TakeSnapshot(_, _) =>
    case Register(_, _, _) =>
    case _ =>
  }

  lemma KeepsPermit(s: State, a: Action)
    requires Inv(s) && Enabled(s, a)
    ensures PermitConserved(Apply(s, a))
  {
    var s' := Apply(s, a);
    forall h ensures Holds(s', h) <==> HoldsAfter(s, a, h) { PermitMoves(s, a, h); }
    if a.Acquire? {
      assert Holds(s', Running(a.tid));
    } else if a.Release? {
      assert Holds(s, Running(a.tid));
    } else if a.Register? {
      assert Holds(s, Running(a.tid)) && Holds(s', Live(a.id));
    } else if a.CloseNext? && s.ops[a.tid].pc.ids[0] in s.table.sessions {
      assert Holds(s, Live(s.ops[a.tid].pc.ids[0])) && Holds(s', Running(a.tid));
    } else if s.slot {
      var h :| Holds(s, h);
      assert Holds(s', h);
    }
  }

  lemma KeepsOpener(s: State, a: Action, t: Tid)
    requires OpensOrdered(s) && Enabled(s, a) && t in Apply(s, a).ops && Apply(s, a).ops[t].role.Opener?
    ensures OpenerOk(Apply(s, a).table, t, Apply(s, a).ops[t].role)
  {
    if t != a.tid { OthersKept(s, a, t); }
  }

  lemma KeepsPending(s: State, a: Action)
    requires OpensOrdered(s) && Enabled(s, a)
    ensures PendingOk(Apply(s, a))
  {}

  lemma KeepsOrder(s: State, a: Action)
    requires OpensOrdered(s) && Enabled(s, a)
    ensures OpensOrdered(Apply(s, a))
  {
    var s' := Apply(s, a);
    KeepsPending(s, a);
    forall t | t in s'.ops && s'.ops[t].role.Opener? ensures OpenerOk(s'.table, t, s'.ops[t].role) {
      KeepsOpener(s, a, t);
    }
  }

  lemma KeepsRoles(s: State, a: Action)
    requires OpensOrdered(s) && RolesFit(s) && Enabled(s, a)
    ensures RolesFit(Apply(s, a))
  {
    var s' := Apply(s, a);
    forall t | t in s'.ops
      ensures s'.ops[t].pc.Connected? ==> s'.ops[t].role.Opener?
      ensures s'.ops[t].pc.Snapshot? ==> s'.ops[t].role.Opener? || s'.ops[t].role.Remover?
      ensures BeforeRegister(s'.ops[t].pc) || s'.ops[t].pc.Ending? ==> s'.ops[t].role.Opener? || s'.ops[t].role.Enrolment?
    {
      if t != a.tid { OthersKept(s, a, t); }
    }
  }

  lemma KeepsPreempting(s: State, a: Action)
    requires OpensOrdered(s) && Preempting(s) && Enabled(s, a)
    ensures Preempting(Apply(s, a))
  {
    var s' := Apply(s, a);
    forall t | Newest(s', t)
      ensures s'.ops[t].pc.Closing? || s'.ops[t].pc.Releasing? ==> forall id :: id in s'.table.sessions ==> id in s'.ops[t].pc.ids
      ensures BeforeRegister(s'.ops[t].pc) ==> s'.table.sessions == map[]
    {
      if t != a.tid {
        OthersKept(s, a, t);
        assert Newest(s, t) && s'.ops[t] == s.ops[t];
        assert !a.Register?;
      }
    }
  }

  lemma KeepsInv(s: State, a: Action)
    requires Inv(s) && Enabled(s, a)
    ensures Inv(Apply(s, a))
  {
    KeepsPermit(s, a);
    KeepsOrder(s, a);
    KeepsPreempting(s, a);
    KeepsRoles(s, a);
  }

  // ===== what holds over every run =====

  lemma {:induction false} PathKeepsInv(states: seq<State>, actions: seq<Action>, n: nat)
    requires IsPath(states, actions) && Inv(states[0]) && n < |states|
    ensures Inv(states[n])
  {
    if n > 0 {
      PathKeepsInv(states, actions, n - 1);
      KeepsInv(states[n - 1], actions[n - 1]);
    }
  }

  /** Permit conservation: in every state of every interleaving the slot is full exactly when
      somebody holds the permit, nobody else holds it then, and no Unlock ever panicked. */
  lemma PermitIsConserved(states: seq<State>, actions: seq<Action>, i: nat)
    requires IsRun(states, actions) && i < |states|
    ensures Inv(states[i])
  {
    PathKeepsInv(states, actions, i);
  }

  /** At most one session is ever registered, and then no operation holds the permit. */
  lemma AtMostOneSession(states: seq<State>, actions: seq<Action>, i: nat)
    requires IsRun(states, actions) && i < |states|
    ensures var s := states[i];
      && |s.table.sessions| <= 1
      && (s.table.sessions != map[] ==> s.slot && forall t :: t in s.ops ==> !PcHolds(s.ops[t].pc))
  {
    PermitIsConserved(states, actions, i);
    var s := states[i];
    var keys := s.table.sessions.Keys;
    if keys != {} {
      var id :| id in keys;
      assert Holds(s, Live(id));
      assert keys == {id} by {
        forall k | k in keys ensures k == id { assert Holds(s, Live(k)); }
      }
      forall t | t in s.ops ensures !PcHolds(s.ops[t].pc) {
        if PcHolds(s.ops[t].pc) { assert Holds(s, Running(t)); }
      }
    }
    assert |s.table.sessions| == |keys|;
  }

  lemma StepSessions(s: State, a: Action, id: SessionId)
    requires Enabled(s, a) && id in Apply(s, a).table.sessions
    ensures s.table.openSeq <= Apply(s, a).table.openSeq
    ensures var session := Apply(s, a).table.sessions[id];
      || (id in s.table.sessions && s.table.sessions[id] == session)
      || (a.Register? && session.number == s.table.openSeq && session.owner == s.ops[a.tid].role.owner)
  {
  }

  lemma SeqStep(states: seq<State>, actions: seq<Action>, i: nat)
    requires IsPath(states, actions) && i < |actions|
    ensures states[i].table.openSeq <= states[i + 1].table.openSeq
  {}

  lemma {:induction false} Ascends(ns: seq<nat>, i: nat, j: nat)
    requires i <= j < |ns| && forall k :: 0 <= k < |ns| - 1 ==> ns[k] <= ns[k + 1]
    ensures ns[i] <= ns[j]
  {
    if i < j {
      Ascends(ns, i, j - 1);
      assert ns[j - 1] <= ns[j - 1 + 1];
    }
  }

  lemma SeqGrows(states: seq<State>, actions: seq<Action>, i: nat, j: nat)
    requires IsPath(states, actions) && i <= j < |states|
    ensures states[i].table.openSeq <= states[j].table.openSeq
  {
    var ns := seq(|states|, k requires 0 <= k < |states| => states[k].table.openSeq);
    forall k | 0 <= k < |ns| - 1 ensures ns[k] <= ns[k + 1] { SeqStep(states, actions, k); }
    Ascends(ns, i, j);
  }

  /** A session of s made by an Open below x's number was there in x already. */
  ghost predicate NoneOlder(x: State, s: State, id: SessionId) {
    id in s.table.sessions && s.table.sessions[id].number < x.table.openSeq ==>
      id in x.table.sessions && x.table.sessions[id] == s.table.sessions[id]
  }

  lemma NoneOlderStep(x: State, s: State, a: Action, id: SessionId)
    requires Enabled(s, a) && NoneOlder(x, s, id) && x.table.openSeq <= s.table.openSeq
    ensures NoneOlder(x, Apply(s, a), id)
  {
    if id in Apply(s, a).table.sessions { StepSessions(s, a, id); }
  }

  /** Newest Open wins: once openSeq has reached n, a session of an Open numbered below n is
      one that was there already.  No superseded Open registers, ever, in any interleaving. */
  lemma {:induction false} NewestWins(states: seq<State>, actions: seq<Action>, i: nat, j: nat, id: SessionId)
    requires IsPath(states, actions) && i <= j < |states|
    ensures NoneOlder(states[i], states[j], id)
  {
    if i < j {
      NewestWins(states, actions, i, j - 1, id);
      SeqGrows(states, actions, i, j - 1);
      NoneOlderStep(states[i], states[j - 1], actions[j - 1], id);
    }
  }

  /** While an Open is newest and past its preemption, no session is registered, so the permit
      is free or with an operation that is on its way to giving it back; that operation can move. */
  lemma QuietBeforeRegister(states: seq<State>, actions: seq<Action>, i: nat, t: Tid)
    requires IsRun(states, actions) && i < |states|
    requires Newest(states[i], t) && states[i].ops[t].pc.Waiting?
    ensures var s := states[i];
      && s.table.sessions == map[]
      && (!s.slot ==> Enabled(s, Acquire(t)))
      && (s.slot ==> exists a: Action :: a.tid in s.ops && PcHolds(s.ops[a.tid].pc) && a.tid != t && Enabled(s, a))
  {
    PermitIsConserved(states, actions, i);
    var s := states[i];
    if s.slot {
      var h :| Holds(s, h);
      var pc := s.ops[h.tid].pc;
      var a := if pc.Connecting? then ConnectFails(h.tid) else if pc.Connected? then Refuse(h.tid) else Release(h.tid);
      assert Enabled(s, a);
    }
  }

  // ----- how long the newest Open can be kept waiting -----

  /** An upper bound on the actions an operation has left, while no session is registered. */
  function Rank(op: Op): nat {
    match op.pc
    case Snapshot => 7
    case Closing(ids) => 6 + 2 * |ids|
    case Releasing(ids) => 7 + 2 * |ids|
    case Waiting => 5
    case Connecting => 4
    case Connected => 3
    case BackingOut => 2
    case Ending => 1
  }

  ghost function Total(ops: map<Tid, Op>): nat {
    if ops == map[] then 0 else
      var t :| t in ops;
      Rank(ops[t]) + Total(ops - {t})
  }

  lemma {:induction false} TotalSplit(ops: map<Tid, Op>, t: Tid)
    requires t in ops
    ensures Total(ops) == Rank(ops[t]) + Total(ops - {t})
    decreases ops
  {
    var u :| u in ops && Total(ops) == Rank(ops[u]) + Total(ops - {u});
    if u != t {
      TotalSplit(ops - {u}, t);
      TotalSplit(ops - {t}, u);
      assert ops - {u} - {t} == ops - {t} - {u};
    }
  }

  lemma OnlyActorMoves(s: State, a: Action)
    requires Enabled(s, a) && !Begins(a) && !a.Register?
    requires Apply(s, a).table.openSeq == s.table.openSeq
    ensures Apply(s, a).ops - {a.tid} == s.ops - {a.tid}
  {
    var moved := Apply(s, a).ops;
    if a.tid in moved { assert moved == s.ops[a.tid := moved[a.tid]]; }
  }

  lemma ActorSpends(s: State, a: Action)
    requires Enabled(s, a) && !Begins(a) && !a.Register? && s.table.sessions == map[]
    ensures a.tid in Apply(s, a).ops ==> Rank(Apply(s, a).ops[a.tid]) < Rank(s.ops[a.tid])
  {
    if a.TakeSnapshot? { assert |a.ids| <= |s.table.sessions| == 0; }
  }

  /** With t newest and waiting throughout, every action of anybody else uses up the measure. */
  lemma StepSpends(s: State, a: Action, t: Tid)
    requires Inv(s) && Enabled(s, a) && !Begins(a) && a.tid != t
    requires Newest(s, t) && s.ops[t].pc.Waiting? && Newest(Apply(s, a), t)
    ensures Total(Apply(s, a).ops - {t}) < Total(s.ops - {t})
  {
    assert !a.Register?;
    OnlyActorMoves(s, a);
    ActorSpends(s, a);
    Spends(s.ops, Apply(s, a).ops, a.tid, t);
  }

  lemma Spends(ops: map<Tid, Op>, ops': map<Tid, Op>, u: Tid, t: Tid)
    requires u != t && u in ops && ops' - {u} == ops - {u}
    requires u in ops' ==> Rank(ops'[u]) < Rank(ops[u])
    ensures Total(ops' - {t}) < Total(ops - {t})
  {
    TotalSplit(ops - {t}, u);
    assert ops - {t} - {u} == ops - {u} - {t} == ops' - {u} - {t} == ops' - {t} - {u};
    if u in ops' {
      TotalSplit(ops' - {t}, u);
    } else {
      assert ops' - {t} == ops' - {t} - {u};
    }
  }

  /** Bounded overtaking: while t stays the newest Open and waits, and no new operation starts,
      at most Total(others) actions can happen before it. */
  lemma WaitIsBounded(states: seq<State>, actions: seq<Action>, t: Tid)
    requires IsPath(states, actions) && Inv(states[0]) && Kept(states, t)
    requires forall i :: 0 <= i < |actions| ==> !Begins(actions[i]) && actions[i].tid != t
    ensures |actions| <= Total(states[0].ops - {t})
  {
    var ms := seq(|states|, i requires 0 <= i < |states| => Total(states[i].ops - {t}));
    forall i | 0 <= i < |ms| - 1 ensures ms[i + 1] < ms[i] {
      WaitSpends(states, actions, t, i);
    }
    DescentEnds(ms);
  }

  ghost predicate Kept(states: seq<State>, t: Tid) {
    forall i :: 0 <= i < |states| ==> Newest(states[i], t) && states[i].ops[t].pc.Waiting?
  }

  lemma WaitSpends(states: seq<State>, actions: seq<Action>, t: Tid, i: nat)
    requires IsPath(states, actions) && Inv(states[0]) && Kept(states, t) && i < |actions|
    requires !Begins(actions[i]) && actions[i].tid != t
    ensures Total(states[i + 1].ops - {t}) < Total(states[i].ops - {t})
  {
    PathKeepsInv(states, actions, i);
    assert Newest(states[i + 1], t) && states[i + 1] == Apply(states[i], actions[i]);
    StepSpends(states[i], actions[i], t);
  }

  lemma {:induction false} DescentEnds(ms: seq<nat>)
    requires |ms| >= 1 && forall i :: 0 <= i < |ms| - 1 ==> ms[i + 1] < ms[i]
    ensures |ms| - 1 <= ms[0]
  {
    if |ms| > 1 {
      assert ms[1..][0] == ms[0 + 1] < ms[0];
      forall i | 0 <= i < |ms[1..]| - 1 ensures ms[1..][i + 1] < ms[1..][i] { assert ms[i + 1 + 1] < ms[i + 1]; }
      DescentEnds(ms[1..]);
    }
  }

  ghost predicate OthersCanStep(s: State, t: Tid) {
    exists a: Action :: Enabled(s, a) && !Begins(a) && a.tid != t
  }

  /** The radio comes free: from a reachable state in which t is the newest Open and waits, any course of
      the others' steps is bounded, and where none of them can step any more the permit is t's to take. */
  lemma RadioComesFree(states: seq<State>, actions: seq<Action>, j: nat, t: Tid)
    requires IsRun(states, actions) && j < |states| && Kept(states[j..], t)
    requires forall i :: j <= i < |actions| ==> !Begins(actions[i]) && actions[i].tid != t
    ensures |actions| - j <= Total(states[j].ops - {t})
    ensures var s := states[|actions|]; !OthersCanStep(s, t) ==> Enabled(s, Acquire(t))
  {
    PermitIsConserved(states, actions, j);
    SuffixIsPath(states, actions, j);
    WaitIsBounded(states[j..], actions[j..], t);
    var s := states[|actions|];
    assert s == states[j..][|actions| - j];
    QuietBeforeRegister(states, actions, |actions|, t);
    if s.slot {
      var a: Action :| a.tid in s.ops && PcHolds(s.ops[a.tid].pc) && a.tid != t && Enabled(s, a);
      assert OthersCanStep(s, t);
    }
  }

  lemma SuffixIsPath(states: seq<State>, actions: seq<Action>, j: nat)
    requires IsPath(states, actions) && j < |states|
    ensures IsPath(states[j..], actions[j..])
  {
    forall i | 0 <= i < |actions[j..]|
      ensures Enabled(states[j..][i], actions[j..][i]) && states[j..][i + 1] == Apply(states[j..][i], actions[j..][i])
    {
      assert states[j..][i] == states[j + i] && actions[j..][i] == actions[j + i] && states[j..][i + 1] == states[j + i + 1];
    }
  }

  // ----- removing a token -----

  /** No Open of this owner numbered n or below can register any more. */
  ghost predicate Barred(s: State, owner: int, n: nat) {
    && n <= s.table.openSeq
    && forall t :: Newest(s, t) && s.ops[t].role.owner == owner ==> s.ops[t].role.number > n
  }

  ghost predicate Gone(s: State, owner: int, n: nat, but: seq<SessionId>) {
    forall id :: id in s.table.sessions && s.table.sessions[id].owner == owner && s.table.sessions[id].number <= n
      ==> id in but
  }

  lemma BarredStays(s: State, a: Action, owner: int, n: nat)
    requires OpensOrdered(s) && Enabled(s, a) && Barred(s, owner, n)
    ensures Barred(Apply(s, a), owner, n)
  {
    var s' := Apply(s, a);
    forall t | Newest(s', t) && s'.ops[t].role.owner == owner ensures s'.ops[t].role.number > n {
      if t != a.tid { OthersKept(s, a, t); }
    }
  }

  /** The removal by operation t is under way, or over: what it promised so far. */
  ghost predicate RemovalGood(s: State, t: Tid, owner: int, n: nat) {
    && Barred(s, owner, n)
    && (|| Gone(s, owner, n, [])
        || (&& t in s.ops && s.ops[t].role == Remover(owner)
            && (s.ops[t].pc.Closing? || s.ops[t].pc.Releasing?)
            && Gone(s, owner, n, s.ops[t].pc.ids)))
  }

  lemma RemovalStarts(s: State, a: Action)
    requires Inv(s) && Enabled(s, a) && a.TakeSnapshot? && s.ops[a.tid].role.Remover?
    ensures RemovalGood(Apply(s, a), a.tid, s.ops[a.tid].role.owner, s.table.openSeq)
  {
    var s' := Apply(s, a);
    forall t | Newest(s', t) && s'.ops[t].role.owner == s.ops[a.tid].role.owner ensures s'.ops[t].role.number > s.table.openSeq {
      OthersKept(s, a, t);
    }
  }

  lemma RemovalGoesOn(s: State, a: Action, t: Tid, owner: int, n: nat)
    requires Inv(s) && Enabled(s, a) && RemovalGood(s, t, owner, n)
    ensures RemovalGood(Apply(s, a), t, owner, n)
  {
    BarredStays(s, a, owner, n);
    var s' := Apply(s, a);
    forall id | id in s'.table.sessions && s'.table.sessions[id].owner == owner && s'.table.sessions[id].number <= n
      ensures id in s.table.sessions && s.table.sessions[id] == s'.table.sessions[id]
    {
      StepSessions(s, a, id);
      if a.Register? && id == a.id { assert Newest(s, a.tid); }
    }
    if t != a.tid && t in s'.ops { OthersKept(s, a, t); }
  }

  /** Token removal is complete.  Let operation t run CloseForToken's locked section at step i,
      and have returned by step j.  Then from j on, no session of an Open that the owner began
      before step i is registered: not one that was registered, superseded, still waiting,
      holding the radio, or registered and not yet through endOpen. */
  lemma {:induction false} RemovalIsComplete(states: seq<State>, actions: seq<Action>, i: nat, j: nat, k: nat, id: SessionId)
    requires IsRun(states, actions) && i < j <= k < |states|
    requires actions[i].TakeSnapshot? && states[i].ops[actions[i].tid].role.Remover?
    requires actions[i].tid !in states[j].ops
    requires id in states[k].table.sessions
    ensures var session := states[k].table.sessions[id];
      session.owner == states[i].ops[actions[i].tid].role.owner ==> session.number > states[i].table.openSeq
  {
    var t, owner, n := actions[i].tid, states[i].ops[actions[i].tid].role.owner, states[i].table.openSeq;
    RemovalGoodAt(states, actions, i, j);
    assert Gone(states[j], owner, n, []);
    GoneStays(states, actions, j, k, owner, n);
  }

  lemma {:induction false} RemovalGoodAt(states: seq<State>, actions: seq<Action>, i: nat, j: nat)
    requires IsRun(states, actions) && i < j < |states|
    requires actions[i].TakeSnapshot? && states[i].ops[actions[i].tid].role.Remover?
    ensures RemovalGood(states[j], actions[i].tid, states[i].ops[actions[i].tid].role.owner, states[i].table.openSeq)
  {
    PermitIsConserved(states, actions, j - 1);
    if j == i + 1 {
      RemovalStarts(states[i], actions[i]);
    } else {
      RemovalGoodAt(states, actions, i, j - 1);
      RemovalGoesOn(states[j - 1], actions[j - 1], actions[i].tid, states[i].ops[actions[i].tid].role.owner, states[i].table.openSeq);
    }
  }

  lemma {:induction false} GoneStays(states: seq<State>, actions: seq<Action>, j: nat, k: nat, owner: int, n: nat)
    requires IsRun(states, actions) && j <= k < |states|
    requires Barred(states[j], owner, n) && Gone(states[j], owner, n, [])
    ensures Barred(states[k], owner, n) && Gone(states[k], owner, n, [])
  {
    if j < k {
      GoneStays(states, actions, j, k - 1, owner, n);
      PermitIsConserved(states, actions, k - 1);
      var s, a := states[k - 1], actions[k - 1];
      BarredStays(s, a, owner, n);
      forall id | id in states[k].table.sessions ensures states[k].table.sessions[id].owner == owner ==> states[k].table.sessions[id].number > n {
        StepSessions(s, a, id);
        if a.Register? && id == a.id { assert Newest(s, a.tid); }
      }
    }
  }
}
