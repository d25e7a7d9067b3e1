/** What an operation on the radio achieves when it is let: the newest Open preempts, connects and
    registers, by its own steps alone; a superseded one can only back out. */
module Opening {
  import opened Radio

  /** The actions, one after another, lead from s to u. */
  ghost predicate Leads(s: State, actions: seq<Action>, u: State)
    decreases |actions|
  {
    if actions == [] then s == u
    else Enabled(s, actions[0]) && Leads(Apply(s, actions[0]), actions[1..], u)
  }

  ghost predicate Own(actions: seq<Action>, t: Tid) { forall i :: 0 <= i < |actions| ==> !Begins(actions[i]) && actions[i].tid == t }

  lemma {:induction false} LeadsOn(s: State, first: seq<Action>, u: State, second: seq<Action>, v: State)
    requires Leads(s, first, u) && Leads(u, second, v)
    ensures Leads(s, first + second, v)
    decreases |first|
  {
    if first == [] {
      assert first + second == second;
    } else {
      LeadsOn(Apply(s, first[0]), first[1..], u, second, v);
      assert (first + second)[1..] == first[1..] + second;
    }
  }

  lemma LeadsOne(s: State, a: Action)
    requires Enabled(s, a)
    ensures Leads(s, [a], Apply(s, a))
  {
    assert [a][1..] == [];
  }

  lemma LeadsFirst(s: State, a: Action, rest: seq<Action>, u: State)
    requires Enabled(s, a) && Leads(Apply(s, a), rest, u)
    ensures Leads(s, [a] + rest, u)
  {
    assert ([a] + rest)[1..] == rest;
  }

  // ----- from the free radio to the registered session -----

  /** The session is registered, its reaper started, and nothing else changed but t's own place. */
  ghost predicate RegisteredBy(s: State, u: State, t: Tid, id: SessionId, reaper: Tid)
    requires t in s.ops && s.ops[t].role.Opener?
  {
    var r := s.ops[t].role;
    && u.table == Table(map[id := Session(r.number, r.owner)], s.table.openSeq, s.table.pending)
    && u.slot && !u.panicked
    && u.ops == s.ops[t := Op(r, Ending)][reaper := Op(Reaper, Closing([id]))]
  }

  /** From every state in which t is the newest Open, waits, and the radio is free, Acquire, ConnectOk and
      Register are each enabled in turn, for every id and every fresh reaper, and register the session. */
  lemma FreeRadioIsTaken(s: State, t: Tid, id: SessionId, reaper: Tid)
    requires Inv(s) && Newest(s, t) && s.ops[t].pc.Waiting? && !s.slot && reaper !in s.ops
    ensures var s1 := s.(slot := true, ops := s.ops[t := Op(s.ops[t].role, Connecting)]);
      var s2 := s1.(ops := s.ops[t := Op(s.ops[t].role, Connected)]);
      && Enabled(s, Acquire(t)) && Apply(s, Acquire(t)) == s1
      && Enabled(s1, ConnectOk(t)) && Apply(s1, ConnectOk(t)) == s2
      && Enabled(s2, Register(t, id, reaper)) && RegisteredBy(s, Apply(s2, Register(t, id, reaper)), t, id, reaper)
  {
    var s1 := s.(slot := true, ops := s.ops[t := Op(s.ops[t].role, Connecting)]);
    var s2 := s1.(ops := s.ops[t := Op(s.ops[t].role, Connected)]);
    assert s1.ops[t := Op(s.ops[t].role, Connected)] == s2.ops;
    assert s.table.sessions == map[];
  }

  /** The radio is t's or nobody's, so far as running operations go. */
  ghost predicate Alone(s: State, t: Tid) { forall u :: u in s.ops && u != t ==> !PcHolds(s.ops[u].pc) }

  lemma WaitingIsFree(s: State, t: Tid)
    requires Inv(s) && Newest(s, t) && s.ops[t].pc.Waiting? && Alone(s, t)
    ensures !s.slot
  {
    forall h ensures !Holds(s, h) {}
  }

  // ----- preempting first -----

  /** One session closed: deleted and its permit given back, by t's next two steps; or, if it is gone, one. */
  function AfterClosing(s: State, t: Tid): State
    requires t in s.ops && s.ops[t].pc.Closing? && s.ops[t].pc.ids != []
  {
    var ids := s.ops[t].pc.ids;
    var closed := s.(ops := s.ops[t := Op(s.ops[t].role, Closing(ids[1..]))]);
    if ids[0] in s.table.sessions then closed.(table := Deleted(s.table, ids[0]), slot := false) else closed
  }

  lemma CloseOne(s: State, t: Tid) returns (actions: seq<Action>)
    requires Inv(s) && t in s.ops && s.ops[t].pc.Closing? && s.ops[t].pc.ids != []
    ensures Own(actions, t) && Leads(s, actions, AfterClosing(s, t))
  {
    var ids := s.ops[t].pc.ids;
    var s1 := Apply(s, CloseNext(t));
    LeadsOne(s, CloseNext(t));
    actions := [CloseNext(t)];
    if ids[0] in s.table.sessions {
      assert Holds(s, Live(ids[0])) && s.slot;
      LeadsOne(s1, Release(t));
      LeadsOn(s, actions, s1, [Release(t)], Apply(s1, Release(t)));
      actions := actions + [Release(t)];
      assert s1.ops[t := Op(s.ops[t].role, Closing(ids[1..]))] == s.ops[t := Op(s.ops[t].role, Closing(ids[1..]))];
    }
  }

  /** t is the newest Open and nobody else holds the radio. */
  ghost predicate Mine(s: State, t: Tid) { Inv(s) && Newest(s, t) && Alone(s, t) }

  /** s differs from where t began only in t's place and in what was preempted. */
  ghost predicate SameButPreempted(s: State, u: State, t: Tid) {
    t in u.ops && t in s.ops && u.ops[t].role == s.ops[t].role && u.ops - {t} == s.ops - {t}
    && u.table.openSeq == s.table.openSeq && u.table.pending == s.table.pending
  }

  lemma ClosedKeepsInv(s: State, t: Tid)
    requires Inv(s) && t in s.ops && s.ops[t].pc.Closing? && s.ops[t].pc.ids != []
    ensures Inv(AfterClosing(s, t))
  {
    var s1 := Apply(s, CloseNext(t));
    KeepsInv(s, CloseNext(t));
    if s.ops[t].pc.ids[0] in s.table.sessions {
      assert Holds(s, Live(s.ops[t].pc.ids[0])) && s.slot;
      KeepsInv(s1, Release(t));
      assert Apply(s1, Release(t)).ops == AfterClosing(s, t).ops;
      assert Apply(s1, Release(t)) == AfterClosing(s, t);
    }
  }

  lemma ClosedStaysMine(s: State, t: Tid)
    requires Mine(s, t) && s.ops[t].pc.Closing? && s.ops[t].pc.ids != []
    ensures Mine(AfterClosing(s, t), t) && SameButPreempted(s, AfterClosing(s, t), t)
  {
    ClosedKeepsInv(s, t);
  }

  lemma {:induction false} PreemptsAll(s: State, t: Tid) returns (actions: seq<Action>, u: State)
    requires Mine(s, t) && s.ops[t].pc.Closing?
    ensures Own(actions, t) && Leads(s, actions, u) && SameButPreempted(s, u, t)
    ensures Mine(u, t) && u.ops[t].pc == Waiting
    decreases |s.ops[t].pc.ids|
  {
    if s.ops[t].pc.ids == [] {
      u := Apply(s, Finish(t));
      KeepsInv(s, Finish(t));
      LeadsOne(s, Finish(t));
      actions := [Finish(t)];
    } else {
      var mid := AfterClosing(s, t);
      var first := CloseOne(s, t);
      ClosedStaysMine(s, t);
      var rest;
      rest, u := PreemptsAll(mid, t);
      LeadsOn(s, first, mid, rest, u);
      actions := first + rest;
    }
  }

  /** An enumeration of what is registered always exists. */
  lemma {:induction false} CanEnumerate(keys: set<SessionId>) returns (ids: seq<SessionId>)
    ensures (forall id :: id in ids <==> id in keys) && |ids| == |keys|
  {
    if keys == {} {
      ids := [];
    } else {
      var id :| id in keys;
      var rest := CanEnumerate(keys - {id});
      ids := [id] + rest;
    }
  }

  lemma SnapshotsAll(s: State, t: Tid) returns (a: Action)
    requires Mine(s, t) && s.ops[t].pc.Snapshot?
    ensures a.TakeSnapshot? && a.tid == t && Enabled(s, a)
    ensures var u := Apply(s, a); Mine(u, t) && u.ops[t].pc.Closing? && SameButPreempted(s, u, t)
  {
    var ids := CanEnumerate(s.table.sessions.Keys);
    assert |s.table.sessions.Keys| == |s.table.sessions|;
    a := TakeSnapshot(t, ids);
    KeepsInv(s, a);
  }

  lemma PreemptsFirst(s: State, t: Tid) returns (actions: seq<Action>, u: State)
    requires Mine(s, t) && s.ops[t].pc.Snapshot?
    ensures Own(actions, t) && Leads(s, actions, u) && SameButPreempted(s, u, t)
    ensures Mine(u, t) && u.ops[t].pc == Waiting && !u.slot
  {
    var snap := SnapshotsAll(s, t);
    var closing;
    closing, u := PreemptsAll(Apply(s, snap), t);
    LeadsFirst(s, snap, closing, u);
    actions := [snap] + closing;
    WaitingIsFree(u, t);
  }

  lemma BeginsNewest(s: State, t: Tid, owner: int)
    requires Inv(s) && t !in s.ops && Alone(s, t)
    ensures Enabled(s, BeginOpen(t, owner))
    ensures var u := Apply(s, BeginOpen(t, owner));
      && Mine(u, t) && u.ops[t] == Op(Opener(s.table.openSeq + 1, owner, false), Snapshot)
      && u.ops.Keys == s.ops.Keys + {t}
  {
    KeepsInv(s, BeginOpen(t, owner));
  }

  /** An Open succeeds: begun in any reachable state in which nobody is holding the radio but perhaps a
      session, its own steps preempt that session, take the radio, connect, and register the new session
      under any id and for its owner. */
  lemma OpenSucceeds(states: seq<State>, past: seq<Action>, i: nat, t: Tid, owner: int, id: SessionId, reaper: Tid)
    returns (actions: seq<Action>, u: State)
    requires IsRun(states, past) && i < |states| && t !in states[i].ops && Alone(states[i], t)
    requires reaper !in states[i].ops && reaper != t
    ensures Own(actions, t) && Leads(states[i], [BeginOpen(t, owner)] + actions, u)
    ensures Holding(u, Opener(states[i].table.openSeq + 1, owner, false), id, reaper)
  {
    var s := states[i];
    PermitIsConserved(states, past, i);
    BeginsNewest(s, t, owner);
    actions, u := OpenFrom(Apply(s, BeginOpen(t, owner)), t, id, reaper);
    LeadsFirst(s, BeginOpen(t, owner), actions, u);
  }

  /** Exactly this Open's session is registered, the radio is taken, and a reaper watches it. */
  ghost predicate Holding(u: State, r: Role, id: SessionId, reaper: Tid)
    requires r.Opener?
  {
    && u.table.sessions == map[id := Session(r.number, r.owner)] && u.table.openSeq == r.number
    && u.slot && !u.panicked && reaper in u.ops && u.ops[reaper] == Op(Reaper, Closing([id]))
  }

  lemma OpenFrom(s: State, t: Tid, id: SessionId, reaper: Tid) returns (actions: seq<Action>, u: State)
    requires Mine(s, t) && s.ops[t].pc.Snapshot? && reaper !in s.ops
    ensures Own(actions, t) && Leads(s, actions, u) && Holding(u, s.ops[t].role, id, reaper)
  {
    var first, mid := PreemptsFirst(s, t);
    StillFresh(s, mid, t, reaper);
    var taking;
    taking, u := TakesRadio(mid, t, id, reaper);
    actions := first + taking;
    LeadsOn(s, first, mid, taking, u);
  }

  lemma StillFresh(s: State, u: State, t: Tid, reaper: Tid)
    requires SameButPreempted(s, u, t) && reaper !in s.ops
    ensures reaper !in u.ops
  {
    assert reaper !in u.ops - {t};
  }

  /** The three steps of FreeRadioIsTaken as a path. */
  lemma TakesRadio(s: State, t: Tid, id: SessionId, reaper: Tid) returns (actions: seq<Action>, u: State)
    requires Inv(s) && Newest(s, t) && s.ops[t].pc.Waiting? && !s.slot && reaper !in s.ops
    ensures Own(actions, t) && Leads(s, actions, u) && RegisteredBy(s, u, t, id, reaper)
  {
    FreeRadioIsTaken(s, t, id, reaper);
    var s1 := Apply(s, Acquire(t));
    var s2 := Apply(s1, ConnectOk(t));
    u := Apply(s2, Register(t, id, reaper));
    LeadsOne(s2, Register(t, id, reaper));
    LeadsFirst(s1, ConnectOk(t), [Register(t, id, reaper)], u);
    LeadsFirst(s, Acquire(t), [ConnectOk(t)] + [Register(t, id, reaper)], u);
    actions := [Acquire(t)] + ([ConnectOk(t)] + [Register(t, id, reaper)]);
  }

  /** A registered Open that ends leaves its session and is no longer pending. */
  lemma EndForgetsOpen(s: State, t: Tid)
    requires Inv(s) && Newest(s, t) && s.ops[t].pc.Ending?
    ensures Enabled(s, Finish(t))
    ensures Apply(s, Finish(t)) == s.(table := s.table.(pending := Idle), ops := s.ops - {t})
  {}

  // ----- a superseded Open -----

  /** A connected Open with a newer one ahead of it can only back out, and then only give the radio back. */
  lemma SupersededBacksOut(s: State, a: Action, t: Tid)
    requires t in s.ops && s.ops[t].role.Opener? && s.ops[t].role.number < s.table.openSeq
    requires Enabled(s, a) && a.tid == t && (s.ops[t].pc.Connected? || s.ops[t].pc.BackingOut?)
    ensures s.ops[t].pc.Connected? ==> a == Refuse(t) && Apply(s, a) == s.(ops := s.ops[t := Op(s.ops[t].role, BackingOut)])
    ensures s.ops[t].pc.BackingOut? && s.slot ==>
      a == Release(t) && Apply(s, a) == s.(slot := false, ops := s.ops[t := Op(s.ops[t].role, Ending)])
  {}

  // ----- closing, removing, enrolling -----

  function Without(sessions: map<SessionId, Session>, ids: seq<SessionId>): map<SessionId, Session> {
    map id | id in sessions && id !in ids :: sessions[id]
  }

  /** A closer that is not an Open closes every session on its list, gives the radio back if one of them
      was registered, and is done. */
  lemma {:induction false} ClosesAll(s: State, t: Tid) returns (actions: seq<Action>, u: State)
    requires Inv(s) && t in s.ops && !s.ops[t].role.Opener? && s.ops[t].pc.Closing?
    ensures Own(actions, t) && Leads(s, actions, u)
    ensures u.ops == s.ops - {t} && u.table == s.table.(sessions := Without(s.table.sessions, s.ops[t].pc.ids))
    ensures u.slot == (s.slot && u.table.sessions == s.table.sessions)
    decreases |s.ops[t].pc.ids|
  {
    var ids := s.ops[t].pc.ids;
    if ids == [] {
      LeadsOne(s, Finish(t));
      actions, u := [Finish(t)], Apply(s, Finish(t));
      assert Without(s.table.sessions, ids) == s.table.sessions;
    } else {
      var mid := AfterClosing(s, t);
      var first := CloseOne(s, t);
      ClosedKeepsInv(s, t);
      var rest;
      rest, u := ClosesAll(mid, t);
      LeadsOn(s, first, mid, rest, u);
      actions := first + rest;
      ClosedRest(s, t);
    }
  }

  lemma ClosedRest(s: State, t: Tid)
    requires Inv(s) && t in s.ops && s.ops[t].pc.Closing? && s.ops[t].pc.ids != []
    ensures var mid, ids := AfterClosing(s, t), s.ops[t].pc.ids;
      && Without(mid.table.sessions, ids[1..]) == Without(s.table.sessions, ids) && mid.ops - {t} == s.ops - {t}
      && (Without(mid.table.sessions, ids[1..]) == s.table.sessions <==> ids[0] !in s.table.sessions && Without(mid.table.sessions, ids[1..]) == mid.table.sessions)
  {
    var mid, ids := AfterClosing(s, t), s.ops[t].pc.ids;
    assert ids == [ids[0]] + ids[1..];
    if ids[0] in s.table.sessions { assert ids[0] !in Without(s.table.sessions, ids); }
  }

  /** Close(id) removes that session and frees its radio, or does nothing if there is none. */
  lemma CloseCloses(states: seq<State>, past: seq<Action>, i: nat, t: Tid, id: SessionId) returns (actions: seq<Action>, u: State)
    requires IsRun(states, past) && i < |states| && t !in states[i].ops
    ensures Own(actions, t) && Leads(states[i], [BeginClose(t, id)] + actions, u)
    ensures var s := states[i];
      && u.ops == s.ops && u.table == s.table.(sessions := s.table.sessions - {id})
      && u.slot == (s.slot && id !in s.table.sessions)
  {
    var s := states[i];
    PermitIsConserved(states, past, i);
    KeepsInv(s, BeginClose(t, id));
    var s1 := Apply(s, BeginClose(t, id));
    actions, u := ClosesAll(s1, t);
    LeadsFirst(s, BeginClose(t, id), actions, u);
    assert s1.ops - {t} == s.ops;
    assert Without(s.table.sessions, [id]) == s.table.sessions - {id};
  }

  lemma {:induction false} CanEnumerateOwned(tb: Table, owner: int, keys: set<SessionId>) returns (ids: seq<SessionId>)
    requires keys <= tb.sessions.Keys
    ensures (forall id :: id in ids <==> id in keys && tb.sessions[id].owner == owner) && |ids| <= |keys|
  {
    if keys == {} {
      ids := [];
    } else {
      var id :| id in keys;
      ids := CanEnumerateOwned(tb, owner, keys - {id});
      if tb.sessions[id].owner == owner { ids := [id] + ids; }
    }
  }

  function OthersOf(sessions: map<SessionId, Session>, owner: int): map<SessionId, Session> {
    map id | id in sessions && sessions[id].owner != owner :: sessions[id]
  }

  /** Everything the owner had is gone, and nothing else. */
  ghost predicate Removed(s: State, u: State, owner: int) {
    && u.table == TokenRemoved(s.table, owner).(sessions := OthersOf(s.table.sessions, owner)) && u.ops.Keys == s.ops.Keys
    && (OwnsPending(s.table, owner) ==> CancelledOpen(u, s.table.pending.tid))
  }

  predicate CancelledOpen(u: State, p: Tid) { p in u.ops && u.ops[p].role.Opener? && u.ops[p].role.cancelled }

  /** CloseForToken ends its owner's pending Open and closes exactly its owner's sessions. */
  lemma RemovalRemoves(states: seq<State>, past: seq<Action>, i: nat, t: Tid, owner: int) returns (actions: seq<Action>, u: State)
    requires IsRun(states, past) && i < |states| && t !in states[i].ops && owner != 0
    ensures Own(actions, t) && Leads(states[i], [BeginRemove(t, owner)] + actions, u) && Removed(states[i], u, owner)
  {
    PermitIsConserved(states, past, i);
    actions, u := RemovalFrom(states[i], t, owner);
  }

  lemma RemovalFrom(s: State, t: Tid, owner: int) returns (actions: seq<Action>, u: State)
    requires Inv(s) && t !in s.ops && owner != 0
    ensures Own(actions, t) && Leads(s, [BeginRemove(t, owner)] + actions, u) && Removed(s, u, owner)
  {
    KeepsInv(s, BeginRemove(t, owner));
    var s1 := Apply(s, BeginRemove(t, owner));
    var ids := CanEnumerateOwned(s.table, owner, s.table.sessions.Keys);
    assert |s.table.sessions.Keys| == |s.table.sessions|;
    RemovalSnapshot(s, s1, t, owner, ids);
    KeepsInv(s1, TakeSnapshot(t, ids));
    var s2 := Apply(s1, TakeSnapshot(t, ids));
    var rest;
    rest, u := ClosesAll(s2, t);
    RemovedAll(s, s2, u, t, owner, ids);
    LeadsFirst(s1, TakeSnapshot(t, ids), rest, u);
    actions := [TakeSnapshot(t, ids)] + rest;
    LeadsFirst(s, BeginRemove(t, owner), actions, u);
  }

  lemma RemovedAll(s: State, s2: State, u: State, t: Tid, owner: int, ids: seq<SessionId>)
    requires t !in s.ops && s2.table == TokenRemoved(s.table, owner) && s2.ops.Keys == s.ops.Keys + {t}
    requires forall id :: id in ids <==> id in s.table.sessions && s.table.sessions[id].owner == owner
    requires OwnsPending(s.table, owner) ==> s.table.pending.tid != t && CancelledOpen(s2, s.table.pending.tid)
    requires u.ops == s2.ops - {t} && u.table == s2.table.(sessions := Without(s2.table.sessions, ids))
    ensures Removed(s, u, owner)
  {
    assert Without(s.table.sessions, ids) == OthersOf(s.table.sessions, owner);
  }

  lemma RemovalSnapshot(s: State, s1: State, t: Tid, owner: int, ids: seq<SessionId>)
    requires Inv(s) && t !in s.ops && owner != 0 && s1 == Apply(s, BeginRemove(t, owner))
    requires (forall id :: id in ids <==> id in s.table.sessions && s.table.sessions[id].owner == owner) && |ids| <= |s.table.sessions|
    ensures Enabled(s1, TakeSnapshot(t, ids))
    ensures var s2 := Apply(s1, TakeSnapshot(t, ids));
      && t in s2.ops && s2.ops[t] == Op(Remover(owner), Closing(ids)) && s2.table == TokenRemoved(s.table, owner)
      && s2.ops.Keys == s.ops.Keys + {t}
      && (OwnsPending(s.table, owner) ==> s.table.pending.tid != t && CancelledOpen(s2, s.table.pending.tid))
  {}

  function Enrolling(s: State, t: Tid, pc: Pc, slot: bool): State {
    s.(slot := slot, ops := s.ops[t := Op(Enrolment, pc)])
  }

  lemma EnrolmentMoves(s: State, t: Tid, a: Action, pc: Pc, slot: bool, next: Pc, after: bool)
    requires a.tid == t && (a.Acquire? || a.ConnectFails? || a.Release?)
    requires a.Acquire? ==> pc == Waiting && !slot && next == Connecting && after
    requires a.ConnectFails? ==> pc == Connecting && next == BackingOut && after == slot
    requires a.Release? ==> pc == BackingOut && slot && next == Ending && !after
    ensures Enabled(Enrolling(s, t, pc, slot), a) && Apply(Enrolling(s, t, pc, slot), a) == Enrolling(s, t, next, after)
  {
    assert s.ops[t := Op(Enrolment, pc)][t := Op(Enrolment, next)] == s.ops[t := Op(Enrolment, next)];
  }

  lemma EnrolmentEnds(s: State, t: Tid)
    requires t !in s.ops && !s.slot
    ensures Enabled(Enrolling(s, t, Ending, false), Finish(t)) && Apply(Enrolling(s, t, Ending, false), Finish(t)) == s
  {
    assert s.ops[t := Op(Enrolment, Ending)] - {t} == s.ops;
  }

  /** Key enrolment takes the free radio, has it while it talks to the car, and gives it back. */
  lemma EnrolmentHoldsRadio(s: State, t: Tid)
    requires t !in s.ops && !s.slot
    ensures Enabled(s, BeginEnrol(t))
    ensures var waiting, talking := Apply(s, BeginEnrol(t)), Enrolling(s, t, Connecting, true);
      && Leads(waiting, [Acquire(t)], talking)
      && Leads(talking, [ConnectFails(t)] + ([Release(t)] + [Finish(t)]), s)
  {
    EnrolmentMoves(s, t, Acquire(t), Waiting, false, Connecting, true);
    EnrolmentMoves(s, t, ConnectFails(t), Connecting, true, BackingOut, true);
    EnrolmentMoves(s, t, Release(t), BackingOut, true, Ending, false);
    EnrolmentEnds(s, t);
    assert Apply(s, BeginEnrol(t)) == Enrolling(s, t, Waiting, false);
    LeadsOne(Enrolling(s, t, Waiting, false), Acquire(t));
    LeadsOne(Enrolling(s, t, Ending, false), Finish(t));
    LeadsFirst(Enrolling(s, t, BackingOut, true), Release(t), [Finish(t)], s);
    LeadsFirst(Enrolling(s, t, Connecting, true), ConnectFails(t), [Release(t)] + [Finish(t)], s);
  }
}
