/** What reaches whom: the frames a subscriber and an Exchange get, stated on their channels. */
module Delivery {
  import opened Bytes
  import opened Correlators
  import opened Pump

  // ----- the fan-out -----

  ghost predicate Unwanted(s: State, k: Key) { forall w :: w in s.sh.waiters ==> !Wants(w.want, k) }

  /** The channel with one more frame in it, if fewer than eight are unread. */
  function WithFrame(c: Chan, f: Frame): Chan {
    if |c.buf| < 8 then c.(buf := c.buf + [f], sent := c.sent + [f]) else c
  }

  lemma FanOutStep(s: State, f: Frame)
    requires Inv(s) && Possible(s, Read(f)) && Unwanted(s, f.key)
    ensures var t := After(s, Read(f));
      && t.sh.events.Keys == s.sh.events.Keys
      && (forall k :: k in s.sh.events ==> t.sh.events[k] == if k in s.sh.subs then WithFrame(s.sh.events[k], f) else s.sh.events[k])
      && t.sh.deliver == s.sh.deliver && t.sh.waiters == s.sh.waiters && t.sh.subs == s.sh.subs && t.pump == s.pump
  {
    assert FirstMatch(s.sh.waiters, f) == |s.sh.waiters|;
    forall k | k in s.sh.events ensures EventChanOk(s, k, s.sh.events[k]) {}
  }

  /** In every run, a frame that no registered waiter wants goes to every live subscriber with fewer than
      eight unread frames, and to nobody else; a subscriber with eight misses it. */
  lemma FanOutReaches(states: seq<State>, actions: seq<Action>, i: nat, key: Key)
    requires IsRun(states, actions) && i < |actions| && actions[i].Receive?
    requires ReplyKey64(actions[i].bytes) == Value(key) && Unwanted(states[i], key)
    ensures var s, t, f := states[i], states[i + 1], Frame(|states[i].routes|, actions[i].bytes, key);
      && t.sh.events.Keys == s.sh.events.Keys && t.sh.deliver == s.sh.deliver
      && forall k :: k in s.sh.events ==>
           if k in s.sh.subs && |s.sh.events[k].buf| < 8
           then t.sh.events[k].buf == s.sh.events[k].buf + [f] && t.sh.events[k].sent == s.sh.events[k].sent + [f]
           else t.sh.events[k] == s.sh.events[k]
  {
    RunKeepsInv(states, actions, i);
    FanOutStep(states[i], Frame(|states[i].routes|, actions[i].bytes, key));
  }

  // ----- what a subscriber takes, over a run -----

  /** The frame that step brings to subscriber k. */
  ghost function Brought(s: State, a: Step, k: nat): seq<Frame> {
    if a.Read? && Unwanted(s, a.frame.key) && k in s.sh.subs && k in s.sh.events && |s.sh.events[k].buf| < 8 then [a.frame] else []
  }

  function TakenNow(s: State, a: Step, k: nat): seq<Frame> {
    if a == TakeEvent(k) && k in s.sh.events && s.sh.events[k].buf != [] then [s.sh.events[k].buf[0]] else []
  }

  /** The fanned-out frames subscriber k had room for, and those it has taken, in the first i steps. */
  ghost function HadRoomFor(states: seq<State>, actions: seq<Action>, i: nat, k: nat): seq<Frame>
    requires i <= |actions| && i <= |states|
  {
    if i == 0 then [] else HadRoomFor(states, actions, i - 1, k) + Brought(states[i - 1], StepOf(states[i - 1], actions[i - 1]), k)
  }

  function TakenSoFar(states: seq<State>, actions: seq<Action>, i: nat, k: nat): seq<Frame>
    requires i <= |actions| && i <= |states|
  {
    if i == 0 then [] else TakenSoFar(states, actions, i - 1, k) + TakenNow(states[i - 1], StepOf(states[i - 1], actions[i - 1]), k)
  }

  function Unread(s: State, k: nat): seq<Frame> { if k in s.sh.events then s.sh.events[k].buf else [] }

  /** Of every step: what it takes and what is then unread is what was unread and what it brings. */
  lemma StepBalances(s: State, a: Step, k: nat)
    requires Inv(s) && Possible(s, a)
    ensures TakenNow(s, a, k) + Unread(After(s, a), k) == Unread(s, k) + Brought(s, a, k)
  {
    if a.Read? {
      if Unwanted(s, a.frame.key) {
        FanOutStep(s, a.frame);
      } else {
        assert FirstMatch(s.sh.waiters, a.frame) < |s.sh.waiters|;
      }
    } else if a == TakeEvent(k) {
      var buf := s.sh.events[k].buf;
      assert [buf[0]] + buf[1..] == buf;
    } else {
      QuietStep(s, a, k);
    }
  }

  lemma QuietStep(s: State, a: Step, k: nat)
    requires Inv(s) && Possible(s, a) && !a.Read? && a != TakeEvent(k)
    ensures Unread(After(s, a), k) == Unread(s, k)
  {}

  /** What a subscriber has taken, and then what it has not read yet, are in order the fanned-out frames it
      had room for. */
  lemma {:induction false} SubscriberGetsAll(states: seq<State>, actions: seq<Action>, i: nat, k: nat)
    requires IsRun(states, actions) && i < |states|
    ensures TakenSoFar(states, actions, i, k) + Unread(states[i], k) == HadRoomFor(states, actions, i, k)
  {
    if i > 0 {
      SubscriberGetsAll(states, actions, i - 1, k);
      TurnBalances(states, actions, i - 1, k);
      var s := states[i - 1];
      var a := StepOf(s, actions[i - 1]);
      BalanceAdds(TakenSoFar(states, actions, i - 1, k), Unread(s, k), HadRoomFor(states, actions, i - 1, k),
                  TakenNow(s, a, k), Unread(states[i], k), Brought(s, a, k));
    }
  }

  lemma TurnBalances(states: seq<State>, actions: seq<Action>, i: nat, k: nat)
    requires IsRun(states, actions) && i < |actions|
    ensures var s := states[i]; var a := StepOf(s, actions[i]);
      TakenNow(s, a, k) + Unread(states[i + 1], k) == Unread(s, k) + Brought(s, a, k)
  {
    RunKeepsInv(states, actions, i);
    StepBalances(states[i], StepOf(states[i], actions[i]), k);
  }

  lemma BalanceAdds(taken: seq<Frame>, unread: seq<Frame>, room: seq<Frame>, more: seq<Frame>, left: seq<Frame>, new_: seq<Frame>)
    requires taken + unread == room && more + left == unread + new_
    ensures taken + more + left == room + new_
  {
    assert taken + more + left == taken + (more + left);
    assert taken + (unread + new_) == taken + unread + new_;
  }

  // ----- coming and going -----

  /** A subscription to a live session is open and empty, with room for eight; to a stopped one, closed. */
  lemma SubscribeJoins(s: State)
    requires Inv(s)
    ensures var t, id := After(s, Subscribe), s.sh.subSeq;
      && id !in s.sh.events && t.sh.events == s.sh.events[id := Chan(8, [], [], if s.sh.closed then 1 else 0, false)]
      && t.sh.subs == (if s.sh.closed then s.sh.subs else s.sh.subs + {id})
  {}

  /** Leaving closes one's own channel, once. */
  lemma UnsubscribeLeaves(s: State, id: nat)
    requires Inv(s)
    ensures var t := After(s, Unsubscribe(id));
      && t.sh.subs == s.sh.subs - {id} && t.sh.events.Keys == s.sh.events.Keys
      && (forall k :: k in s.sh.events && k != id ==> t.sh.events[k] == s.sh.events[k])
      && (id in s.sh.events ==> t.sh.events[id] == s.sh.events[id].(closes := 1))
  {
    forall k | k in s.sh.events ensures EventChanOk(s, k, s.sh.events[k]) {}
    if id !in s.sh.subs { assert s.sh.subs - {id} == s.sh.subs; }
  }

  /** An Exchange on a live session waits, last in line, for the key of its payload, on a new channel. */
  lemma ExchangeWaits(s: State, payload: seq<Byte>, want: Key)
    requires Inv(s) && Enabled(s, Exchange(payload)) && RequestKey64(payload) == Value(want) && !s.sh.closed
    ensures var t, id := Apply(s, Exchange(payload)), s.sh.waiterSeq;
      && t.sh.waiters == s.sh.waiters + [Waiter(id, want)] && id !in s.asked && t.asked == s.asked[id := Request(payload, want)]
      && t.sh.deliver == s.sh.deliver[id := Chan(1, [], [], 0, false)]
  {}

  /** One that gives up waits no longer. */
  lemma GivenUpIsGone(s: State, id: nat)
    requires Inv(s) && Possible(s, GiveUp(id))
    ensures var t := After(s, GiveUp(id)); forall w :: w in t.sh.waiters <==> w in s.sh.waiters && w.id != id
  {
    var i := IndexOf(s.sh.waiters, id);
    forall w ensures w in After(s, GiveUp(id)).sh.waiters <==> w in s.sh.waiters && w.id != id {
      if i < |s.sh.waiters| { WithoutMember(s.sh.waiters, i, w); }
    }
  }

  // ----- the reply -----

  /** The frame carries the waiter's address or uuid, or the waiter asked for neither. */
  predicate MeantFor(want: Key, got: Key) {
    if want.addr == [] && want.uuid == [] then true
    else (want.addr != [] && want.addr == got.addr) || (want.uuid != [] && want.uuid == got.uuid)
  }

  /** A waiting Exchange gets its reply: a frame meant for it, and for nobody who has waited longer, is in
      its channel after the pump's next two steps, and every other channel is as it was. */
  lemma ReplyArrives(states: seq<State>, actions: seq<Action>, i: nat, w: Waiter, bytes: seq<Byte>, got: Key)
    requires IsRun(states, actions) && i < |states| && states[i].pump.Reading?
    requires w in states[i].sh.waiters && ReplyKey64(bytes) == Value(got) && MeantFor(w.want, got)
    requires forall v :: v in states[i].sh.waiters && v.id < w.id ==> !MeantFor(v.want, got)
    ensures var s, f := states[i], Frame(|states[i].routes|, bytes, got);
      && Enabled(s, Receive(bytes)) && Enabled(Apply(s, Receive(bytes)), Other(Deliver))
      && var t := Apply(Apply(s, Receive(bytes)), Other(Deliver));
         && t.pump.Reading? && (forall v :: v in t.sh.waiters <==> v in s.sh.waiters && v.id != w.id)
         && w.id in s.sh.deliver && t.sh.deliver == s.sh.deliver[w.id := Chan(1, [f], [f], 0, false)]
         && t.sh.events == s.sh.events
  {
    RunKeepsInv(states, actions, i);
    var s, f := states[i], Frame(|states[i].routes|, bytes, got);
    assert StepOf(s, Receive(bytes)) == Read(f);
    ReplySteps(s, w, f);
  }

  lemma ReplySteps(s: State, w: Waiter, f: Frame)
    requires Inv(s) && Possible(s, Read(f)) && w in s.sh.waiters && MeantFor(w.want, f.key)
    requires forall v :: v in s.sh.waiters && v.id < w.id ==> !MeantFor(v.want, f.key)
    ensures var s1 := After(s, Read(f));
      && !s1.pump.Crashed? && Possible(s1, Deliver)
      && var t := After(s1, Deliver);
         && t.pump.Reading? && (forall v :: v in t.sh.waiters <==> v in s.sh.waiters && v.id != w.id)
         && w.id in s.sh.deliver && t.sh.deliver == s.sh.deliver[w.id := Chan(1, [f], [f], 0, false)]
         && t.sh.events == s.sh.events
  {
    MatchStep(s, w, f);
    assert [] + [f] == [f];
  }

  lemma MatchStep(s: State, w: Waiter, f: Frame)
    requires Inv(s) && Possible(s, Read(f)) && w in s.sh.waiters && MeantFor(w.want, f.key)
    requires forall v :: v in s.sh.waiters && v.id < w.id ==> !MeantFor(v.want, f.key)
    ensures var t := After(s, Read(f));
      && t.pump == Delivering(w, f) && t.sh == s.sh.(waiters := t.sh.waiters)
      && (forall v :: v in t.sh.waiters <==> v in s.sh.waiters && v.id != w.id)
      && w.id in s.sh.deliver && s.sh.deliver[w.id] == NewChan(1)
  {
    FirstIsMeant(s.sh.waiters, w, f);
    var i := FirstMatch(s.sh.waiters, f);
    assert WaiterOk(s, w);
    forall v ensures v in Without(s.sh.waiters, i) <==> v in s.sh.waiters && v.id != w.id { WithoutMember(s.sh.waiters, i, v); }
  }

  lemma FirstIsMeant(ws: seq<Waiter>, w: Waiter, f: Frame)
    requires Ordered(ws) && w in ws && MeantFor(w.want, f.key)
    requires forall v :: v in ws && v.id < w.id ==> !MeantFor(v.want, f.key)
    ensures var i := FirstMatch(ws, f); i < |ws| && ws[i] == w
  {
    var k :| 0 <= k < |ws| && ws[k] == w;
    assert forall i :: 0 <= i < k ==> ws[i] in ws && !MeantFor(ws[i].want, f.key);
  }
}
