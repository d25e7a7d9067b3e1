/** The frame pump of one BLE session: a single reader routes each frame to the oldest matching
    waiter or fans it out to the subscribers, and closes every channel once when it stops.
    Exchanges and subscribers come, receive and give up in any interleaving. */
module Pump {
  import opened Bytes
  import opened Correlators
  import Wire

  /** A frame read off the link; `serial` counts the frames read before it. */
  datatype Frame = Frame(serial: nat, bytes: seq<Byte>, key: Key)

  /** An Exchange's outgoing payload, with the correlators it waits for. */
  datatype Request = Request(payload: seq<Byte>, key: Key)

  /** A Go channel.  `sent` is every value it ever accepted, `closes` how often it was closed,
      `misused` whether it was sent to after closing (both are panics in Go when they go wrong). */
  datatype Chan = Chan(cap: nat, buf: seq<Frame>, sent: seq<Frame>, closes: nat, misused: bool)

  function NewChan(cap: nat): Chan { Chan(cap, [], [], 0, false) }

  /** A non-blocking send: dropped when the buffer is full. */
  function Offered(c: Chan, f: Frame): Chan {
    if c.closes > 0 then c.(misused := true)
    else if |c.buf| < c.cap then c.(buf := c.buf + [f], sent := c.sent + [f])
    else c
  }

  function Closed(c: Chan): Chan { c.(closes := c.closes + 1) }

  function Taken(c: Chan): Chan
    requires c.buf != []
  {
    c.(buf := c.buf[1..])
  }

  datatype Waiter = Waiter(id: nat, want: Key)

  /** What internalSession.mu guards, together with the channels it hands out. */
  datatype Shared = Shared(
    waiters: seq<Waiter>,
    subs: set<nat>,
    deliver: map<nat, Chan>,  // a waiter's channel
    events: map<nat, Chan>,   // a subscriber's channel
    waiterSeq: nat,
    subSeq: nat,
    closed: bool)

  // ----- matching -----

  /** A waiter with no correlator at all takes any frame. */
  predicate Wants(want: Key, got: Key) {
    || (want.addr != [] && got.addr == want.addr)
    || (want.uuid != [] && got.uuid == want.uuid)
    || (want.addr == [] && want.uuid == [])
  }

  /** The index of the first waiter that wants the frame; the number of waiters if none does. */
  function FirstMatch(ws: seq<Waiter>, f: Frame): (i: nat)
    ensures i <= |ws| && (i < |ws| ==> Wants(ws[i].want, f.key))
    ensures forall k :: 0 <= k < i ==> !Wants(ws[k].want, f.key)
  {
    if ws == [] then 0
    else if Wants(ws[0].want, f.key) then 0
    else 1 + FirstMatch(ws[1..], f)
  }

  // ----- the regions run under the mutex -----

  function Without(ws: seq<Waiter>, i: nat): seq<Waiter>
    requires i < |ws|
  {
    ws[..i] + ws[i + 1..]
  }

  function FannedOut(sh: Shared, f: Frame): Shared {
    sh.(events := map k | k in sh.events :: if k in sh.subs then Offered(sh.events[k], f) else sh.events[k])
  }

  function Ids(ws: seq<Waiter>): set<nat> {
    set w | w in ws :: w.id
  }

  function CloseAll(chans: map<nat, Chan>, ids: set<nat>): map<nat, Chan> {
    map k | k in chans :: if k in ids then Closed(chans[k]) else chans[k]
  }

  function ShutDown(sh: Shared): Shared {
    sh.(closed := true, waiters := [], subs := {},
        deliver := CloseAll(sh.deliver, Ids(sh.waiters)),
        events := CloseAll(sh.events, sh.subs))
  }

  function WaiterAdded(sh: Shared, want: Key): Shared {
    if sh.closed then sh else
      sh.(waiters := sh.waiters + [Waiter(sh.waiterSeq, want)],
          deliver := sh.deliver[sh.waiterSeq := NewChan(1)],
          waiterSeq := sh.waiterSeq + 1)
  }

  function IndexOf(ws: seq<Waiter>, id: nat): (i: nat)
    ensures i <= |ws| && (i < |ws| ==> ws[i].id == id)
    ensures forall k :: 0 <= k < i ==> ws[k].id != id
  {
    if ws == [] || ws[0].id == id then 0 else 1 + IndexOf(ws[1..], id)
  }

  function WaiterDropped(sh: Shared, id: nat): Shared {
    var i := IndexOf(sh.waiters, id);
    if i < |sh.waiters| then sh.(waiters := Without(sh.waiters, i)) else sh
  }

  function SubAdded(sh: Shared): Shared {
    var ch := NewChan(8);
    if sh.closed
    then sh.(events := sh.events[sh.subSeq := Closed(ch)], subSeq := sh.subSeq + 1)
    else sh.(events := sh.events[sh.subSeq := ch], subs := sh.subs + {sh.subSeq}, subSeq := sh.subSeq + 1)
  }

  function SubDropped(sh: Shared, id: nat): Shared {
    if id in sh.subs && id in sh.events
    then sh.(subs := sh.subs - {id}, events := sh.events[id := Closed(sh.events[id])])
    else sh
  }

  // ----- the session as a transition system -----

  /** Hung: the scan of a frame never returned.  Crashed: it panicked, which ends the process. */
  datatype PumpPc = Reading | Delivering(w: Waiter, f: Frame) | Stopped | Hung | Crashed

  /** Where a frame went. */
  datatype Route = ToWaiter(id: nat) | ToSubscribers

  /** `asked`, `gaveUp`, `routes` and `dropped` record what happened: each waiter's request, the
      waiters whose Exchange stopped waiting, every frame's route, and whether a matched frame
      ever met a full channel. */
  datatype State = State(
    sh: Shared, pump: PumpPc,
    asked: map<nat, Request>, gaveUp: set<nat>, routes: seq<Route>, dropped: bool)

  /** A step, with the keys it works with. */
  datatype Step =
    | Ask(request: Request)         // Exchange registers its waiter
    | GiveUp(id: nat)               // send error, timeout or end of context
    | TakeReply(id: nat)            // Exchange receives from its channel
    | Subscribe
    | Unsubscribe(id: nat)
    | TakeEvent(id: nat)
    | Read(frame: Frame)            // the pump routes one frame
    | Deliver                       // the pump sends outside the mutex
    | Stop                          // stop signal or link closed
    | Hang                          // the pump's scan does not return
    | Crash                         // the pump's scan panics
    | Nothing                       // an Exchange's own scan panics or does not return

  predicate Possible(s: State, a: Step) {
    match a
    case TakeReply(id) => id in s.sh.deliver && s.sh.deliver[id].buf != []
    case TakeEvent(id) => id in s.sh.events && s.sh.events[id].buf != []
    case GiveUp(id) => id in s.asked
    case Read(f) => s.pump.Reading? && f.serial == |s.routes|
    case Deliver => s.pump.Delivering? && s.pump.w.id in s.sh.deliver
    case Stop => s.pump.Reading?
    case Hang => s.pump.Reading?
    case Crash => s.pump.Reading?
    case _ => true
  }

  function After(s: State, a: Step): State
    requires Possible(s, a)
  {
    match a
    case Ask(r) =>
      s.(sh := WaiterAdded(s.sh, r.key),
         asked := if s.sh.closed then s.asked else s.asked[s.sh.waiterSeq := r])
    case GiveUp(id) => s.(sh := WaiterDropped(s.sh, id), gaveUp := s.gaveUp + {id})
    case TakeReply(id) => s.(sh := s.sh.(deliver := s.sh.deliver[id := Taken(s.sh.deliver[id])]))
    case Subscribe => s.(sh := SubAdded(s.sh))
    case Unsubscribe(id) => s.(sh := SubDropped(s.sh, id))
    case TakeEvent(id) => s.(sh := s.sh.(events := s.sh.events[id := Taken(s.sh.events[id])]))
    case Read(f) =>
      var i := FirstMatch(s.sh.waiters, f);
      if i < |s.sh.waiters| then
        s.(sh := s.sh.(waiters := Without(s.sh.waiters, i)), pump := Delivering(s.sh.waiters[i], f),
           routes := s.routes + [ToWaiter(s.sh.waiters[i].id)])
      else
        s.(sh := FannedOut(s.sh, f), routes := s.routes + [ToSubscribers])
    case Deliver =>
      var ch := s.sh.deliver[s.pump.w.id];
      s.(sh := s.sh.(deliver := s.sh.deliver[s.pump.w.id := Offered(ch, s.pump.f)]),
         pump := Reading, dropped := s.dropped || |ch.buf| >= ch.cap)
    case Stop => s.(sh := ShutDown(s.sh), pump := Stopped)
    case Hang => s.(pump := Hung)
    case Crash => s.(pump := Crashed)
    case Nothing => s
  }

  /** What happens in a session: an Exchange and an arriving frame bring bytes, and the keys are
      whatever the 64-bit scans make of them. */
  datatype Action =
    | Exchange(payload: seq<Byte>)
    | Receive(bytes: seq<Byte>)
    | Other(step: Step)

  function StepOf(s: State, a: Action): Step {
    match a
    case Exchange(payload) =>
      var k := RequestKey64(payload);
      if k.Value? then Ask(Request(payload, k.value)) else Nothing
    case Receive(bytes) =>
      var k := ReplyKey64(bytes);
      if k.Value? then Read(Frame(|s.routes|, bytes, k.value)) else if k.Stuck? then Hang else Crash
    case Other(step) => step
  }

  predicate Enabled(s: State, a: Action) {
    && !s.pump.Crashed?
    && (a.Receive? ==> s.pump.Reading?)
    && (a.Other? ==> Possible(s, a.step) && !(a.step.Ask? || a.step.Read? || a.step.Hang? || a.step.Crash? || a.step.Nothing?))
  }

  function Apply(s: State, a: Action): State
    requires Enabled(s, a)
  {
    After(s, StepOf(s, a))
  }

  predicate Init(s: State) {
    s == State(Shared([], {}, map[], map[], 0, 0, false), Reading, map[], {}, [], false)
  }

  ghost predicate IsRun(states: seq<State>, actions: seq<Action>) {
    && |states| == |actions| + 1 && Init(states[0])
    && forall i :: 0 <= i < |actions| ==> Enabled(states[i], actions[i]) && states[i + 1] == Apply(states[i], actions[i])
  }

  // ----- invariants -----

  predicate Untouched(c: Chan) { c == NewChan(1) }

  /** What is known of the channel of waiter `id`. */
  ghost predicate ReplyChanOk(s: State, id: nat, c: Chan) {
    && c.cap == 1 && !c.misused && |c.sent| + c.closes <= 1
    && (c.buf == c.sent || c.buf == [])
    && (c.sent != [] ==> c.sent[0].serial < |s.routes| && s.routes[c.sent[0].serial] == ToWaiter(id)
                         && id in s.asked && Wants(s.asked[id].key, c.sent[0].key))
    && (c.sent == [] && c.closes == 0 ==>
          id in s.gaveUp || id in Ids(s.sh.waiters) || (s.pump.Delivering? && s.pump.w.id == id))
  }

  ghost predicate EventChanOk(s: State, id: nat, c: Chan) {
    && c.cap == 8 && |c.buf| <= 8 && !c.misused && c.closes == (if id in s.sh.subs then 0 else 1)
    && (forall f :: f in c.sent ==> f.serial < |s.routes| && s.routes[f.serial] == ToSubscribers)
    && (forall i, j :: 0 <= i < j < |c.sent| ==> c.sent[i].serial < c.sent[j].serial)
  }

  /** A waiter still in the list, or being delivered to, has an untouched channel. */
  ghost predicate WaiterOk(s: State, w: Waiter) {
    && w.id in s.sh.deliver && Untouched(s.sh.deliver[w.id])
    && w.id in s.asked && w.want == s.asked[w.id].key
  }

  /** Waiters are in the order they registered. */
  ghost predicate Ordered(ws: seq<Waiter>) {
    forall i, j :: 0 <= i < j < |ws| ==> ws[i].id < ws[j].id
  }

  /** Channels are numbered in the order they were made. */
  ghost predicate Numbered(s: State) {
    && (forall k: nat :: k in s.sh.deliver <==> k < s.sh.waiterSeq)
    && (forall k: nat :: k in s.asked <==> k < s.sh.waiterSeq)
    && (forall k: nat :: k in s.sh.events <==> k < s.sh.subSeq)
    && (forall k :: k in s.sh.subs ==> k < s.sh.subSeq)
  }

  ghost predicate WaitersOk(s: State) {
    Ordered(s.sh.waiters) && forall w :: w in s.sh.waiters ==> WaiterOk(s, w)
  }

  ghost predicate RepliesOk(s: State) {
    forall k :: k in s.sh.deliver ==> ReplyChanOk(s, k, s.sh.deliver[k])
  }

  ghost predicate EventsOk(s: State) {
    forall k :: k in s.sh.events ==> EventChanOk(s, k, s.sh.events[k])
  }

  ghost predicate PumpOk(s: State) {
    && !s.dropped
    && (s.pump.Delivering? ==>
          && WaiterOk(s, s.pump.w) && s.pump.w.id !in Ids(s.sh.waiters) && Wants(s.pump.w.want, s.pump.f.key)
          && s.pump.f.serial + 1 == |s.routes| && s.routes[s.pump.f.serial] == ToWaiter(s.pump.w.id))
    && (s.sh.closed <==> s.pump.Stopped?)
    && (s.sh.closed ==> s.sh.waiters == [] && s.sh.subs == {})
  }

  ghost predicate Inv(s: State) {
    Numbered(s) && WaitersOk(s) && RepliesOk(s) && EventsOk(s) && PumpOk(s)
  }

  lemma WithoutMember(ws: seq<Waiter>, i: nat, w: Waiter)
    requires Ordered(ws) && i < |ws|
    ensures w in Without(ws, i) <==> w in ws && w.id != ws[i].id
  {
    var rest := Without(ws, i);
    if w in ws && w.id != ws[i].id {
      var k :| 0 <= k < |ws| && ws[k] == w;
      assert w == if k < i then rest[k] else rest[k - 1];
    }
    if w in rest {
      var k :| 0 <= k < |rest| && rest[k] == w;
      assert w == if k < i then ws[k] else ws[k + 1];
    }
  }

  lemma WithoutOrdered(ws: seq<Waiter>, i: nat)
    requires Ordered(ws) && i < |ws|
    ensures Ordered(Without(ws, i))
  {
    forall k | 0 <= k < |ws| - 1 ensures Without(ws, i)[k] == if k < i then ws[k] else ws[k + 1] {}
  }

  lemma WithoutKeeps(ws: seq<Waiter>, i: nat)
    requires Ordered(ws) && i < |ws|
    ensures Ordered(Without(ws, i))
    ensures Ids(Without(ws, i)) == Ids(ws) - {ws[i].id}
    ensures forall w :: w in Without(ws, i) ==> w in ws
  {
    WithoutOrdered(ws, i);
    forall w ensures w in Without(ws, i) <==> w in ws && w.id != ws[i].id { WithoutMember(ws, i, w); }
  }

  lemma AskKeeps(s: State, a: Step)
    requires Inv(s) && a.Ask?
    ensures Inv(After(s, a))
  {
    var s' := After(s, a);
    if !s.sh.closed {
      var last := s'.sh.waiters[|s.sh.waiters|];
      forall i | 0 <= i < |s.sh.waiters| ensures s'.sh.waiters[i] == s.sh.waiters[i] && s.sh.waiters[i].id < last.id {
        assert s.sh.waiters[i] in s.sh.waiters;
      }
      forall w | w in s'.sh.waiters ensures w in s.sh.waiters || w == last {}
      forall k | k in Ids(s.sh.waiters) ensures k in Ids(s'.sh.waiters) {}
      assert last in s'.sh.waiters;
      assert WaitersOk(s') by {
        forall w | w in s.sh.waiters ensures WaiterOk(s', w) { assert WaiterOk(s, w); }
      }
      assert RepliesOk(s') by {
        forall k | k in s.sh.deliver ensures ReplyChanOk(s', k, s'.sh.deliver[k]) { assert ReplyChanOk(s, k, s.sh.deliver[k]); }
      }
      assert EventsOk(s') by {
        forall k | k in s'.sh.events ensures EventChanOk(s', k, s'.sh.events[k]) { assert EventChanOk(s, k, s.sh.events[k]); }
      }
    }
  }

  lemma GiveUpKeeps(s: State, a: Step)
    requires Inv(s) && Possible(s, a) && a.GiveUp?
    ensures Inv(After(s, a))
  {
    var s' := After(s, a);
    var i := IndexOf(s.sh.waiters, a.id);
    if i < |s.sh.waiters| { WithoutKeeps(s.sh.waiters, i); }
    assert WaitersOk(s') by {
      forall w | w in s'.sh.waiters ensures WaiterOk(s', w) { assert WaiterOk(s, w); }
    }
    assert RepliesOk(s') by {
      forall k | k in s'.sh.deliver ensures ReplyChanOk(s', k, s'.sh.deliver[k]) { assert ReplyChanOk(s, k, s.sh.deliver[k]); }
    }
    assert EventsOk(s') by {
      forall k | k in s'.sh.events ensures EventChanOk(s', k, s'.sh.events[k]) { assert EventChanOk(s, k, s.sh.events[k]); }
    }
  }

  lemma MatchKeeps(s: State, a: Step)
    requires Inv(s) && Possible(s, a) && a.Read?
    requires FirstMatch(s.sh.waiters, a.frame) < |s.sh.waiters|
    ensures Inv(After(s, a))
  {
    var s' := After(s, a);
    var i := FirstMatch(s.sh.waiters, a.frame);
    WithoutKeeps(s.sh.waiters, i);
    assert WaiterOk(s, s.sh.waiters[i]);
    assert WaitersOk(s') by {
      forall w | w in s'.sh.waiters ensures WaiterOk(s', w) { assert WaiterOk(s, w); }
    }
    assert RepliesOk(s') by {
      forall k | k in s'.sh.deliver ensures ReplyChanOk(s', k, s'.sh.deliver[k]) { assert ReplyChanOk(s, k, s.sh.deliver[k]); }
    }
    assert EventsOk(s') by {
      forall k | k in s'.sh.events ensures EventChanOk(s', k, s'.sh.events[k]) { assert EventChanOk(s, k, s.sh.events[k]); }
    }
  }

  lemma FanOutKeeps(s: State, a: Step)
    requires Inv(s) && Possible(s, a) && a.Read?
    requires FirstMatch(s.sh.waiters, a.frame) == |s.sh.waiters|
    ensures Inv(After(s, a))
  {
    var s' := After(s, a);
    assert WaitersOk(s') by {
      forall w | w in s'.sh.waiters ensures WaiterOk(s', w) { assert WaiterOk(s, w); }
    }
    assert RepliesOk(s') by {
      forall k | k in s'.sh.deliver ensures ReplyChanOk(s', k, s'.sh.deliver[k]) { assert ReplyChanOk(s, k, s.sh.deliver[k]); }
    }
    assert EventsOk(s') by {
      forall k | k in s'.sh.events ensures EventChanOk(s', k, s'.sh.events[k]) { OfferKeeps(s, s', k, a.frame); }
    }
  }

  lemma OfferKeeps(s: State, s': State, k: nat, f: Frame)
    requires k in s.sh.events && EventChanOk(s, k, s.sh.events[k])
    requires f.serial == |s.routes| && s'.routes == s.routes + [ToSubscribers] && s'.sh.subs == s.sh.subs
    ensures EventChanOk(s', k, if k in s.sh.subs then Offered(s.sh.events[k], f) else s.sh.events[k])
  {
    var c := s.sh.events[k];
    forall i | 0 <= i < |c.sent| ensures c.sent[i].serial < |s.routes| { assert c.sent[i] in c.sent; }
  }

  lemma DeliverKeeps(s: State, a: Step)
    requires Inv(s) && Possible(s, a) && a.Deliver?
    ensures Inv(After(s, a))
  {
  }

  lemma StopKeeps(s: State, a: Step)
    requires Inv(s) && Possible(s, a) && a.Stop?
    ensures Inv(After(s, a))
  {
  }

  lemma TakeKeeps(s: State, a: Step)
    requires Inv(s) && Possible(s, a) && (a.TakeReply? || a.TakeEvent?)
    ensures Inv(After(s, a))
  {
  }

  lemma SubscribersKeep(s: State, a: Step)
    requires Inv(s) && Possible(s, a) && (a.Subscribe? || a.Unsubscribe?)
    ensures Inv(After(s, a))
  {
  }

  lemma StepKeeps(s: State, a: Step)
    requires Inv(s) && Possible(s, a)
    ensures Inv(After(s, a))
  {
    match a
    case Ask(_) => AskKeeps(s, a);
    case GiveUp(_) => GiveUpKeeps(s, a);
    case TakeReply(_) => TakeKeeps(s, a);
    case Subscribe => SubscribersKeep(s, a);
    case Unsubscribe(_) => SubscribersKeep(s, a);
    case TakeEvent(_) => TakeKeeps(s, a);
    case Read(f) => if FirstMatch(s.sh.waiters, f) < |s.sh.waiters| { MatchKeeps(s, a); } else { FanOutKeeps(s, a); }
    case Deliver => DeliverKeeps(s, a);
    case Stop => StopKeeps(s, a);
    case Hang => FateKeeps(s, a);
    case Crash => FateKeeps(s, a);
    case Nothing =>
  }

  lemma FateKeeps(s: State, a: Step)
    requires Inv(s) && Possible(s, a) && (a.Hang? || a.Crash?)
    ensures Inv(After(s, a))
  {}

  lemma KeepsInv(s: State, a: Action)
    requires Inv(s) && Enabled(s, a)
    ensures Inv(Apply(s, a))
  {
    StepKeeps(s, StepOf(s, a));
  }

  // ===== what holds over every run =====

  lemma {:induction false} RunKeepsInv(states: seq<State>, actions: seq<Action>, i: nat)
    requires IsRun(states, actions) && i < |states|
    ensures Inv(states[i])
  {
    if i > 0 {
      RunKeepsInv(states, actions, i - 1);
      KeepsInv(states[i - 1], actions[i - 1]);
    }
  }

  /** Pump safety.  No channel is ever closed twice or sent to after closing; a waiter's channel
      gets one send or one close, never both; a matched frame never finds it full. */
  lemma ChannelsAreSafe(states: seq<State>, actions: seq<Action>, i: nat)
    requires IsRun(states, actions) && i < |states|
    ensures var s := states[i];
      && !s.dropped
      && (forall k :: k in s.sh.deliver ==> !s.sh.deliver[k].misused && |s.sh.deliver[k].sent| + s.sh.deliver[k].closes <= 1)
      && (forall k :: k in s.sh.events ==> !s.sh.events[k].misused && s.sh.events[k].closes <= 1)
  {
    RunKeepsInv(states, actions, i);
    var s := states[i];
    forall k | k in s.sh.deliver ensures !s.sh.deliver[k].misused && |s.sh.deliver[k].sent| + s.sh.deliver[k].closes <= 1 {
      assert ReplyChanOk(s, k, s.sh.deliver[k]);
    }
    forall k | k in s.sh.events ensures !s.sh.events[k].misused && s.sh.events[k].closes <= 1 {
      assert EventChanOk(s, k, s.sh.events[k]);
    }
  }

  /** A frame goes to one waiter or to the fan-out, never to two waiters and never to both. */
  lemma OneDestination(states: seq<State>, actions: seq<Action>, i: nat, w: nat, f: Frame, g: Frame)
    requires IsRun(states, actions) && i < |states|
    requires w in states[i].sh.deliver && f in states[i].sh.deliver[w].sent && g.serial == f.serial
    ensures forall v :: v in states[i].sh.deliver && g in states[i].sh.deliver[v].sent ==> v == w
    ensures forall e :: e in states[i].sh.events ==> g !in states[i].sh.events[e].sent
  {
    RunKeepsInv(states, actions, i);
    var s := states[i];
    assert ReplyChanOk(s, w, s.sh.deliver[w]) && s.sh.deliver[w].sent[0] == f;
    forall v | v in s.sh.deliver && g in s.sh.deliver[v].sent ensures v == w {
      assert ReplyChanOk(s, v, s.sh.deliver[v]) && s.sh.deliver[v].sent[0] == g;
    }
    forall e | e in s.sh.events ensures g !in s.sh.events[e].sent {
      assert EventChanOk(s, e, s.sh.events[e]);
    }
  }

  /** A frame whose key is k is matched to the waiter that registered first among those that want it,
      and is fanned out exactly when nobody wants it. */
  lemma OldestMatchingWaiter(s: State, bytes: seq<Byte>, k: Key)
    requires Inv(s) && Enabled(s, Receive(bytes)) && ReplyKey64(bytes) == Value(k)
    ensures var pump := Apply(s, Receive(bytes)).pump;
      && (pump.Reading? <==> forall w :: w in s.sh.waiters ==> !Wants(w.want, k))
      && (pump.Delivering? ==> pump.w in s.sh.waiters && Wants(pump.w.want, k)
                               && forall w :: w in s.sh.waiters && Wants(w.want, k) ==> pump.w.id <= w.id)
  {
    OldestMatch(s, Frame(|s.routes|, bytes, k));
  }

  lemma OldestMatch(s: State, f: Frame)
    requires Inv(s) && Possible(s, Read(f))
    ensures var pump := After(s, Read(f)).pump;
      && (pump.Reading? <==> forall w :: w in s.sh.waiters ==> !Wants(w.want, f.key))
      && (pump.Delivering? ==> pump.w in s.sh.waiters && Wants(pump.w.want, f.key)
                               && forall w :: w in s.sh.waiters && Wants(w.want, f.key) ==> pump.w.id <= w.id)
  {
    var i := FirstMatch(s.sh.waiters, f);
    forall w | w in s.sh.waiters && Wants(w.want, f.key)
      ensures i < |s.sh.waiters| && s.sh.waiters[i].id <= w.id
    {
      var k :| 0 <= k < |s.sh.waiters| && s.sh.waiters[k] == w;
    }
  }

  /** Nobody is left blocked: once the pump has stopped, every waiter's channel has had its send
      or its close unless its Exchange gave up itself, and every subscriber's channel is closed,
      including those registered after the stop; and the lists stay empty. */
  lemma NobodyLeftBlocked(states: seq<State>, actions: seq<Action>, i: nat)
    requires IsRun(states, actions) && i < |states| && states[i].pump.Stopped?
    ensures var s := states[i];
      && s.sh.waiters == [] && s.sh.subs == {}
      && (forall k :: k in s.asked && k !in s.gaveUp ==> k in s.sh.deliver && |s.sh.deliver[k].sent| + s.sh.deliver[k].closes == 1)
      && (forall k: nat :: k < s.sh.subSeq ==> k in s.sh.events && s.sh.events[k].closes == 1)
  {
    RunKeepsInv(states, actions, i);
    var s := states[i];
    forall k | k in s.asked && k !in s.gaveUp ensures k in s.sh.deliver && |s.sh.deliver[k].sent| + s.sh.deliver[k].closes == 1 {
      assert ReplyChanOk(s, k, s.sh.deliver[k]);
    }
    forall k: nat | k < s.sh.subSeq ensures k in s.sh.events && s.sh.events[k].closes == 1 {
      assert EventChanOk(s, k, s.sh.events[k]);
    }
  }

  // ----- end to end: the reply an Exchange returns answers its request -----

  /** Every key in the state is what the given scans make of the bytes it stands beside. */
  ghost predicate KeysFrom(s: State, ask: seq<Byte> -> Extract<Key>, reply: seq<Byte> -> Extract<Key>) {
    && (forall k :: k in s.asked ==> ask(s.asked[k].payload) == Value(s.asked[k].key))
    && (forall k, f :: k in s.sh.deliver && f in s.sh.deliver[k].sent ==> reply(f.bytes) == Value(f.key))
    && (s.pump.Delivering? ==> reply(s.pump.f.bytes) == Value(s.pump.f.key))
  }

  lemma KeepsKeys(s: State, a: Step, ask: seq<Byte> -> Extract<Key>, reply: seq<Byte> -> Extract<Key>)
    requires KeysFrom(s, ask, reply) && Possible(s, a)
    requires a.Ask? ==> ask(a.request.payload) == Value(a.request.key)
    requires a.Read? ==> reply(a.frame.bytes) == Value(a.frame.key)
    ensures KeysFrom(After(s, a), ask, reply)
  {
  }

  lemma {:induction false} RunKeepsKeys(states: seq<State>, actions: seq<Action>, i: nat)
    requires IsRun(states, actions) && i < |states|
    ensures KeysFrom(states[i], RequestKey64, ReplyKey64)
  {
    if i > 0 {
      RunKeepsKeys(states, actions, i - 1);
      KeepsKeys(states[i - 1], StepOf(states[i - 1], actions[i - 1]), RequestKey64, ReplyKey64);
    }
  }

  /** A request with a correlator is answered by one of its correlators. */
  predicate Answers(want: Key, got: Key) {
    want.addr != [] || want.uuid != [] ==>
      (want.addr != [] && got.addr == want.addr) || (want.uuid != [] && got.uuid == want.uuid)
  }

  /** Exchange k has been sent frame f. */
  ghost predicate Delivered(s: State, k: nat, f: Frame) {
    k in s.asked && k in s.sh.deliver && f in s.sh.deliver[k].sent
  }

  lemma DeliveredWanted(states: seq<State>, actions: seq<Action>, i: nat, k: nat, f: Frame)
    requires IsRun(states, actions) && i < |states| && k in states[i].sh.deliver && f in states[i].sh.deliver[k].sent
    ensures Delivered(states[i], k, f) && Wants(states[i].asked[k].key, f.key)
  {
    RunKeepsInv(states, actions, i);
    var s := states[i];
    assert ReplyChanOk(s, k, s.sh.deliver[k]) && s.sh.deliver[k].sent[0] == f;
  }

  /** In every run, a frame an Exchange received answers its request by the keys the source extracts. */
  lemma ExtractedKeysAnswer(states: seq<State>, actions: seq<Action>, i: nat, k: nat, f: Frame)
    requires IsRun(states, actions) && i < |states| && k in states[i].sh.deliver && f in states[i].sh.deliver[k].sent
    ensures k in states[i].asked
    ensures RequestKey64(states[i].asked[k].payload) == Value(states[i].asked[k].key) && ReplyKey64(f.bytes) == Value(f.key)
    ensures Answers(states[i].asked[k].key, f.key)
  {
    DeliveredWanted(states, actions, i, k, f);
    RunKeepsKeys(states, actions, i);
  }

  /** If the request carried a routing address or a uuid, a frame its Exchange received carries the
      same routing address in to_destination, or the same uuid in request_uuid: in every run, for
      every request and frame whose lengths do no harm. */
  lemma ReplyCorrelates(states: seq<State>, actions: seq<Action>, i: nat, k: nat, f: Frame)
    requires IsRun(states, actions) && i < |states| && Delivered(states[i], k, f)
    requires |f.bytes| < Wire.I63 && KeyHarmless(f.bytes, 6, 50)
    requires |states[i].asked[k].payload| < Wire.I63 && KeyHarmless(states[i].asked[k].payload, 7, 51)
    ensures Answers(RequestKey(states[i].asked[k].payload), ReplyKey(f.bytes))
  {
    ExtractedKeysAnswer(states, actions, i, k, f);
    KeyExactIff(f.bytes, 6, 50);
    KeyExactIff(states[i].asked[k].payload, 7, 51);
  }
}
