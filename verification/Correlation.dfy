/** Exactly when the pump's promises hold of the bytes that arrive: which frames it can hand to the
    wrong Exchange, and which stop it from ever shutting down. */
module Correlation {
  import opened Bytes
  import opened Wire
  import opened Correlators
  import opened Pump

  const I62 := 0x4000_0000_0000_0000

  // ----- requests with a given key -----

  lemma FieldSize(num: nat, x: seq<Byte>)
    requires num < 0x2000_0000_0000_0000 && |x| < U64
    ensures WellFormed(LenField(num, x)) && |EncodeField(LenField(num, x))| <= 20 + |x|
  {
    TenLimbs();
    TagParts(num, 2);
    EncodedShape(num * 8 + 2, 10);
    EncodedShape(|x|, 10);
  }

  function OneField(num: nat, x: seq<Byte>): seq<Byte> { Encode([LenField(num, x)]) }

  lemma OneFieldFacts(num: nat, x: seq<Byte>, field: nat)
    requires num < 0x2000_0000_0000_0000 && |x| < U64
    ensures |OneField(num, x)| <= 20 + |x|
    ensures FirstLen([LenField(num, x)], field) == if field == num then Some(x) else None
  {
    var fs := [LenField(num, x)];
    FieldSize(num, x);
    assert fs[1..] == [];
    assert Encode(fs) == EncodeField(fs[0]) + Encode([]);
  }

  /** Every address is asked for by some request, and so is every uuid. */
  lemma AddressRequest(x: seq<Byte>) returns (payload: seq<Byte>)
    requires |x| < I62
    ensures |payload| < I63 && RequestKey64(payload) == Value(Key(x, [])) && RequestKey(payload) == Key(x, [])
    ensures KeyHarmless(payload, 7, 51)
  {
    var inner := OneField(2, x);
    OneFieldFacts(2, x, 2);
    FieldSize(2, x);
    payload := OneField(7, inner);
    OneFieldFacts(7, inner, 7);
    OneFieldFacts(7, inner, 51);
    FieldSize(7, inner);
    CorrelatorsRead([LenField(7, inner)], [LenField(2, x)], 7, 51);
    KeyExactIff(payload, 7, 51);
  }

  lemma UuidRequest(x: seq<Byte>) returns (payload: seq<Byte>)
    requires |x| < I62
    ensures |payload| < I63 && RequestKey64(payload) == Value(Key([], x)) && RequestKey(payload) == Key([], x)
    ensures KeyHarmless(payload, 7, 51)
  {
    payload := OneField(51, x);
    OneFieldFacts(51, x, 51);
    OneFieldFacts(51, x, 7);
    FieldSize(51, x);
    CorrelatorsRead([LenField(51, x)], [], 7, 51);
    KeyExactIff(payload, 7, 51);
  }

  // ----- the run that delivers a frame -----

  const START := State(Shared([], {}, map[], map[], 0, 0, false), Reading, map[], {}, [], false)

  lemma DeliveringRun(payload: seq<Byte>, bytes: seq<Byte>, want: Key, got: Key) returns (states: seq<State>, actions: seq<Action>)
    requires RequestKey64(payload) == Value(want) && ReplyKey64(bytes) == Value(got) && Wants(want, got)
    ensures IsRun(states, actions) && |states| == 4
    ensures Delivered(states[3], 0, Frame(0, bytes, got))
    ensures states[3].asked[0].payload == payload
  {
    var ask, read := Ask(Request(payload, want)), Read(Frame(0, bytes, got));
    var s1 := After(START, ask);
    DeliversAll(START, s1, Request(payload, want), Frame(0, bytes, got));
    var s2 := After(s1, read);
    var s3 := After(s2, Deliver);
    actions := [Exchange(payload), Receive(bytes), Other(Deliver)];
    states := [START, s1, s2, s3];
    AskStep(START, payload, want);
    ReadStep(s1, bytes, got);
    assert Apply(s2, actions[2]) == s3;
  }

  lemma AskStep(s: State, payload: seq<Byte>, want: Key)
    requires RequestKey64(payload) == Value(want)
    ensures StepOf(s, Exchange(payload)) == Ask(Request(payload, want))
  {}

  lemma ReadStep(s: State, bytes: seq<Byte>, got: Key)
    requires ReplyKey64(bytes) == Value(got)
    ensures StepOf(s, Receive(bytes)) == Read(Frame(|s.routes|, bytes, got))
  {}

  lemma DeliversAll(s0: State, s1: State, r: Request, f: Frame)
    requires Init(s0) && s1 == After(s0, Ask(r)) && f.serial == 0 && Wants(r.key, f.key)
    ensures Possible(s1, Read(f)) && !s1.pump.Crashed? && Possible(After(s1, Read(f)), Deliver)
    ensures var s3 := After(After(s1, Read(f)), Deliver); Delivered(s3, 0, f) && s3.asked[0] == r
  {
    assert s1.sh.waiters == [Waiter(0, r.key)];
    assert FirstMatch(s1.sh.waiters, f) == 0;
  }

  // ----- which frames are handed to the wrong Exchange -----

  /** In this run the bytes were handed to an Exchange whose request, itself harmless, they do not answer. */
  ghost predicate Misled(states: seq<State>, actions: seq<Action>, i: nat, k: nat, f: Frame, bytes: seq<Byte>) {
    && IsRun(states, actions) && i < |states| && Delivered(states[i], k, f) && f.bytes == bytes
    && var payload := states[i].asked[k].payload;
       |payload| < I63 && KeyHarmless(payload, 7, 51) && !Answers(RequestKey(payload), ReplyKey(bytes))
  }

  /** Some run misleads an Exchange with these bytes if and only if the source's scans return a key from
      them that a harmful length put there. */
  lemma MisleadsIff(bytes: seq<Byte>)
    requires |bytes| < I62
    ensures (exists states, actions, i, k, f :: Misled(states, actions, i, k, f, bytes))
      <==> ReplyKey64(bytes).Value? && !KeyHarmless(bytes, 6, 50)
  {
    if exists states, actions, i, k, f :: Misled(states, actions, i, k, f, bytes) {
      var states, actions, i, k, f :| Misled(states, actions, i, k, f, bytes);
      ExtractedKeysAnswer(states, actions, i, k, f);
      if KeyHarmless(bytes, 6, 50) { ReplyCorrelates(states, actions, i, k, f); }
    }
    if ReplyKey64(bytes).Value? && !KeyHarmless(bytes, 6, 50) { MisleadingRun(bytes); }
  }

  lemma MisleadingRun(bytes: seq<Byte>)
    requires |bytes| < I62 && ReplyKey64(bytes).Value? && !KeyHarmless(bytes, 6, 50)
    ensures exists states, actions, i, k, f :: Misled(states, actions, i, k, f, bytes)
  {
    var got, has := ReplyKey64(bytes).value, ReplyKey(bytes);
    KeyExactIff(bytes, 6, 50);
    KeySize(bytes);
    var payload;
    if got.addr != [] && has.addr == [] {
      payload := AddressRequest(got.addr);
    } else {
      payload := UuidRequest(got.uuid);
    }
    var want := RequestKey(payload);
    var states, actions := DeliveringRun(payload, bytes, want, got);
    assert Misled(states, actions, 3, 0, Frame(0, bytes, got), bytes);
  }

  lemma ScanSize(b: seq<Byte>, field: nat)
    ensures Bytes64(b, field).Value? ==> |Bytes64(b, field).value| <= |b|
  {}

  lemma KeySize(b: seq<Byte>)
    ensures ReplyKey64(b).Value? ==> |ReplyKey64(b).value.addr| <= |b| && |ReplyKey64(b).value.uuid| <= |b|
  {
    ScanSize(b, 6);
    ScanSize(b, 50);
    if Bytes64(b, 6).Value? { ScanSize(Bytes64(b, 6).value, 2); }
  }

  /** Such a frame exists. */
  lemma BackjumpMisleads()
    ensures exists states, actions, i, k, f :: Misled(states, actions, i, k, f, Backjump)
  {
    BackjumpMisread();
    MisleadingRun(Backjump);
  }

  // ----- which frames keep the pump from stopping -----

  ghost predicate Received(actions: seq<Action>, i: nat, fate: Extract<Key>) {
    exists j :: 0 <= j < i && j < |actions| && actions[j].Receive? && ReplyKey64(actions[j].bytes) == fate
  }

  lemma StepFate(s: State, a: Step)
    requires Possible(s, a)
    ensures After(s, a).pump.Hung? <==> a.Hang? || s.pump.Hung?
    ensures After(s, a).pump.Crashed? <==> a.Crash? || s.pump.Crashed?
  {}

  lemma ActionFate(s: State, a: Action)
    requires Enabled(s, a)
    ensures Apply(s, a).pump.Hung? <==> s.pump.Hung? || (a.Receive? && ReplyKey64(a.bytes) == Stuck)
    ensures Apply(s, a).pump.Crashed? <==> s.pump.Crashed? || (a.Receive? && ReplyKey64(a.bytes) == Panicked)
  {
    StepFate(s, StepOf(s, a));
  }

  /** The pump hangs exactly when the scans of some frame never return, and takes the process with it
      exactly when they panic. */
  lemma {:induction false} PumpFate(states: seq<State>, actions: seq<Action>, i: nat)
    requires IsRun(states, actions) && i < |states|
    ensures states[i].pump.Hung? <==> Received(actions, i, Stuck)
    ensures states[i].pump.Crashed? <==> Received(actions, i, Panicked)
  {
    if i > 0 {
      PumpFate(states, actions, i - 1);
      ActionFate(states[i - 1], actions[i - 1]);
      ReceivedMore(actions, i - 1, Stuck);
      ReceivedMore(actions, i - 1, Panicked);
    }
  }

  lemma ReceivedMore(actions: seq<Action>, i: nat, fate: Extract<Key>)
    requires i < |actions|
    ensures Received(actions, i + 1, fate)
      <==> Received(actions, i, fate) || (actions[i].Receive? && ReplyKey64(actions[i].bytes) == fate)
  {}

  /** While every frame so far could be scanned, the pump has stopped or can stop after at most one step
      of its own. */
  lemma StopIsNear(states: seq<State>, actions: seq<Action>, i: nat)
    requires IsRun(states, actions) && i < |states| && !Received(actions, i, Stuck) && !Received(actions, i, Panicked)
    ensures var s := states[i];
      || s.pump.Stopped? || Enabled(s, Other(Step.Stop))
      || (Enabled(s, Other(Deliver)) && Enabled(Apply(s, Other(Deliver)), Other(Step.Stop)))
  {
    PumpFate(states, actions, i);
    RunKeepsInv(states, actions, i);
  }

  /** What everybody else does leaves the pump where it is. */
  lemma OthersLeavePump(s: State, a: Action)
    requires Enabled(s, a) && !a.Receive? && a != Other(Deliver) && a != Other(Step.Stop)
    ensures Apply(s, a).pump == s.pump
  {}

  /** A hung pump never stops: no waiter's channel gets another send or close. */
  lemma {:induction false} HungForever(states: seq<State>, actions: seq<Action>, i: nat, j: nat, k: nat)
    requires IsRun(states, actions) && i <= j < |states| && states[i].pump.Hung? && k in states[i].sh.deliver
    ensures states[j].pump.Hung? && k in states[j].sh.deliver
    ensures states[j].sh.deliver[k].sent == states[i].sh.deliver[k].sent && states[j].sh.deliver[k].closes == states[i].sh.deliver[k].closes
  {
    if i < j {
      HungForever(states, actions, i, j - 1, k);
      RunKeepsInv(states, actions, j - 1);
      HungStep(states[j - 1], StepOf(states[j - 1], actions[j - 1]), k);
    }
  }

  lemma HungStep(s: State, a: Step, k: nat)
    requires Inv(s) && Possible(s, a) && s.pump.Hung? && k in s.sh.deliver
    ensures var t := After(s, a);
      && t.pump.Hung? && k in t.sh.deliver
      && t.sh.deliver[k].sent == s.sh.deliver[k].sent && t.sh.deliver[k].closes == s.sh.deliver[k].closes
  {}

  /** Such a frame exists: eleven bytes after which the pump never stops. */
  lemma OverlongHangsPump(s: State)
    requires Enabled(s, Receive(Overlong))
    ensures Apply(s, Receive(Overlong)).pump.Hung?
  {
    OverlongKey();
    ActionFate(s, Receive(Overlong));
  }
}
