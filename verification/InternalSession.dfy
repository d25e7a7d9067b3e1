/** One BLE session's pump state as an object.  Each method is a region run under the session's
    mutex, with the source's own loops, and does to the fields what the pump's action does. */
module InternalSession {
  import opened Bytes
  import opened Correlators
  import opened Pump

  class Session {
    var waiters: seq<Waiter>
    var subs: set<nat>
    var deliver: map<nat, Chan>
    var events: map<nat, Chan>
    var waiterSeq: nat
    var subSeq: nat
    var closed: bool

    function View(): Shared
      reads this
    {
      Shared(waiters, subs, deliver, events, waiterSeq, subSeq, closed)
    }

    /** Every registered waiter and subscriber has its channel. */
    ghost predicate Valid()
      reads this
    {
      subs <= events.Keys && Ids(waiters) <= deliver.Keys
    }

    constructor ()
      ensures Valid() && View() == Shared([], {}, map[], map[], 0, 0, false)
    {
      waiters, subs, deliver, events := [], {}, map[], map[];
      waiterSeq, subSeq, closed := 0, 0, false;
    }

    method RegisterWaiter(want: Key) returns (id: Option<nat>)
      requires Valid()
      modifies this
      ensures Valid() && View() == WaiterAdded(old(View()), want)
      ensures id == if old(closed) then None else Some(old(waiterSeq))
    {
      if closed {
        return None;
      }
      id := Some(waiterSeq);
      waiters := waiters + [Waiter(waiterSeq, want)];
      deliver := deliver[waiterSeq := NewChan(1)];
      waiterSeq := waiterSeq + 1;
    }

    method UnregisterWaiter(id: nat)
      requires Valid()
      modifies this
      ensures Valid() && View() == WaiterDropped(old(View()), id)
    {
      for i := 0 to |waiters|
        invariant View() == old(View())
        invariant forall k :: 0 <= k < i ==> waiters[k].id != id
      {
        if waiters[i].id == id {
          FirstIndex(waiters, id, i);
          waiters := waiters[..i] + waiters[i + 1..];
          return;
        }
      }
    }

    method Subscribe() returns (id: nat)
      requires Valid()
      modifies this
      ensures Valid() && View() == SubAdded(old(View())) && id == old(subSeq)
    {
      id := subSeq;
      subSeq := subSeq + 1;
      var ch := NewChan(8);
      if closed {
        events := events[id := Closed(ch)];
        return;
      }
      events := events[id := ch];
      subs := subs + {id};
    }

    method Unsubscribe(id: nat)
      requires Valid()
      modifies this
      ensures Valid() && View() == SubDropped(old(View()), id)
    {
      if id in subs {
        subs := subs - {id};
        events := events[id := Closed(events[id])];
      }
    }

    /** Offers the frame to every subscriber, in some order, without blocking. */
    method FanOut(f: Frame)
      requires Valid()
      modifies this`events
      ensures Valid() && View() == FannedOut(old(View()), f)
    {
      var rest := subs;
      while rest != {}
        invariant rest <= subs && Valid() && events.Keys == old(events).Keys
        invariant forall k :: k in events ==>
          events[k] == if k in subs && k !in rest then Offered(old(events)[k], f) else old(events)[k]
      {
        var k :| k in rest;
        events := events[k := Offered(events[k], f)];
        rest := rest - {k};
      }
    }

    /** The start of Exchange: the keys are extracted from the payload, then the waiter is registered. */
    method BeginExchange(payload: seq<Byte>) returns (key: Extract<Key>, id: Option<nat>)
      requires Valid() && InMemory(payload) && RequestKey64(payload) != Stuck
      modifies this
      ensures Valid() && key == RequestKey64(payload)
      ensures View() == if key.Value? then WaiterAdded(old(View()), key.value) else old(View())
      ensures id == if key.Value? && !old(closed) then Some(old(waiterSeq)) else None
    {
      key := ExtractKey(payload, 7, 51);
      if key.Panicked? {
        return key, None;
      }
      id := RegisterWaiter(key.value);
    }

    /** The locked half of routeFrame: the oldest matching waiter is taken off the list,
        or the frame is fanned out. */
    method Route(f: Frame) returns (w: Option<Waiter>)
      requires Valid()
      modifies this
      ensures Valid() && RoutedTo(old(View()), f, w, View())
    {
      for i := 0 to |waiters|
        invariant View() == old(View())
        invariant forall k :: 0 <= k < i ==> !Wants(waiters[k].want, f.key)
      {
        var want := waiters[i].want;
        var noCorrelator := |want.addr| == 0 && |want.uuid| == 0;
        var addrMatch := |want.addr| != 0 && f.key.addr == want.addr;
        var uuidMatch := |want.uuid| != 0 && f.key.uuid == want.uuid;
        if addrMatch || uuidMatch || noCorrelator {
          FirstMatchIs(waiters, f, i);
          w := Some(waiters[i]);
          waiters := waiters[..i] + waiters[i + 1..];
          return;
        }
      }
      FanOut(f);
      return None;
    }

    /** routeFrame up to the send: the keys are extracted from the frame's bytes, and a panic there leaves
        the session as it was. */
    method RouteFrame(serial: nat, bytes: seq<Byte>) returns (key: Extract<Key>, w: Option<Waiter>)
      requires Valid() && InMemory(bytes) && ReplyKey64(bytes) != Stuck
      modifies this
      ensures Valid() && key == ReplyKey64(bytes)
      ensures !key.Value? ==> w == None && View() == old(View())
      ensures key.Value? ==> RoutedTo(old(View()), Frame(serial, bytes, key.value), w, View())
    {
      key := ExtractKey(bytes, 6, 50);
      if key.Panicked? {
        return key, None;
      }
      w := Route(Frame(serial, bytes, key.value));
    }

    /** The half of routeFrame outside the mutex. */
    method DeliverTo(w: Waiter, f: Frame)
      requires Valid() && w.id in deliver
      modifies this
      ensures Valid() && View() == old(View()).(deliver := old(deliver)[w.id := Offered(old(deliver)[w.id], f)])
    {
      deliver := deliver[w.id := Offered(deliver[w.id], f)];
    }

    /** Waiters have distinct channels, so each is closed once. */
    method CloseWaiters()
      requires Valid() && forall i, j :: 0 <= i < j < |waiters| ==> waiters[i].id != waiters[j].id
      modifies this`deliver
      ensures deliver == CloseAll(old(deliver), Ids(waiters))
    {
      for i := 0 to |waiters|
        invariant deliver.Keys == old(deliver).Keys
        invariant forall k :: k in deliver ==>
          deliver[k] == if k in Ids(waiters[..i]) then Closed(old(deliver)[k]) else old(deliver)[k]
      {
        var id := waiters[i].id;
        assert waiters[i] in waiters;
        assert waiters[..i + 1] == waiters[..i] + [waiters[i]];
        assert id !in Ids(waiters[..i]);
        deliver := deliver[id := Closed(deliver[id])];
      }
      assert waiters[..|waiters|] == waiters;
    }

    method CloseSubs()
      requires Valid()
      modifies this`events, this`subs
      ensures subs == {} && events == CloseAll(old(events), old(subs))
    {
      while subs != {}
        invariant subs <= old(subs) && events.Keys == old(events).Keys
        invariant forall k :: k in events ==>
          events[k] == if k in old(subs) && k !in subs then Closed(old(events)[k]) else old(events)[k]
        decreases subs
      {
        var k :| k in subs;
        events := events[k := Closed(events[k])];
        subs := subs - {k};
      }
    }

    method ShutdownPump()
      requires Valid() && forall i, j :: 0 <= i < j < |waiters| ==> waiters[i].id != waiters[j].id
      modifies this
      ensures Valid() && View() == ShutDown(old(View()))
    {
      closed := true;
      CloseWaiters();
      waiters := [];
      CloseSubs();
    }
  }

  /** The frame went to the first waiter that wants it, or else to the subscribers. */
  predicate RoutedTo(before: Shared, f: Frame, w: Option<Waiter>, now: Shared) {
    var i := FirstMatch(before.waiters, f);
    if i < |before.waiters|
    then w == Some(before.waiters[i]) && now == before.(waiters := Without(before.waiters, i))
    else w == None && now == FannedOut(before, f)
  }

  lemma {:induction false} FirstIndex(ws: seq<Waiter>, id: nat, i: nat)
    requires i < |ws| && ws[i].id == id && forall k :: 0 <= k < i ==> ws[k].id != id
    ensures IndexOf(ws, id) == i
  {
    var j := IndexOf(ws, id);
    assert j >= i;
  }

  lemma {:induction false} FirstMatchIs(ws: seq<Waiter>, f: Frame, i: nat)
    requires i < |ws| && Wants(ws[i].want, f.key) && forall k :: 0 <= k < i ==> !Wants(ws[k].want, f.key)
    ensures FirstMatch(ws, f) == i
  {
    var j := FirstMatch(ws, f);
    assert j >= i;
  }
}
