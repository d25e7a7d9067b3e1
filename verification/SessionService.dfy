/** The BLE session service and the radio lock as objects.  Each method is one region run under
    the service's mutex (or one channel operation) and does to the fields what the protocol's
    action does to its state. */
module SessionService {
  import opened Bytes
  import opened Radio
  import Reaper

  /** A mutex a waiter can give up on: a channel with one slot. */
  class BleLock {
    var slot: bool

    constructor ()
      ensures !slot
    {
      slot := false;
    }

    /** Fails if the context has ended on entry.  Otherwise returns once the slot is free or the context
        has ended; when both hold, either way. */
    method Lock(endedOnEntry: bool, ended: bool, picksSlot: bool) returns (ok: bool)
      requires endedOnEntry || ended || !slot
      modifies this
      ensures ok ==> !old(slot) && slot && !endedOnEntry
      ensures !ok ==> slot == old(slot) && (endedOnEntry || ended)
      ensures endedOnEntry ==> !ok
      ensures !endedOnEntry && !ended ==> ok
    {
      if endedOnEntry {
        return false;
      }
      if ended && (slot || !picksSlot) {
        return false;
      }
      slot := true;
      return true;
    }

    method Unlock() returns (panicked: bool)
      modifies this
      ensures panicked == !old(slot) && !slot
    {
      if slot {
        slot := false;
        return false;
      }
      return true;
    }
  }

  class BLESessionService {
    const bleMu: BleLock
    var sessions: map<SessionId, Session>
    var openSeq: nat
    var pending: Pending
    var lastUsed: map<SessionId, nat>

    function View(): Table
      reads this
    {
      Table(sessions, openSeq, pending)
    }

    /** Every session has its last use, and while one is registered the radio is taken. */
    ghost predicate Valid()
      reads this, bleMu
    {
      lastUsed.Keys == sessions.Keys && |sessions| <= 1 && (|sessions| == 1 ==> bleMu.slot)
    }

    constructor (lock: BleLock)
      ensures Valid() && bleMu == lock && View() == Table(map[], 0, Idle)
    {
      bleMu := lock;
      sessions, openSeq, pending, lastUsed := map[], 0, Idle, map[];
    }

    /** Cancels the Open before it, if that is still in flight, and becomes the newest. */
    method BeginOpen(t: Tid, owner: int) returns (number: nat, cancelled: Option<Tid>)
      requires Valid()
      modifies this
      ensures Valid() && View() == BegunOpen(old(View()), t, owner) && number == openSeq
      ensures cancelled == if old(pending).InFlight? then Some(old(pending).tid) else None
    {
      cancelled := if pending.InFlight? then Some(pending.tid) else None;
      openSeq := openSeq + 1;
      pending := InFlight(t, owner);
      number := openSeq;
    }

    method EndOpen(number: nat)
      requires Valid()
      modifies this
      ensures Valid() && View() == EndedOpen(old(View()), number)
    {
      if openSeq == number {
        pending := Idle;
      }
    }

    /** Registers the session of the Open `number`, unless a newer Open has begun.  The caller has just
        taken the radio, so no session is registered (Radio.AtMostOneSession). */
    method TryRegister(number: nat, id: SessionId, owner: int, now: nat) returns (ok: bool)
      requires Valid() && sessions == map[] && bleMu.slot
      modifies this
      ensures Valid() && (ok <==> old(openSeq) == number)
      ensures View() == if ok then Registered(old(View()), id, Session(number, owner)) else old(View())
      ensures ok ==> lastUsed == old(lastUsed)[id := now]
    {
      if openSeq != number {
        return false;
      }
      sessions := sessions[id := Session(number, owner)];
      lastUsed := lastUsed[id := now];
      return true;
    }

    method Remove(id: SessionId) returns (found: bool)
      requires Valid()
      modifies this
      ensures Valid() && (found <==> id in old(sessions))
      ensures View() == Deleted(old(View()), id)
      ensures found ==> sessions == map[]
    {
      if id !in sessions {
        assert sessions - {id} == sessions;
        return false;
      }
      assert |sessions.Keys| == |sessions.Keys - {id}| + 1;
      assert (sessions - {id}).Keys == sessions.Keys - {id};
      sessions := sessions - {id};
      lastUsed := lastUsed - {id};
      return true;
    }

    /** Deletes under the mutex, then gives the radio back; never unlocks a free radio. */
    method Close(id: SessionId) returns (ok: bool)
      requires Valid()
      modifies this, bleMu
      ensures Valid() && (ok <==> id in old(sessions))
      ensures View() == Deleted(old(View()), id)
      ensures bleMu.slot == (old(bleMu.slot) && !ok) && |sessions| == |old(sessions)| - if ok then 1 else 0
    {
      if id in sessions { OneKey(sessions.Keys, id); }
      ok := Remove(id);
      if !ok {
        return false;
      }
      var panicked := bleMu.Unlock();
      assert !panicked;
      return true;
    }

    /** The ids of the sessions that pass the closer's filter, collected in some order. */
    method Collect(role: Role) returns (ids: seq<SessionId>)
      requires Valid()
      ensures Enumerates(ids, View(), role)
    {
      ids := [];
      var rest := sessions.Keys;
      while rest != {}
        invariant rest <= sessions.Keys
        invariant forall id :: id in ids <==> id in sessions && id !in rest && (role.Remover? ==> sessions[id].owner == role.owner)
        invariant |ids| + |rest| <= |sessions|
      {
        var id :| id in rest;
        if !role.Remover? || sessions[id].owner == role.owner {
          ids := ids + [id];
        }
        rest := rest - {id};
      }
    }

    method CloseEach(ids: seq<SessionId>) returns (closed: nat)
      requires Valid()
      modifies this, bleMu
      ensures Valid() && openSeq == old(openSeq) && pending == old(pending)
      ensures Minus(sessions, old(sessions), ids)
      ensures closed == |old(sessions)| - |sessions| && bleMu.slot == (old(bleMu.slot) && closed == 0)
    {
      closed := 0;
      for i := 0 to |ids|
        invariant Valid() && openSeq == old(openSeq) && pending == old(pending)
        invariant Minus(sessions, old(sessions), ids[..i])
        invariant closed == |old(sessions)| - |sessions| && bleMu.slot == (old(bleMu.slot) && closed == 0)
      {
        MinusOne(sessions, old(sessions), ids, i);
        var ok := Close(ids[i]);
        if ok { closed := closed + 1; }
      }
      assert ids[..|ids|] == ids;
    }

    /** Run alone, leaves no session registered and gives the radio back if there was one. */
    method PreemptExisting()
      requires Valid()
      modifies this, bleMu
      ensures Valid() && View() == old(View()).(sessions := map[])
      ensures bleMu.slot == (old(bleMu.slot) && old(sessions) == map[])
    {
      var ids := Collect(Closer);
      var _ := CloseEach(ids);
    }

    /** The locked region of CloseForToken. */
    method TokenSection(owner: int) returns (ids: seq<SessionId>, cancelled: Option<Tid>)
      requires Valid()
      modifies this
      ensures Valid() && View() == TokenRemoved(old(View()), owner)
      ensures cancelled == if OwnsPending(old(View()), owner) then Some(old(pending).tid) else None
      ensures Enumerates(ids, View(), Remover(owner))
    {
      cancelled := None;
      if pending.InFlight? && pending.owner == owner {
        cancelled := Some(pending.tid);
        pending := Idle;
        openSeq := openSeq + 1;
      }
      ids := Collect(Remover(owner));
    }

    /** Run alone, keeps exactly the other owners' sessions.  Owner 0 owns nothing. */
    method CloseForToken(owner: int) returns (closed: nat, cancelled: Option<Tid>)
      requires Valid()
      modifies this, bleMu
      ensures Valid()
      ensures owner == 0 ==> View() == old(View()) && closed == 0 && cancelled == None
      ensures closed == |old(sessions)| - |sessions| && bleMu.slot == (old(bleMu.slot) && closed == 0)
      ensures owner != 0 ==> cancelled == if OwnsPending(old(View()), owner) then Some(old(pending).tid) else None
      ensures owner != 0 ==> sessions == map id | id in old(sessions) && old(sessions)[id].owner != owner :: old(sessions)[id]
      ensures owner != 0 ==> View() == TokenRemoved(old(View()), owner).(sessions := sessions)
    {
      if owner == 0 {
        return 0, None;
      }
      var ids;
      ids, cancelled := TokenSection(owner);
      closed := CloseEach(ids);
    }

    method Touch(id: SessionId, now: nat)
      requires Valid()
      modifies this
      ensures Valid() && View() == old(View())
      ensures lastUsed == if id in sessions then old(lastUsed)[id := now] else old(lastUsed)
    {
      if id in sessions {
        lastUsed := lastUsed[id := now];
      }
    }

    /** One pass of the reaper's loop: None when it is done, else how long it sleeps. */
    method ReaperPass(id: SessionId, now: nat) returns (sleep: Option<nat>)
      requires Valid() && (id in sessions ==> lastUsed[id] <= now)
      modifies this, bleMu
      ensures Valid()
      ensures sleep.Some? <==> id in old(sessions) && Reaper.Judged(old(lastUsed)[id], now).Sleep?
      ensures sleep.Some? ==> View() == old(View()) && sleep.value == Reaper.Judged(old(lastUsed)[id], now).wait
      ensures sleep == None ==> View() == Deleted(old(View()), id)
      ensures bleMu.slot == (old(bleMu.slot) && !(id in old(sessions) && sleep == None))
    {
      if id !in sessions {
        assert sessions - {id} == sessions;
        return None;
      }
      var idle := now - lastUsed[id];
      if idle >= Reaper.TTL {
        var _ := Close(id);
        return None;
      }
      return Some(Reaper.TTL - idle + Reaper.SECOND);
    }
  }

  ghost predicate Minus(now: map<SessionId, Session>, before: map<SessionId, Session>, ids: seq<SessionId>) {
    && (forall id :: id in now <==> id in before && id !in ids)
    && (forall id :: id in now ==> now[id] == before[id])
  }

  lemma MinusOne(now: map<SessionId, Session>, before: map<SessionId, Session>, ids: seq<SessionId>, i: nat)
    requires i < |ids| && Minus(now, before, ids[..i])
    ensures Minus(now - {ids[i]}, before, ids[..i + 1])
  {
    assert ids[..i + 1] == ids[..i] + [ids[i]];
  }

  lemma OneKey(keys: set<SessionId>, id: SessionId)
    requires |keys| <= 1 && id in keys
    ensures |keys| == 1 && keys == {id}
  {
    assert |keys - {id}| == 0;
  }
}
