/** The lock watcher as an object: its regions, and what each call does when it runs alone. */
module LockWatchService {
  import opened Bytes
  import opened LockGate
  import opened LockWatch

  /** The verdict applied: the installed actuator is told, unless it was told the same before. */
  function SettledCore(c: Core, now: Instant): Core {
    var want := ShouldBeUp(c.gate, now);
    if c.lastWanted == Some(want) then c else Called(Decided(c, want), want, c.enforcer)
  }

  /** The actuator installed, if any, has been told the verdict at `now`. */
  predicate Matches(c: Core, now: Instant) {
    c.enforcer.Some? ==> c.enforcer.value in c.lastArg && c.lastArg[c.enforcer.value] == ShouldBeUp(c.gate, now)
  }

  class LockWatcher {
    var gate: Gate
    var enforcer: Option<Enforcer>
    var lastWanted: Option<bool>
    var lastArg: map<Enforcer, bool>

    function View(): Core
      reads this
    {
      Core(gate, enforcer, lastWanted, lastArg)
    }

    /** What was wanted last is what the installed actuator was told last. */
    ghost predicate Valid()
      reads this
    {
      lastWanted.Some? && enforcer.Some? ==> enforcer.value in lastArg && lastArg[enforcer.value] == lastWanted.value
    }

    constructor ()
      ensures Valid() && View() == START
    {
      gate, enforcer, lastWanted, lastArg := EMPTY, None, None, map[];
    }

    method Settle(now: Instant)
      requires Valid()
      modifies this
      ensures Valid() && View() == SettledCore(old(View()), now) && Matches(View(), now)
    {
      var want := ShouldBeUp(gate, now);
      var fn := enforcer;
      if lastWanted == Some(want) {
        return;
      }
      lastWanted := Some(want);
      if fn.Some? {
        lastArg := lastArg[fn.value := want];
      }
    }

    method Ingest(sig: Signal, now: Instant)
      requires Valid()
      modifies this
      ensures Valid() && gate == Applied(old(gate), sig, now) && enforcer == old(enforcer)
      ensures if sig.Inert? then View() == old(View()) else Matches(View(), now)
    {
      if sig.Inert? {
        return;
      }
      gate := Applied(gate, sig, now);
      Settle(now);
    }

    method ReportExternal(locked: bool, present: bool, now: Instant)
      requires Valid()
      modifies this
      ensures Valid() && gate == Applied(old(gate), Status(locked, present), now) && enforcer == old(enforcer)
      ensures Matches(View(), now)
    {
      gate := Applied(gate, Status(locked, present), now);
      Settle(now);
    }

    /** Losing the link forgets everything, and so raises the access point at any time. */
    method NoteSessionLost(now: Instant)
      requires Valid()
      modifies this
      ensures Valid() && gate == EMPTY && enforcer == old(enforcer)
      ensures enforcer.Some? ==> enforcer.value in lastArg && lastArg[enforcer.value]
    {
      gate := EMPTY;
      Settle(now);
    }

    /** A new actuator is told the verdict even if the old one, or none, was told the same. */
    method SetEnforcer(fn: Option<Enforcer>, now: Instant)
      requires Valid()
      modifies this
      ensures Valid() && gate == old(gate) && enforcer == fn && Matches(View(), now)
      ensures fn.Some? ==> lastArg == old(lastArg)[fn.value := ShouldBeUp(gate, now)]
    {
      enforcer := fn;
      lastWanted := None;
      Settle(now);
    }

    /** One attachment: nothing to attach to, a failed subscription, or a stream of signals until it
        ends.  However it ends, the gate is empty and the access point has been told to be up. */
    method AttachAndPump(live: bool, subscribed: bool, heard: seq<(Signal, Instant)>, end: Instant) returns (ok: bool)
      requires Valid()
      modifies this
      ensures Valid() && ok == (!live || subscribed) && enforcer == old(enforcer)
      ensures gate == EMPTY
      ensures enforcer.Some? ==> enforcer.value in lastArg && lastArg[enforcer.value]
    {
      ok := !live || subscribed;
      if live && subscribed {
        for i := 0 to |heard|
          invariant Valid() && enforcer == old(enforcer)
        {
          Ingest(heard[i].0, heard[i].1);
        }
      }
      NoteSessionLost(end);
    }
  }

  // ----- the supervisor's retry delay -----

  const RETRY_DELAY: nat := 10_000_000_000
  const MAX_BACKOFF: nat := 300_000_000_000

  function NextDelay(delay: nat, ok: bool): nat {
    if ok then RETRY_DELAY else if delay * 2 > MAX_BACKOFF then MAX_BACKOFF else delay * 2
  }

  /** The delay after a sequence of attempts. */
  function DelayAfter(attempts: seq<bool>): nat {
    if attempts == [] then RETRY_DELAY else NextDelay(DelayAfter(attempts[..|attempts| - 1]), attempts[|attempts| - 1])
  }

  function FailuresInARow(attempts: seq<bool>): nat {
    if attempts == [] || attempts[|attempts| - 1] then 0 else 1 + FailuresInARow(attempts[..|attempts| - 1])
  }

  function Pow2(n: nat): nat { if n == 0 then 1 else 2 * Pow2(n - 1) }

  /** The delay doubles with every failure in a row, up to the cap, and starts over after any other attempt. */
  lemma {:induction false} DelayIsBackoff(attempts: seq<bool>)
    ensures var d := RETRY_DELAY * Pow2(FailuresInARow(attempts));
      DelayAfter(attempts) == if d > MAX_BACKOFF then MAX_BACKOFF else d
  {
    if attempts != [] { DelayIsBackoff(attempts[..|attempts| - 1]); }
  }
}
