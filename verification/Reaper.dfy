/** The idle reaper's timing: it sleeps until just after the deadline it last computed. */
module Reaper {
  import opened Bytes

  type Instant = nat  // nanoseconds

  const SECOND: nat := 1_000_000_000
  const TTL: nat := 300 * SECOND

  datatype Verdict = Reap | Sleep(wait: nat)

  /** One pass of the reaper's loop. */
  function Judged(lastUsed: Instant, now: Instant): Verdict
    requires lastUsed <= now
  {
    var idle := now - lastUsed;
    if idle >= TTL then Reap else Sleep(TTL - idle + SECOND)
  }

  /** A session that nothing else closes: when it was used last, when the reaper wakes, and when it was reaped. */
  datatype Timer = Timer(lastUsed: Instant, clock: Instant, wakeAt: Instant, reaped: Option<Instant>)

  datatype Event = Touch(at: Instant) | Wake

  /** Sleeps are exact, so a touch comes at the waking instant or before it; a tie goes either way. */
  predicate Enabled(t: Timer, e: Event) {
    t.reaped == None && (e.Touch? ==> t.clock <= e.at <= t.wakeAt)
  }

  function Ticked(t: Timer, e: Event): Timer
    requires Enabled(t, e) && t.lastUsed <= t.wakeAt
  {
    match e
    case Touch(at) => t.(lastUsed := at, clock := at)
    case Wake =>
      match Judged(t.lastUsed, t.wakeAt)
      case Reap => t.(clock := t.wakeAt, reaped := Some(t.wakeAt))
      case Sleep(wait) => t.(clock := t.wakeAt, wakeAt := t.wakeAt + wait)
  }

  /** `timers` is one history: the session is created, its reaper first looks at `first`, and so on. */
  ghost predicate IsHistory(created: Instant, first: Instant, timers: seq<Timer>, events: seq<Event>) {
    && |timers| == |events| + 1 && timers[0] == Timer(created, created, first, None)
    && forall i :: 0 <= i < |events| ==>
         Enabled(timers[i], events[i]) && timers[i].lastUsed <= timers[i].wakeAt && timers[i + 1] == Ticked(timers[i], events[i])
  }

  function LastTouch(created: Instant, events: seq<Event>): Instant {
    if events == [] then created
    else if events[|events| - 1].Touch? then events[|events| - 1].at
    else LastTouch(created, events[..|events| - 1])
  }

  ghost predicate Inv(t: Timer, lastTouch: Instant) {
    && t.lastUsed == lastTouch <= t.clock <= t.wakeAt <= lastTouch + TTL + SECOND
    && (t.reaped.Some? ==> t.reaped.value == t.wakeAt && t.reaped.value >= lastTouch + TTL)
  }

  lemma {:induction false} HistoryKeepsInv(created: Instant, first: Instant, timers: seq<Timer>, events: seq<Event>)
    requires IsHistory(created, first, timers, events) && created <= first <= created + TTL + SECOND
    ensures Inv(timers[|events|], LastTouch(created, events))
  {
    if events != [] {
      var n := |events| - 1;
      HistoryKeepsInv(created, first, timers[..|events|], events[..n]);
      assert timers[..|events|][n] == timers[n] && Enabled(timers[n], events[n]) && timers[n + 1] == Ticked(timers[n], events[n]);
    }
  }

  /** A reaped session had been idle for at least the TTL and at most a second more;
      one not reaped yet has not been idle longer than that. */
  lemma ReapedInTime(created: Instant, first: Instant, timers: seq<Timer>, events: seq<Event>)
    requires IsHistory(created, first, timers, events) && created <= first <= created + TTL + SECOND
    ensures var end, touched := timers[|events|], LastTouch(created, events);
      && (end.reaped.Some? ==> touched + TTL <= end.reaped.value <= touched + TTL + SECOND)
      && (end.reaped == None ==> end.clock <= touched + TTL + SECOND)
  {
    HistoryKeepsInv(created, first, timers, events);
  }

  /** It sleeps until exactly a second past the moment at which the session would have been idle for five minutes. */
  lemma SleepsPastDeadline(lastUsed: Instant, now: Instant)
    requires lastUsed <= now
    ensures var v := Judged(lastUsed, now);
      if now < lastUsed + 300_000_000_000 then v.Sleep? && now + v.wait == lastUsed + 301_000_000_000 else v == Reap
  {}

  /** With no more touches, the second waking at the latest reaps the session. */
  lemma SecondWakingReaps(t: Timer)
    requires t.reaped == None && t.lastUsed <= t.wakeAt
    ensures var once := Ticked(t, Wake); once.reaped.Some? || (once.lastUsed <= once.wakeAt && Ticked(once, Wake).reaped.Some?)
  {
    var once := Ticked(t, Wake);
    if once.reaped == None { assert once.wakeAt == t.lastUsed + TTL + SECOND; }
  }
}
