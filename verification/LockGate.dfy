/** The pure half of lock-gated WiFi: signals from the car folded into a verdict. */
module LockGate {

  /** Nanoseconds since the zero time.Time. */
  type Instant = nat

  const LEASE: nat := 180_000_000_000

  /** One frame's contribution; `present` means "not confirmed absent". */
  datatype Signal = Inert | Status(locked: bool, present: bool) | Activity

  datatype Gate = Gate(haveStatus: bool, locked: bool, present: bool, activityUntil: Instant)

  const EMPTY := Gate(false, false, false, 0)

  function Applied(g: Gate, sig: Signal, now: Instant): Gate {
    match sig
    case Status(locked, present) => g.(haveStatus := true, locked := locked, present := present)
    case Activity => g.(activityUntil := now + LEASE)
    case Inert => g
  }

  predicate ShouldBeUp(g: Gate, now: Instant) {
    if !g.haveStatus then true
    else if now < g.activityUntil then true
    else !(g.locked && !g.present)
  }

  // ----- what the fold remembers -----

  datatype Event = Heard(sig: Signal, at: Instant) | Lost

  /** The gate after a history of signals and link losses. */
  function Folded(es: seq<Event>): Gate {
    if es == [] then EMPTY else Step(Folded(es[..|es| - 1]), es[|es| - 1])
  }

  function Step(g: Gate, e: Event): Gate {
    match e
    case Heard(sig, at) => Applied(g, sig, at)
    case Lost => EMPTY
  }

  predicate IsStatus(e: Event) { e.Heard? && e.sig.Status? }
  predicate IsActivity(e: Event) { e.Heard? && e.sig.Activity? }

  /** Event i is the latest status, and the link was not lost since. */
  ghost predicate LatestStatus(es: seq<Event>, i: int) {
    && 0 <= i < |es| && IsStatus(es[i])
    && forall k :: i < k < |es| ==> !es[k].Lost? && !IsStatus(es[k])
  }

  ghost predicate LatestActivity(es: seq<Event>, i: int) {
    && 0 <= i < |es| && IsActivity(es[i])
    && forall k :: i < k < |es| ==> !es[k].Lost? && !IsActivity(es[k])
  }

  /** The one situation in which the access point goes down. */
  ghost predicate DownByHistory(es: seq<Event>, now: Instant) {
    && (exists i :: LatestStatus(es, i) && es[i].sig == Status(true, false))
    && (forall i :: LatestActivity(es, i) ==> es[i].at + LEASE <= now)
  }

  /** What the folded gate says about the statuses of the history. */
  ghost predicate StatusKept(es: seq<Event>, g: Gate) {
    && (g.haveStatus <==> exists i :: LatestStatus(es, i))
    && (forall i :: LatestStatus(es, i) ==> es[i].sig == Status(g.locked, g.present))
  }

  ghost predicate ActivityKept(es: seq<Event>, g: Gate) {
    && (forall i :: LatestActivity(es, i) ==> g.activityUntil == es[i].at + LEASE)
    && (g.activityUntil != 0 ==> exists i :: LatestActivity(es, i))
  }

  lemma StatusStep(es: seq<Event>, n: nat, g: Gate)
    requires |es| == n + 1 && StatusKept(es[..n], g)
    ensures StatusKept(es, Step(g, es[n]))
  {
    var before, e := es[..n], es[n];
    forall i | 0 <= i < n ensures LatestStatus(es, i) <==> LatestStatus(before, i) && !e.Lost? && !IsStatus(e) {}
    assert LatestStatus(es, n) <==> IsStatus(e);
    if g.haveStatus && !e.Lost? && !IsStatus(e) {
      var i :| LatestStatus(before, i);
      assert LatestStatus(es, i);
    }
  }

  lemma ActivityStep(es: seq<Event>, n: nat, g: Gate)
    requires |es| == n + 1 && ActivityKept(es[..n], g)
    ensures ActivityKept(es, Step(g, es[n]))
  {
    var before, e := es[..n], es[n];
    forall i | 0 <= i < n ensures LatestActivity(es, i) <==> LatestActivity(before, i) && !e.Lost? && !IsActivity(e) {}
    assert LatestActivity(es, n) <==> IsActivity(e);
    if g.activityUntil != 0 && !e.Lost? && !IsActivity(e) {
      var i :| LatestActivity(before, i);
      assert LatestActivity(es, i);
    }
  }

  lemma {:induction false} FoldRemembers(es: seq<Event>)
    ensures StatusKept(es, Folded(es)) && ActivityKept(es, Folded(es))
  {
    if es != [] {
      var n := |es| - 1;
      FoldRemembers(es[..n]);
      StatusStep(es, n, Folded(es[..n]));
      ActivityStep(es, n, Folded(es[..n]));
    }
  }

  /** For every sequence of signals and losses, the verdict at `now` is "down" exactly when since
      the last loss some status was seen, the latest one said locked and absent, and the latest
      activity, if any, was at least a lease ago. */
  lemma VerdictByHistory(es: seq<Event>, now: Instant)
    ensures !ShouldBeUp(Folded(es), now) <==> DownByHistory(es, now)
  {
    FoldRemembers(es);
    var g := Folded(es);
    if !ShouldBeUp(g, now) {
      var i :| LatestStatus(es, i);
      assert es[i].sig == Status(true, false);
    }
  }
}
