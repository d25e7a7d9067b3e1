/** The per-address login throttle: five failures in a minute lock an address out for two. */
module Throttle {
  import opened Bytes

  type Instant = nat  // nanoseconds

  const SECOND: nat := 1_000_000_000
  const MAX_FAILURES := 5
  const WINDOW: nat := 60 * SECOND
  const LOCKOUT: nat := 120 * SECOND

  datatype Bucket = Bucket(failures: nat, firstHit: Instant, lockUntil: Instant)

  predicate Locked(b: Option<Bucket>, now: Instant) { b.Some? && now < b.value.lockUntil }

  function Failed(b: Option<Bucket>, now: Instant): Bucket {
    if b == None || now - b.value.firstHit > WINDOW then Bucket(1, now, 0)
    else
      var n := b.value.failures + 1;
      b.value.(failures := n, lockUntil := if n >= MAX_FAILURES then now + LOCKOUT else b.value.lockUntil)
  }

  // ----- the handler's table -----

  class AuthHandler {
    var loginAttempts: map<string, Bucket>

    constructor ()
      ensures loginAttempts == map[]
    {
      loginAttempts := map[];
    }

    function BucketOf(ip: string): Option<Bucket>
      reads this
    {
      if ip in loginAttempts then Some(loginAttempts[ip]) else None
    }

    method LoginLocked(ip: string, now: Instant) returns (locked: bool, remaining: nat)
      ensures locked == Locked(BucketOf(ip), now)
      ensures locked ==> now + remaining == loginAttempts[ip].lockUntil
      ensures !locked ==> remaining == 0
    {
      if ip !in loginAttempts {
        return false, 0;
      }
      var b := loginAttempts[ip];
      if now < b.lockUntil {
        return true, b.lockUntil - now;
      }
      return false, 0;
    }

    method RecordLoginFailure(ip: string, now: Instant)
      modifies this
      ensures loginAttempts == old(loginAttempts)[ip := Failed(old(BucketOf(ip)), now)]
    {
      if ip !in loginAttempts || now - loginAttempts[ip].firstHit > WINDOW {
        loginAttempts := loginAttempts[ip := Bucket(1, now, 0)];
        return;
      }
      var b := loginAttempts[ip];
      b := b.(failures := b.failures + 1);
      if b.failures >= MAX_FAILURES {
        b := b.(lockUntil := now + LOCKOUT);
      }
      loginAttempts := loginAttempts[ip := b];
    }

    method RecordLoginSuccess(ip: string)
      modifies this
      ensures loginAttempts == old(loginAttempts) - {ip}
    {
      loginAttempts := loginAttempts - {ip};
    }

    /** One login attempt: the throttle first, the password only if it lets the attempt through.
        `password` is None for a malformed body, else whether the password is right; `done` is when
        its check finished. */
    method Login(ip: string, now: Instant, password: Option<bool>, done: Instant) returns (evaluated: bool)
      requires now <= done
      modifies this
      ensures evaluated == (!Locked(old(BucketOf(ip)), now) && password.Some?)
      ensures BucketOf(ip) == if !evaluated then old(BucketOf(ip))
                              else if password.value then None
                              else Some(Failed(old(BucketOf(ip)), done))
      ensures forall other :: other != ip ==> BucketOf(other) == old(BucketOf(other))
    {
      var locked, _ := LoginLocked(ip, now);
      if locked || password == None {
        return false;
      }
      if !password.value {
        RecordLoginFailure(ip, done);
      } else {
        RecordLoginSuccess(ip);
      }
      return true;
    }
  }

  // ----- one address's attempts, one at a time, none of them successful -----

  /** `fails` are the times of the failures that were evaluated. */
  datatype Stretch = Stretch(bucket: Option<Bucket>, fails: seq<Instant>)

  datatype Attempt = Attempt(at: Instant, done: Instant)

  function Tried(s: Stretch, a: Attempt): Stretch {
    if Locked(s.bucket, a.at) then s else Stretch(Some(Failed(s.bucket, a.done)), s.fails + [a.done])
  }

  function TriedAll(attempts: seq<Attempt>): Stretch {
    if attempts == [] then Stretch(None, []) else Tried(TriedAll(attempts[..|attempts| - 1]), attempts[|attempts| - 1])
  }

  ghost predicate OneAtATime(attempts: seq<Attempt>) {
    && (forall i :: 0 <= i < |attempts| ==> attempts[i].at <= attempts[i].done)
    && (forall i, j :: 0 <= i < j < |attempts| ==> attempts[i].done <= attempts[j].at)
  }

  // ----- invariant -----

  ghost predicate Sorted(ts: seq<Instant>) { forall i, j :: 0 <= i < j < |ts| ==> ts[i] <= ts[j] }

  /** The failures before index m end with a bucket of k failures that the next one did not join. */
  ghost predicate BucketEndsAt(fails: seq<Instant>, m: int, k: int) {
    && 1 <= k <= MAX_FAILURES && k <= m < |fails|
    && fails[m] > fails[m - k] + WINDOW
    && (k == MAX_FAILURES ==> fails[m] >= fails[m - 1] + LOCKOUT)
  }

  ghost predicate Spread(fails: seq<Instant>) {
    forall i :: 0 <= i < |fails| - 8 ==> fails[i + 8] > fails[i] + WINDOW
  }

  ghost predicate FollowsBucket(fails: seq<Instant>, m: int) { exists k :: BucketEndsAt(fails, m, k) }

  /** The bucket describes the last failures of the history. */
  ghost predicate Describes(b: Bucket, fails: seq<Instant>) {
    var n := |fails|;
    && 1 <= b.failures <= MAX_FAILURES && b.failures <= n
    && b.firstHit == fails[n - b.failures]
    && fails[n - 1] <= b.firstHit + WINDOW
    && b.lockUntil == (if b.failures == MAX_FAILURES then fails[n - 1] + LOCKOUT else 0)
    && (n > b.failures ==> FollowsBucket(fails, n - b.failures))
  }

  ghost predicate Inv(s: Stretch) {
    && Sorted(s.fails) && Spread(s.fails)
    && (s.bucket == None <==> s.fails == [])
    && (s.bucket.Some? ==> Describes(s.bucket.value, s.fails))
  }

  lemma StaysDescribed(b: Bucket, fails: seq<Instant>, at: Instant, done: Instant)
    requires Describes(b, fails) && Sorted(fails) && at <= done && b.lockUntil <= at && fails[|fails| - 1] <= at
    ensures Describes(Failed(Some(b), done), fails + [done])
  {
    var n, longer := |fails|, fails + [done];
    if done - b.firstHit > WINDOW {
      assert BucketEndsAt(longer, n, b.failures);
    } else if n > b.failures {
      var k :| BucketEndsAt(fails, n - b.failures, k);
      assert BucketEndsAt(longer, n - b.failures, k);
    }
  }

  /** The last failure is more than a minute after the one eight before it. */
  lemma LastIsSpread(b: Bucket, fails: seq<Instant>)
    requires Describes(b, fails) && Sorted(fails) && |fails| > 8
    ensures fails[|fails| - 1] > fails[|fails| - 9] + WINDOW
  {
    var n := |fails|;
    var m := n - b.failures;
    var k :| BucketEndsAt(fails, m, k);
    if k == MAX_FAILURES {
      assert fails[n - 9] <= fails[m - 1] && fails[m] <= fails[n - 1];
    } else {
      assert fails[n - 9] <= fails[m - k] && fails[m] <= fails[n - 1];
    }
  }

  lemma StaysSpread(fails: seq<Instant>, done: Instant)
    requires Spread(fails) && Sorted(fails) && (fails != [] ==> fails[|fails| - 1] <= done)
    requires |fails| >= 8 ==> done > fails[|fails| - 8] + WINDOW
    ensures Spread(fails + [done])
  {}

  lemma StaysSorted(fails: seq<Instant>, done: Instant)
    requires Sorted(fails) && (fails != [] ==> fails[|fails| - 1] <= done)
    ensures Sorted(fails + [done])
  {}

  lemma TryKeepsInv(s: Stretch, a: Attempt)
    requires Inv(s) && a.at <= a.done && (s.fails != [] ==> s.fails[|s.fails| - 1] <= a.at)
    ensures Inv(Tried(s, a))
  {
    if !Locked(s.bucket, a.at) && s.bucket.Some? {
      var fails := s.fails + [a.done];
      StaysDescribed(s.bucket.value, s.fails, a.at, a.done);
      StaysSorted(s.fails, a.done);
      if |fails| > 8 { LastIsSpread(Failed(s.bucket, a.done), fails); }
      StaysSpread(s.fails, a.done);
    }
  }

  lemma {:induction false} StretchInv(attempts: seq<Attempt>)
    requires OneAtATime(attempts)
    ensures Inv(TriedAll(attempts))
    ensures var s := TriedAll(attempts);
      s.fails != [] ==> attempts != [] && s.fails[|s.fails| - 1] <= attempts[|attempts| - 1].done
  {
    if attempts != [] {
      var before := attempts[..|attempts| - 1];
      StretchInv(before);
      TryKeepsInv(TriedAll(before), attempts[|attempts| - 1]);
    }
  }

  /** A bucket never holds more than five failures. */
  lemma NeverMoreThanFive(attempts: seq<Attempt>)
    requires OneAtATime(attempts)
    ensures var b := TriedAll(attempts).bucket; b.Some? ==> b.value.failures <= 5
  {
    StretchInv(attempts);
  }

  /** No password is checked in the two minutes after a bucket's fifth failure. */
  lemma NoCheckAfterFifth(attempts: seq<Attempt>, next: Attempt)
    requires OneAtATime(attempts + [next])
    requires var s := TriedAll(attempts); s.bucket.Some? && s.bucket.value.failures == 5
    ensures var s := TriedAll(attempts);
      && s.fails != []
      && (next.at < s.fails[|s.fails| - 1] + 120_000_000_000 <==> Tried(s, next) == s)
  {
    forall i | 0 <= i < |attempts| ensures (attempts + [next])[i] == attempts[i] {}
    assert OneAtATime(attempts);
    StretchInv(attempts);
    var s := TriedAll(attempts);
    assert |Tried(s, next).fails| == |s.fails| + (if Locked(s.bucket, next.at) then 0 else 1);
  }

  /** Any closed one-minute interval contains at most eight evaluated failures. */
  lemma AtMostEightPerMinute(attempts: seq<Attempt>, from: Instant)
    requires OneAtATime(attempts)
    ensures var fails := TriedAll(attempts).fails;
      |set i | 0 <= i < |fails| && from <= fails[i] <= from + 60_000_000_000| <= 8
  {
    StretchInv(attempts);
    var fails := TriedAll(attempts).fails;
    var hits := set i | 0 <= i < |fails| && from <= fails[i] <= from + WINDOW;
    if hits != {} {
      var m := First(fails, from);
      var run := Run(m, 8);
      assert forall i :: m + 8 <= i < |fails| ==> fails[m + 8] <= fails[i];
      assert hits <= run;
      Subset(hits, run);
    }
  }

  function First(fails: seq<Instant>, from: Instant): (m: nat)
    ensures m <= |fails| && (forall i :: 0 <= i < m ==> fails[i] < from) && (m < |fails| ==> from <= fails[m])
  {
    if fails == [] || from <= fails[0] then 0 else 1 + First(fails[1..], from)
  }

  function Run(m: int, k: nat): (r: set<int>)
    ensures |r| == k && forall i :: i in r <==> m <= i < m + k
  {
    if k == 0 then {} else Run(m, k - 1) + {m + k - 1}
  }

  lemma {:induction false} Subset(a: set<int>, b: set<int>)
    requires a <= b
    ensures |a| <= |b|
  {
    assert b == a + (b - a);
  }

  function At(seconds: nat): Attempt { Attempt(seconds * SECOND, seconds * SECOND) }

  /** Eight is reached: four failures in the first minute, five more right after it. */
  lemma EightIsReached(attempts: seq<Attempt>)
    requires attempts == [At(0), At(58), At(59), At(60)] + [At(61), At(62), At(63), At(64), At(65)]
    ensures OneAtATime(attempts)
    ensures var fails := TriedAll(attempts).fails; |fails| == 9 && fails[8] <= fails[1] + WINDOW
  {
    FirstFour(attempts);
    LastFive(attempts);
    assert attempts[..9] == attempts;
  }

  lemma FirstFour(all: seq<Attempt>)
    requires |all| >= 4 && all[0] == At(0) && all[1] == At(58) && all[2] == At(59) && all[3] == At(60)
    ensures AllTried(all, 4, TriedAll(all[..4])) && TriedAll(all[..4]).bucket == Some(Bucket(4, 0, 0))
  {
    TryMore(all, 0, Bucket(1, 0, 0));
    TryMore(all, 1, Bucket(2, 0, 0));
    TryMore(all, 2, Bucket(3, 0, 0));
    TryMore(all, 3, Bucket(4, 0, 0));
  }

  lemma LastFive(all: seq<Attempt>)
    requires |all| == 9 && AllTried(all, 4, TriedAll(all[..4])) && TriedAll(all[..4]).bucket == Some(Bucket(4, 0, 0))
    requires all[4] == At(61) && all[5] == At(62) && all[6] == At(63) && all[7] == At(64) && all[8] == At(65)
    ensures AllTried(all, 9, TriedAll(all[..9]))
  {
    TryMore(all, 4, Bucket(1, 61 * SECOND, 0));
    TryMore(all, 5, Bucket(2, 61 * SECOND, 0));
    TryMore(all, 6, Bucket(3, 61 * SECOND, 0));
    TryMore(all, 7, Bucket(4, 61 * SECOND, 0));
    TryMore(all, 8, Bucket(5, 61 * SECOND, 185 * SECOND));
  }

  ghost predicate AllTried(all: seq<Attempt>, n: nat, s: Stretch)
    requires n <= |all|
  {
    |s.fails| == n && forall i :: 0 <= i < n ==> s.fails[i] == all[i].done
  }

  lemma TryMore(all: seq<Attempt>, n: nat, b: Bucket)
    requires n < |all| && AllTried(all, n, TriedAll(all[..n]))
    requires var before := TriedAll(all[..n]).bucket; !Locked(before, all[n].at) && Failed(before, all[n].done) == b
    ensures AllTried(all, n + 1, TriedAll(all[..n + 1])) && TriedAll(all[..n + 1]).bucket == Some(b)
  {
    assert all[..n + 1][..n] == all[..n];
  }
}
