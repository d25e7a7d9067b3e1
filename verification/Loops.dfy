/** A loop whose turns move an index about: it ends, or comes back to where it was and never does. */
module Loops {
  /** Where the loop is: at an index, or over. */
  datatype Walk = At(i: int) | Found(lo: int, hi: int) | Absent | Fault

  function Iter(f: Walk -> Walk, w: Walk, n: nat): Walk {
    if n == 0 then w else f(Iter(f, w, n - 1))
  }

  /** Once the loop has returned or panicked, it has. */
  ghost predicate Absorbs(f: Walk -> Walk) { forall w: Walk :: !w.At? ==> f(w) == w }

  /** The loop goes on only from an index in range. */
  ghost predicate Confined(f: Walk -> Walk, m: nat) { forall i :: f(At(i)).At? ==> 0 <= i < m }

  lemma {:induction false} IterOn(f: Walk -> Walk, w: Walk, n: nat, m: nat)
    ensures Iter(f, w, n + m) == Iter(f, Iter(f, w, n), m)
  {
    if m > 0 { IterOn(f, w, n, m - 1); }
  }

  lemma {:induction false} Over(f: Walk -> Walk, w: Walk, n: nat, m: nat)
    requires Absorbs(f) && n <= m && !Iter(f, w, n).At?
    ensures Iter(f, w, m) == Iter(f, w, n)
  {
    if n < m { Over(f, w, n, m - 1); }
  }

  /** A loop that is twice in the same place never ends. */
  lemma {:induction false} Cycles(f: Walk -> Walk, w: Walk, a: nat, p: nat, n: nat)
    requires Absorbs(f) && p > 0 && Iter(f, w, a).At? && Iter(f, w, a + p) == Iter(f, w, a)
    ensures Iter(f, w, n).At?
  {
    if n <= a + p {
      if !Iter(f, w, n).At? { Over(f, w, n, a + p); }
    } else {
      IterOn(f, w, a + p, n - a - p);
      IterOn(f, w, a, n - a - p);
      Cycles(f, w, a, p, n - p);
    }
  }

  function Range(m: nat): (r: set<nat>)
    ensures |r| == m && forall i :: i in r <==> 0 <= i < m
  {
    if m == 0 then {} else Range(m - 1) + {m - 1}
  }

  ghost predicate Distinct(ps: seq<nat>) { forall i, j :: 0 <= i < j < |ps| ==> ps[i] != ps[j] }

  function Values(ps: seq<nat>): set<nat> { set p | p in ps }

  lemma {:induction false} DistinctCount(ps: seq<nat>)
    requires Distinct(ps)
    ensures |Values(ps)| == |ps|
  {
    if ps != [] {
      var rest := ps[1..];
      DistinctCount(rest);
      assert ps == [ps[0]] + rest;
      assert Values(ps) == Values(rest) + {ps[0]};
      assert ps[0] !in rest;
    }
  }

  lemma ValuesBelow(ps: seq<nat>, m: nat)
    requires forall p :: p in ps ==> p < m
    ensures |Values(ps)| <= m
  {
    assert Values(ps) <= Range(m);
    assert Range(m) == Values(ps) + (Range(m) - Values(ps));
  }

  lemma Pigeonhole(ps: seq<nat>, m: nat)
    requires |ps| > m && forall p :: p in ps ==> p < m
    ensures !Distinct(ps)
  {
    ValuesBelow(ps, m);
    if Distinct(ps) { DistinctCount(ps); }
  }

  lemma InRange(f: Walk -> Walk, w: Walk, m: nat, n: nat, k: nat)
    requires Absorbs(f) && Confined(f, m) && k < n && Iter(f, w, n).At?
    ensures Iter(f, w, k).At? && 0 <= Iter(f, w, k).i < m
  {
    if !Iter(f, w, k).At? { Over(f, w, k, n); }
    if !Iter(f, w, k + 1).At? { Over(f, w, k + 1, n); }
    assert Iter(f, w, k + 1) == f(Iter(f, w, k));
  }

  /** A loop still running after more turns than it has indices runs for ever. */
  lemma NeverEnds(f: Walk -> Walk, w: Walk, m: nat, n: nat)
    requires Absorbs(f) && Confined(f, m) && Iter(f, w, m + 1).At?
    ensures Iter(f, w, n).At?
  {
    forall k | 0 <= k <= m ensures Iter(f, w, k).At? && 0 <= Iter(f, w, k).i < m { InRange(f, w, m, m + 1, k); }
    var ps: seq<nat> := seq(m + 1, k requires 0 <= k <= m => Iter(f, w, k).i);
    Pigeonhole(ps, m);
    var i, j :| 0 <= i < j < |ps| && ps[i] == ps[j];
    assert Iter(f, w, i) == At(ps[i]) && Iter(f, w, j) == At(ps[j]);
    Cycles(f, w, i, j - i, n);
  }

  lemma {:induction false} IterFront(f: Walk -> Walk, w: Walk, n: nat)
    ensures Iter(f, w, n + 1) == Iter(f, f(w), n)
  {
    if n > 0 { IterFront(f, w, n - 1); }
  }

  /** More turns than that, from the start or after one of them, come to the same. */
  lemma SameEnd(f: Walk -> Walk, w: Walk, n: nat)
    requires n > 0 && Absorbs(f) && Confined(f, n - 1)
    ensures Iter(f, w, n).At? ==> Iter(f, f(w), n).At?
    ensures !Iter(f, w, n).At? ==> Iter(f, f(w), n) == Iter(f, w, n)
  {
    IterFront(f, w, n);
    if Iter(f, w, n).At? { NeverEnds(f, w, n - 1, n + 1); } else { Over(f, w, n, n + 1); }
  }

  lemma NextTurn(f: Walk -> Walk, w: Walk, n: nat, m: nat)
    requires Absorbs(f) && n <= m && !Iter(f, w, m + 1).At?
    ensures var x := f(Iter(f, w, n));
      Iter(f, w, n + 1) == x && (if x.At? then n < m else Iter(f, w, m + 1) == x)
  {
    if !Iter(f, w, n + 1).At? { Over(f, w, n + 1, m + 1); }
  }

  /** A loop that goes round two indices. */
  lemma {:induction false} Rounds(f: Walk -> Walk, a: int, b: int, n: nat)
    requires f(At(0)) == At(a) && f(At(a)) == At(b) && f(At(b)) == At(a)
    ensures Iter(f, At(0), n) == if n == 0 then At(0) else if n % 2 == 1 then At(a) else At(b)
  {
    if n > 0 { Rounds(f, a, b, n - 1); }
  }

  lemma Third(f: Walk -> Walk, a: int, b: int, x: Walk, n: nat)
    requires Absorbs(f) && f(At(0)) == At(a) && f(At(a)) == At(b) && f(At(b)) == x && !x.At? && n >= 3
    ensures Iter(f, At(0), n) == x
  {
    assert Iter(f, At(0), 0) == At(0) && Iter(f, At(0), 1) == At(a) && Iter(f, At(0), 2) == At(b);
    Over(f, At(0), 3, n);
  }

  /** Induction along an index that only grows: two facts carried from each index to the one before it
      are the same everywhere, and a third holds wherever they fail. */
  lemma {:induction false} Along(
    e: nat -> bool, h: nat -> bool, z: nat -> bool, next: nat -> nat, last: nat -> bool, m: nat, i: nat)
    requires i <= m
    requires forall k: nat :: k <= m && last(k) ==> (e(k) <==> h(k)) && (!e(k) ==> z(k))
    requires forall k: nat :: k <= m && !last(k) ==>
      k < next(k) <= m && (e(k) <==> e(next(k))) && (h(k) <==> h(next(k))) && (z(next(k)) ==> z(k))
    ensures (e(i) <==> h(i)) && (!e(i) ==> z(i))
    decreases m - i
  {
    if !last(i) { Along(e, h, z, next, last, m, next(i)); }
  }
}
