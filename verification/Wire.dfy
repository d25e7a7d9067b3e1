/** The hand-written protobuf wire scanner: varints, the field walk of a
    RoutableMessage ("Base 128 Varints" and "Message Structure" in the Protocol Buffers
    encoding specification). */
module Wire {
  import opened Bytes
  import opened Loops

  const U64 := 0x1_0000_0000_0000_0000
  const I63 := 0x8000_0000_0000_0000

  // ----- varints -----

  /** The number a group of 7-bit limbs stands for, least significant first. */
  function Limbs(bs: seq<Byte>): nat {
    if bs == [] then 0 else bs[0] % 128 + 128 * Limbs(bs[1..])
  }

  function Pow128(k: nat): nat {
    if k == 0 then 1 else 128 * Pow128(k - 1)
  }

  /** How many bytes the varint at the front of `buf` takes: up to and including the first byte
      below 0x80, which must be among the first ten; 0 if there is none. */
  function VarintSize(buf: seq<Byte>, k: nat := 0): (n: nat)
    ensures n <= |buf| && n <= 10 && (n > 0 ==> k < n)
    decreases |buf| - k
  {
    if k >= |buf| || k >= 10 then 0
    else if buf[k] < 128 then k + 1
    else VarintSize(buf, k + 1)
  }

  /** readVarint's result; a tenth byte keeps only the bit that fits 64 bits. */
  function ReadVarint(buf: seq<Byte>): (r: (nat, nat))
    ensures r.0 < U64 && r.1 <= |buf| && r.1 <= 10
  {
    var n := VarintSize(buf);
    if n == 0 then (0, 0) else (Limbs(buf[..n]) % U64, n)
  }

  lemma {:induction false} LimbsSnoc(bs: seq<Byte>, b: Byte)
    ensures Limbs(bs + [b]) == Limbs(bs) + b % 128 * Pow128(|bs|)
  {
    if bs != [] {
      LimbsSnoc(bs[1..], b);
      assert (bs + [b])[1..] == bs[1..] + [b];
      assert 128 * (b % 128 * Pow128(|bs| - 1)) == b % 128 * Pow128(|bs|);
    }
  }

  function Pow2(k: nat): (r: nat)
    ensures r >= 1
  {
    if k == 0 then 1 else 2 * Pow2(k - 1)
  }

  /** Bitwise or. */
  function Or(a: nat, b: nat): nat
    decreases a + b
  {
    if a == 0 then b else if b == 0 then a
    else (if a % 2 == 1 || b % 2 == 1 then 1 else 0) + 2 * Or(a / 2, b / 2)
  }

  /** Or is addition when the operands share no bits. */
  lemma {:induction false} OrAdds(a: nat, x: nat, k: nat)
    requires a < Pow2(k)
    ensures Or(a, x * Pow2(k)) == a + x * Pow2(k)
  {
    if k > 0 && a > 0 && x > 0 {
      var b := x * Pow2(k - 1);
      assert x * Pow2(k) == 2 * b;
      OrAdds(a / 2, x, k - 1);
    }
  }

  lemma {:induction false} Pow128Bits(i: nat)
    ensures Pow128(i) == Pow2(7 * i)
  {
    if i > 0 {
      var j := 7 * (i - 1);
      Pow128Bits(i - 1);
      assert Pow2(j + 1) == 2 * Pow2(j) && Pow2(j + 2) == 2 * Pow2(j + 1) && Pow2(j + 3) == 2 * Pow2(j + 2);
      assert Pow2(j + 4) == 2 * Pow2(j + 3) && Pow2(j + 5) == 2 * Pow2(j + 4) && Pow2(j + 6) == 2 * Pow2(j + 5);
    }
  }

  lemma {:induction false} Pow128Grows(i: nat, j: nat)
    requires i <= j
    ensures Pow128(i) <= Pow128(j)
  {
    if i < j { Pow128Grows(i, j - 1); }
  }

  lemma NineLimbs()
    ensures Pow128(9) == I63
  {
    assert Pow128(4) == 0x1000_0000 && Pow128(5) == 0x8_0000_0000;
    assert Pow128(9) == 128 * (128 * (128 * (128 * Pow128(5))));
  }

  /** A shifted limb keeps the bits that fit 64: all of it up to the ninth, the lowest of the tenth. */
  function Shifted(limb: nat, i: nat): nat { limb * Pow128(i) % U64 }

  lemma ScaleKeepsOrder(a: nat, b: nat, p: nat)
    requires a <= b
    ensures a * p <= b * p
  {}

  lemma EarlyLimb(v: nat, limb: nat, p: nat)
    requires v < p && limb < 128 && 128 * p <= I63
    ensures limb * p % U64 == limb * p && v + limb * p < 128 * p && (v + limb * p) % U64 == v + limb * p
  {
    ScaleKeepsOrder(limb, 127, p);
    NoWrap(v, limb * p, p);
  }

  lemma NoWrap(v: nat, x: nat, p: nat)
    requires v < p && x <= 127 * p && 128 * p <= I63
    ensures x % U64 == x && v + x < 128 * p && (v + x) % U64 == v + x
  {}

  lemma LastLimb(v: nat, limb: nat)
    requires v < I63
    ensures limb * I63 % U64 == limb % 2 * I63 && (v + limb * I63) % U64 == v + limb % 2 * I63
  {
    assert limb * I63 == limb % 2 * I63 + limb / 2 * U64;
  }

  /** One turn of the loop: or-ing the next limb into the value so far. */
  lemma OrLimb(v: nat, limb: nat, i: nat)
    requires v < Pow128(i) && limb < 128 && i < 10
    ensures Or(v, Shifted(limb, i)) == (v + limb * Pow128(i)) % U64
    ensures i < 9 ==> Or(v, Shifted(limb, i)) == v + limb * Pow128(i) < Pow128(i + 1)
  {
    NineLimbs();
    Pow128Bits(i);
    if i < 9 {
      Pow128Grows(i + 1, 9);
      EarlyLimb(v, limb, Pow128(i));
      OrAdds(v, limb, 7 * i);
    } else {
      LastLimb(v, limb);
      OrAdds(v, limb % 2, 7 * i);
    }
  }

  /** The source's loop, with its shift and its bitwise or. */
  method ReadVarintLoop(buf: seq<Byte>) returns (v: nat, n: nat)
    ensures (v, n) == ReadVarint(buf)
  {
    v := 0;
    var i := 0;
    while i < |buf|
      invariant 0 <= i <= |buf| && i < 10
      invariant v == Limbs(buf[..i]) < Pow128(i)
      invariant VarintSize(buf) == VarintSize(buf, i)
    {
      var b := buf[i];
      LimbsSnoc(buf[..i], b);
      assert buf[..i] + [b] == buf[..i + 1];
      OrLimb(v, b % 128, i);
      v := Or(v, Shifted(b % 128, i));
      if b < 128 {
        return v, i + 1;
      }
      if 7 * (i + 1) >= 64 {
        return 0, 0;
      }
      i := i + 1;
    }
    return 0, 0;
  }

  /** The canonical encoding. */
  function EncodeVarint(v: nat): (bs: seq<Byte>)
    ensures |bs| >= 1
  {
    if v < 128 then [v] else [v % 128 + 128] + EncodeVarint(v / 128)
  }

  lemma {:induction false} EncodedShape(v: nat, k: nat)
    requires 1 <= k && v < Pow128(k)
    ensures |EncodeVarint(v)| <= k && Limbs(EncodeVarint(v)) == v
    ensures forall i :: 0 <= i < |EncodeVarint(v)| - 1 ==> EncodeVarint(v)[i] >= 128
    ensures EncodeVarint(v)[|EncodeVarint(v)| - 1] < 128
    decreases v
  {
    if v >= 128 {
      assert k > 1;
      assert v / 128 < Pow128(k - 1);
      EncodedShape(v / 128, k - 1);
      var e := EncodeVarint(v);
      assert e[1..] == EncodeVarint(v / 128);
      forall i | 0 <= i < |e| - 1 ensures e[i] >= 128 {
        if i > 0 { assert e[i] == e[1..][i - 1]; }
      }
    }
  }

  lemma {:induction false} SizeSkips(buf: seq<Byte>, k: nat, n: nat)
    requires k < n <= 10 && n <= |buf|
    requires (forall i :: k <= i < n - 1 ==> buf[i] >= 128) && buf[n - 1] < 128
    ensures VarintSize(buf, k) == n
    decreases n - k
  {
    if k < n - 1 { SizeSkips(buf, k + 1, n); }
  }

  lemma TenLimbs()
    ensures U64 < Pow128(10)
  {
    assert Pow128(5) == 0x8_0000_0000;
    assert Pow128(10) == 128 * (128 * (128 * (128 * (128 * Pow128(5)))));
  }

  /** readVarint inverts the canonical encoding of every uint64, whatever follows it. */
  lemma VarintRoundTrip(v: nat, rest: seq<Byte>)
    requires v < U64
    ensures ReadVarint(EncodeVarint(v) + rest) == (v, |EncodeVarint(v)|)
  {
    TenLimbs();
    EncodedShape(v, 10);
    SizedRead(EncodeVarint(v), rest);
  }

  lemma SizedRead(e: seq<Byte>, rest: seq<Byte>)
    requires 1 <= |e| <= 10 && (forall i :: 0 <= i < |e| - 1 ==> e[i] >= 128) && e[|e| - 1] < 128
    ensures ReadVarint(e + rest) == (Limbs(e) % U64, |e|)
  {
    SizeSkips(e + rest, 0, |e|);
    assert (e + rest)[..|e|] == e;
  }

  // ----- one field of the walk -----

  /** What the scan does with the field at the front of a non-empty suffix. */
  datatype Move = Skip(n: nat) | Take(lo: nat, hi: nat) | Stop

  /** The LEN prefix the walk meets at the front of `b`: where its payload starts, and its length. */
  function LenPrefix(b: seq<Byte>): (r: Option<(nat, nat)>)
    ensures r.Some? ==> 2 <= r.value.0 <= |b| && r.value.1 < U64
  {
    var (tag, n) := ReadVarint(b);
    if n == 0 || tag % 8 != 2 then None else
      var (ln, m) := ReadVarint(b[n..]);
      if m == 0 then None else Some((n + m, ln))
  }

  /** The field walk over mathematical integers. */
  function FieldMove(b: seq<Byte>, field: nat, wire: nat): (r: Move)
    requires b != []
    ensures r.Skip? ==> 1 <= r.n <= |b|
    ensures r.Take? ==> r.lo <= r.hi <= |b|
  {
    var (tag, n) := ReadVarint(b);
    if n == 0 then Stop else
    match tag % 8
    case 0 => var m := ReadVarint(b[n..]).1; if m == 0 then Stop else Skip(n + m)
    case 1 => if n + 8 > |b| then Stop else Skip(n + 8)
    case 5 => if n + 4 > |b| then Stop else Skip(n + 4)
    case 2 =>
      (match LenPrefix(b)
       case None => Stop
       case Some((lo, ln)) =>
         if lo + ln > |b| then Stop
         else if tag / 8 == field && wire == 2 then Take(lo, lo + ln)
         else Skip(lo + ln))
    case _ => Stop
  }

  /** The payload of the first LEN field numbered `field`, if the walk gets to one. */
  function Scan(b: seq<Byte>, field: nat, wire: nat := 2): Option<seq<Byte>> {
    if b == [] then None else
    match FieldMove(b, field, wire)
    case Skip(n) => Scan(b[n..], field, wire)
    case Take(lo, hi) => Some(b[lo..hi])
    case Stop => None
  }

  // ----- the same walk in the source's 64-bit integers -----

  /** Conversion to a signed 64-bit int, wrapping. */
  function Int64(x: int): (r: int)
    ensures -I63 <= r < I63
  {
    (x + I63) % U64 - I63
  }

  /** One iteration of the source's loop at index i.  Slicing out of range is a Fault. */
  function Step64(buf: seq<Byte>, w: Walk, field: nat, wire: nat): Walk {
    if !w.At? then w
    else if w.i >= |buf| then Absent
    else if w.i < 0 then Fault
    else
      var b := buf[w.i..];
      match LenPrefix(b)
      case None => Moved(FieldMove(b, field, wire), w.i)
      case Some((lo, ln)) =>
        var end := Int64(w.i + lo + Int64(ln));
        if end > |buf| then Absent
        else if ReadVarint(b).0 / 8 == field && wire == 2 then
          (if end < w.i + lo then Fault else Found(w.i + lo, end))
        else At(end)
  }

  function Moved(m: Move, i: int): Walk {
    match m
    case Skip(n) => At(i + n)
    case Take(lo, hi) => Found(i + lo, i + hi)
    case Stop => Absent
  }

  function Step(buf: seq<Byte>, w: Walk, field: nat, wire: nat): Walk
    requires w.At? ==> 0 <= w.i <= |buf|
  {
    if !w.At? then w
    else if w.i == |buf| then Absent
    else Moved(FieldMove(buf[w.i..], field, wire), w.i)
  }

  /** One turn of the source's loop. */
  function Turn(buf: seq<Byte>, field: nat, wire: nat): Walk -> Walk {
    w => Step64(buf, w, field, wire)
  }

  function Walked64(buf: seq<Byte>, field: nat, wire: nat, n: nat): Walk { Iter(Turn(buf, field, wire), At(0), n) }

  function Walked(buf: seq<Byte>, field: nat, wire: nat, n: nat): (w: Walk)
    ensures w.At? ==> 0 <= w.i <= |buf|
  {
    if n == 0 then At(0) else Step(buf, Walked(buf, field, wire, n - 1), field, wire)
  }

  /** The length prefix at index i, if there is one, does not overflow the index arithmetic. */
  predicate PrefixFits(buf: seq<Byte>, i: nat)
    requires i <= |buf|
  {
    var p := LenPrefix(buf[i..]);
    p.Some? ==> i + p.value.0 + p.value.1 < I63
  }

  /** Every length prefix the walk meets from index i on fits. */
  predicate LengthsFit(buf: seq<Byte>, field: nat, wire: nat, i: nat := 0)
    requires i <= |buf|
    decreases |buf| - i
  {
    i < |buf| ==>
      && PrefixFits(buf, i)
      && var m := FieldMove(buf[i..], field, wire);
         m.Skip? ==> LengthsFit(buf, field, wire, i + m.n)
  }

  /** The truncation guard `i+m+int(ln) > len(buf)` decides correctly exactly when the sum fits. */
  lemma GuardExact(len: nat, q: nat, ln: nat)
    requires q <= len < I63 && ln < U64
    ensures (Int64(q + Int64(ln)) > len <==> q + ln > len) <==> q + ln < I63
    ensures q + ln < I63 ==> Int64(q + Int64(ln)) == q + ln
    ensures q + ln >= I63 ==> Int64(q + Int64(ln)) < q
  {
  }

  lemma StepsAgree(buf: seq<Byte>, w: Walk, field: nat, wire: nat)
    requires |buf| < I63 && (w.At? ==> 0 <= w.i <= |buf|)
    ensures w.At? && w.i < |buf| && !PrefixFits(buf, w.i) ==> Step64(buf, w, field, wire) != Step(buf, w, field, wire)
    ensures !(w.At? && w.i < |buf| && !PrefixFits(buf, w.i)) ==> Step64(buf, w, field, wire) == Step(buf, w, field, wire)
  {
    if w.At? && w.i < |buf| {
      var b := buf[w.i..];
      if LenPrefix(b).Some? {
        GuardExact(|buf|, w.i + LenPrefix(b).value.0, LenPrefix(b).value.1);
      }
    }
  }

  /** Both walks are at the same place after n steps. */
  ghost predicate InStep(buf: seq<Byte>, field: nat, wire: nat, n: nat) {
    Walked64(buf, field, wire, n) == Walked(buf, field, wire, n)
  }

  lemma FitStep(buf: seq<Byte>, w: Walk, field: nat, wire: nat)
    requires |buf| < I63 && (w.At? ==> 0 <= w.i <= |buf| && LengthsFit(buf, field, wire, w.i))
    ensures Step64(buf, w, field, wire) == Step(buf, w, field, wire)
    ensures var w' := Step(buf, w, field, wire); w'.At? ==> 0 <= w'.i <= |buf| && LengthsFit(buf, field, wire, w'.i)
  {
    StepsAgree(buf, w, field, wire);
  }

  lemma {:induction false} FitFollows(buf: seq<Byte>, field: nat, wire: nat, n: nat)
    requires |buf| < I63 && LengthsFit(buf, field, wire)
    ensures InStep(buf, field, wire, n)
    ensures var w := Walked(buf, field, wire, n); w.At? ==> LengthsFit(buf, field, wire, w.i)
  {
    if n > 0 {
      FitFollows(buf, field, wire, n - 1);
      FitStep(buf, Walked(buf, field, wire, n - 1), field, wire);
    }
  }

  lemma StepBack(buf: seq<Byte>, w: Walk, field: nat, wire: nat)
    requires |buf| < I63 && w.At? && 0 <= w.i < |buf|
    requires Step64(buf, w, field, wire) == Step(buf, w, field, wire)
    requires var w' := Step(buf, w, field, wire); w'.At? ==> w.i < w'.i <= |buf| && LengthsFit(buf, field, wire, w'.i)
    ensures LengthsFit(buf, field, wire, w.i)
  {
    StepsAgree(buf, w, field, wire);
    var m := FieldMove(buf[w.i..], field, wire);
    assert Step(buf, w, field, wire) == Moved(m, w.i);
  }

  lemma FollowStep(buf: seq<Byte>, field: nat, wire: nat, n: nat)
    requires |buf| < I63 && Walked(buf, field, wire, n).At? && Walked(buf, field, wire, n).i < |buf|
    requires InStep(buf, field, wire, n) && InStep(buf, field, wire, n + 1)
    ensures var w, w' := Walked(buf, field, wire, n), Walked(buf, field, wire, n + 1);
      && (w'.At? ==> w.i < w'.i)
      && ((w'.At? ==> LengthsFit(buf, field, wire, w'.i)) ==> LengthsFit(buf, field, wire, w.i))
  {
    var w, w' := Walked(buf, field, wire, n), Walked(buf, field, wire, n + 1);
    assert w' == Moved(FieldMove(buf[w.i..], field, wire), w.i);
    if w'.At? ==> LengthsFit(buf, field, wire, w'.i) { StepBack(buf, w, field, wire); }
  }

  lemma {:induction false} FollowsFit(buf: seq<Byte>, field: nat, wire: nat, n: nat)
    requires |buf| < I63 && Walked(buf, field, wire, n).At?
    requires forall k :: InStep(buf, field, wire, k)
    ensures LengthsFit(buf, field, wire, Walked(buf, field, wire, n).i)
    decreases |buf| - Walked(buf, field, wire, n).i
  {
    if Walked(buf, field, wire, n).i < |buf| {
      assert InStep(buf, field, wire, n) && InStep(buf, field, wire, n + 1);
      FollowStep(buf, field, wire, n);
      if Walked(buf, field, wire, n + 1).At? { FollowsFit(buf, field, wire, n + 1); }
    }
  }

  /** The scan in 64-bit integers reads a buffer as the field walk does exactly when every
      length prefix it meets fits. */
  lemma ScanFaithfulIff(buf: seq<Byte>, field: nat, wire: nat)
    requires |buf| < I63
    ensures LengthsFit(buf, field, wire) <==> forall n :: InStep(buf, field, wire, n)
  {
    if LengthsFit(buf, field, wire) {
      forall n ensures InStep(buf, field, wire, n) { FitFollows(buf, field, wire, n); }
    }
    if forall n :: InStep(buf, field, wire, n) { FollowsFit(buf, field, wire, 0); }
  }

  /** The body of scanProtoField's loop, in its own 64-bit arithmetic. */
  method ScanIteration(buf: seq<Byte>, i: nat, field: nat, wire: nat) returns (w: Walk)
    requires i < |buf| < I63 - 18
    ensures w == Step64(buf, At(i), field, wire)
  {
    var b := buf[i..];
    var tag, n := ReadVarintLoop(b);
    if n == 0 {
      return Absent;
    }
    var fn, wt := tag / 8, tag % 8;
    if fn == field && wt == wire && wt == 2 {
      var ln, m := ReadVarintLoop(b[n..]);
      if m == 0 || Int64(i + n + m + Int64(ln)) > |buf| {
        return Absent;
      }
      var end := Int64(i + n + m + Int64(ln));
      return if end < i + n + m then Fault else Found(i + n + m, end);
    }
    match wt
    case 0 =>
      var _, m := ReadVarintLoop(b[n..]);
      return if m == 0 then Absent else At(i + n + m);
    case 1 =>
      return if i + n + 8 > |buf| then Absent else At(i + n + 8);
    case 2 =>
      var ln, m := ReadVarintLoop(b[n..]);
      if m == 0 || Int64(i + n + m + Int64(ln)) > |buf| {
        return Absent;
      }
      return At(Int64(i + n + m + Int64(ln)));
    case 5 =>
      return if i + n + 4 > |buf| then Absent else At(i + n + 4);
    case _ =>
      return Absent;
  }

  lemma ScanByStep(buf: seq<Byte>, i: nat, field: nat, wire: nat)
    requires i < |buf|
    ensures var w := Step(buf, At(i), field, wire);
      && (w.At? ==> i < w.i <= |buf| && Scan(buf[i..], field, wire) == Scan(buf[w.i..], field, wire))
      && (w.Found? ==> 0 <= w.lo <= w.hi <= |buf| && Scan(buf[i..], field, wire) == Some(buf[w.lo..w.hi]))
      && (w.Absent? ==> Scan(buf[i..], field, wire) == None)
      && !w.Fault?
  {
    var m := FieldMove(buf[i..], field, wire);
    if m.Skip? { Suffixes(buf, i, m.n); }
    if m.Take? { Slices(buf, i, m.lo, m.hi); }
  }

  lemma Suffixes(buf: seq<Byte>, i: nat, n: nat)
    requires i + n <= |buf|
    ensures buf[i..][n..] == buf[i + n..]
  {}

  lemma Slices(buf: seq<Byte>, i: nat, lo: nat, hi: nat)
    requires lo <= hi && i + hi <= |buf|
    ensures buf[i..][lo..hi] == buf[i + lo..i + hi]
  {}

  // ----- messages as field lists -----

  datatype Field =
    | VarintField(num: nat, value: nat)
    | Fixed64(num: nat, bytes: seq<Byte>)
    | LenField(num: nat, bytes: seq<Byte>)
    | Fixed32(num: nat, bytes: seq<Byte>)

  predicate WellFormed(f: Field) {
    && f.num < 0x2000_0000_0000_0000
    && match f
       case VarintField(_, v) => v < U64
       case Fixed64(_, bs) => |bs| == 8
       case LenField(_, bs) => |bs| < U64
       case Fixed32(_, bs) => |bs| == 4
  }

  function WireType(f: Field): nat {
    match f
    case VarintField(_, _) => 0
    case Fixed64(_, _) => 1
    case LenField(_, _) => 2
    case Fixed32(_, _) => 5
  }

  function Body(f: Field): seq<Byte> {
    match f
    case VarintField(_, v) => EncodeVarint(v)
    case LenField(_, bs) => EncodeVarint(|bs|) + bs
    case _ => f.bytes
  }

  function EncodeField(f: Field): (r: seq<Byte>)
    ensures |r| >= 1
  {
    EncodeVarint(f.num * 8 + WireType(f)) + Body(f)
  }

  function Encode(fs: seq<Field>): seq<Byte> {
    if fs == [] then [] else EncodeField(fs[0]) + Encode(fs[1..])
  }

  function FirstLen(fs: seq<Field>, field: nat): Option<seq<Byte>> {
    if fs == [] then None
    else if fs[0].LenField? && fs[0].num == field then Some(fs[0].bytes)
    else FirstLen(fs[1..], field)
  }

  lemma TagParts(num: nat, wire: nat)
    requires num < 0x2000_0000_0000_0000 && wire < 8
    ensures var tag := num * 8 + wire; tag % 8 == wire && tag / 8 == num && tag < U64
  {}

  lemma TagReads(f: Field, rest: seq<Byte>)
    requires WellFormed(f)
    ensures var b := EncodeField(f) + rest; var (tag, n) := ReadVarint(b);
      && n >= 1 && b[n..] == Body(f) + rest && n + |Body(f)| == |EncodeField(f)|
      && tag % 8 == WireType(f) && tag / 8 == f.num
  {
    var tag := f.num * 8 + WireType(f);
    TagParts(f.num, WireType(f));
    var e, body := EncodeVarint(tag), Body(f);
    assert EncodeField(f) + rest == e + (body + rest);
    VarintRoundTrip(tag, body + rest);
    assert (e + (body + rest))[|e|..] == body + rest;
  }

  lemma PrefixReads(t: seq<Byte>, tag: nat, l: seq<Byte>, v: seq<Byte>, rest: seq<Byte>)
    requires l != [] && t != [] && tag % 8 == 2
    requires ReadVarint(t + (l + (v + rest))) == (tag, |t|) && ReadVarint(l + (v + rest)) == (|v|, |l|)
    ensures var b := t + (l + (v + rest));
      LenPrefix(b) == Some((|t| + |l|, |v|)) && b[|t| + |l|..|t| + |l| + |v|] == v
  {
    var b := t + (l + (v + rest));
    assert b[|t|..] == l + (v + rest);
    assert b[|t| + |l|..] == v + rest;
  }

  lemma LenReads(f: Field, rest: seq<Byte>)
    requires WellFormed(f) && f.LenField?
    ensures var b := EncodeField(f) + rest; var p := LenPrefix(b);
      && p.Some? && p.value.1 == |f.bytes| && p.value.0 + p.value.1 == |EncodeField(f)|
      && b[p.value.0..p.value.0 + p.value.1] == f.bytes
  {
    var t, l := EncodeVarint(f.num * 8 + 2), EncodeVarint(|f.bytes|);
    TagReads(f, rest);
    VarintRoundTrip(|f.bytes|, f.bytes + rest);
    assert EncodeField(f) + rest == t + (l + (f.bytes + rest));
    PrefixReads(t, f.num * 8 + 2, l, f.bytes, rest);
  }

  lemma FieldMoves(f: Field, rest: seq<Byte>, field: nat)
    requires WellFormed(f)
    ensures var b := EncodeField(f) + rest; var m := FieldMove(b, field, 2);
      if f.LenField? && f.num == field
      then m.Take? && b[m.lo..m.hi] == f.bytes
      else m == Skip(|EncodeField(f)|)
  {
    TagReads(f, rest);
    match f
    case VarintField(_, v) => VarintRoundTrip(v, rest);
    case LenField(_, _) => LenReads(f, rest);
    case Fixed64(_, _) =>
    case Fixed32(_, _) =>
  }

  /** For every well-formed field list the scan returns the payload of the first LEN field with
      that number, or nothing if there is none. */
  lemma {:induction false} ScanFindsFirst(fs: seq<Field>, field: nat)
    requires forall f :: f in fs ==> WellFormed(f)
    ensures Scan(Encode(fs), field) == FirstLen(fs, field)
  {
    if fs != [] {
      var b := Encode(fs);
      FieldMoves(fs[0], Encode(fs[1..]), field);
      assert b[|EncodeField(fs[0])|..] == Encode(fs[1..]);
      ScanFindsFirst(fs[1..], field);
    }
  }

  lemma FieldFits(pre: seq<Byte>, f: Field, rest: seq<Byte>, field: nat)
    requires WellFormed(f) && |pre + EncodeField(f) + rest| < I63
    ensures var buf := pre + EncodeField(f) + rest;
      && EncodeField(f) != [] && PrefixFits(buf, |pre|)
      && var m := FieldMove(buf[|pre|..], field, 2); m.Skip? ==> m.n == |EncodeField(f)|
  {
    var buf := pre + EncodeField(f) + rest;
    assert buf[|pre|..] == EncodeField(f) + rest;
    FieldMoves(f, rest, field);
    PrefixOfField(f, rest);
  }

  /** The length prefixes of a message that fits in memory fit the index arithmetic, so the
      64-bit scan of such a message is the walk. */
  lemma {:induction false} MessagesFit(fs: seq<Field>, field: nat, pre: seq<Byte>)
    requires forall f :: f in fs ==> WellFormed(f)
    requires |pre + Encode(fs)| < I63
    ensures LengthsFit(pre + Encode(fs), field, 2, |pre|)
  {
    if fs != [] {
      var e := EncodeField(fs[0]);
      assert pre + Encode(fs) == pre + e + Encode(fs[1..]);
      FieldFits(pre, fs[0], Encode(fs[1..]), field);
      MessagesFit(fs[1..], field, pre + e);
    }
  }

  lemma PrefixOfField(f: Field, rest: seq<Byte>)
    requires WellFormed(f)
    ensures var p := LenPrefix(EncodeField(f) + rest);
      p.Some? ==> p.value.0 + p.value.1 == |EncodeField(f)|
  {
    TagReads(f, rest);
    if f.LenField? { LenReads(f, rest); }
  }
}
