/** What scanProtoField really does on any buffer, and the routing keys it extracts: a payload, a
    panic, or no return at all.  The keys are those of the field walk except on buffers with a
    length prefix that overflows, and then exactly when the overflow is harmless. */
module Correlators {
  import opened Bytes
  import opened Wire
  import opened Loops

  /** No slice comes near 2^63 bytes. */
  predicate InMemory(b: seq<Byte>) { |b| < I63 - 18 }

  // ----- the loop's fate -----

  lemma TurnIsLoop(buf: seq<Byte>, field: nat, wire: nat)
    ensures Absorbs(Turn(buf, field, wire)) && Confined(Turn(buf, field, wire), |buf|)
  {}

  lemma StepFinds(buf: seq<Byte>, w: Walk, field: nat, wire: nat)
    requires !w.Found?
    ensures var r := Step64(buf, w, field, wire); r.Found? ==> 0 <= r.lo <= r.hi <= |buf|
  {}

  // ----- what a call comes to -----

  datatype Scanned = Got(payload: Option<seq<Byte>>) | Panics | Hangs

  /** Where the loop is left after more turns than the buffer has bytes. */
  function Final(buf: seq<Byte>, i: int, field: nat, wire: nat): Walk {
    Iter(Turn(buf, field, wire), At(i), |buf| + 1)
  }

  function Meaning(buf: seq<Byte>, w: Walk): Scanned {
    match w
    case At(_) => Hangs
    case Found(lo, hi) => if 0 <= lo <= hi <= |buf| then Got(Some(buf[lo..hi])) else Panics
    case Absent => Got(None)
    case Fault => Panics
  }

  function Outcome(buf: seq<Byte>, i: int, field: nat, wire: nat): Scanned { Meaning(buf, Final(buf, i, field, wire)) }

  function Scan64(buf: seq<Byte>, field: nat, wire: nat := 2): Scanned { Outcome(buf, 0, field, wire) }

  /** A call hangs exactly when no number of turns ends its loop. */
  lemma HangsIff(buf: seq<Byte>, field: nat, wire: nat)
    ensures Scan64(buf, field, wire) == Hangs <==> forall n :: Walked64(buf, field, wire, n).At?
  {
    TurnIsLoop(buf, field, wire);
    if Scan64(buf, field, wire) == Hangs {
      forall n ensures Walked64(buf, field, wire, n).At? {
        NeverEnds(Turn(buf, field, wire), At(0), |buf|, n);
      }
    } else {
      assert !Walked64(buf, field, wire, |buf| + 1).At?;
    }
  }

  /** The first turn of the loop decides, or leaves it to the rest. */
  lemma OutcomeStep(buf: seq<Byte>, i: int, field: nat, wire: nat)
    ensures var w := Step64(buf, At(i), field, wire);
      Outcome(buf, i, field, wire) == if w.At? then Outcome(buf, w.i, field, wire) else Meaning(buf, w)
  {
    var f, n := Turn(buf, field, wire), |buf| + 1;
    TurnIsLoop(buf, field, wire);
    assert f(At(i)) == Step64(buf, At(i), field, wire);
    SameEnd(f, At(i), n);
    if !f(At(i)).At? { Over(f, f(At(i)), 0, n); }
  }

  /** The loop gets to index i in its nth turn. */
  ghost predicate Reached(buf: seq<Byte>, field: nat, wire: nat, n: nat, i: int) {
    n <= |buf| && Walked64(buf, field, wire, n) == At(i)
  }

  lemma TurnTaken(buf: seq<Byte>, field: nat, wire: nat, n: nat, i: int)
    requires Reached(buf, field, wire, n, i) && Scan64(buf, field, wire) != Hangs
    ensures var w := Step64(buf, At(i), field, wire);
      if w.At? then Reached(buf, field, wire, n + 1, w.i) else Scan64(buf, field, wire) == Meaning(buf, w)
  {
    TurnIsLoop(buf, field, wire);
    NextTurn(Turn(buf, field, wire), At(0), n, |buf|);
  }

  method TakeTurn(buf: seq<Byte>, field: nat, wire: nat, ghost n: nat, i: int) returns (w: Walk)
    requires InMemory(buf) && i < |buf| && Reached(buf, field, wire, n, i) && Scan64(buf, field, wire) != Hangs
    ensures if w.At? then Reached(buf, field, wire, n + 1, w.i) else Scan64(buf, field, wire) == Meaning(buf, w)
    ensures w.Found? ==> 0 <= w.lo <= w.hi <= |buf|
  {
    TurnTaken(buf, field, wire, n, i);
    StepFinds(buf, At(i), field, wire);
    if i < 0 {
      return Fault;
    }
    w := ScanIteration(buf, i, field, wire);
  }

  /** scanProtoField on every buffer on which it returns or panics. */
  method ScanProtoField(buf: seq<Byte>, field: nat, wire: nat) returns (r: Scanned)
    requires InMemory(buf) && Scan64(buf, field, wire) != Hangs
    ensures r == Scan64(buf, field, wire)
  {
    var i: int := 0;
    ghost var n := 0;
    while i < |buf|
      invariant Reached(buf, field, wire, n, i)
      decreases |buf| - n
    {
      var w := TakeTurn(buf, field, wire, n, i);
      if w.Found? {
        return Got(Some(buf[w.lo..w.hi]));
      } else if w.Absent? {
        return Got(None);
      } else if w.Fault? {
        return Panics;
      }
      i, n := w.i, n + 1;
    }
    TurnTaken(buf, field, wire, n, i);
    return Got(None);
  }

  // ----- when the scan reads what is there -----

  /** nil and the empty slice read the same. */
  function OrEmpty(o: Option<seq<Byte>>): seq<Byte> { if o.Some? then o.value else [] }

  function Payload(b: seq<Byte>, field: nat): seq<Byte> { OrEmpty(Scan(b, field)) }

  predicate Reads(r: Scanned, bytes: seq<Byte>) { r.Got? && OrEmpty(r.payload) == bytes }

  /** Where the wrapped sum sends the loop from a length prefix that does not fit. */
  function JumpBack(buf: seq<Byte>, i: nat): int
    requires i <= |buf| && LenPrefix(buf[i..]).Some?
  {
    var (lo, ln) := LenPrefix(buf[i..]).value;
    Int64(i + lo + Int64(ln))
  }

  /** The lengths met from index i on fit; or the first that does not is another field's, and the
      loop, sent back into bytes it has been over, comes out of them with nothing. */
  predicate Harmless(buf: seq<Byte>, field: nat, i: nat := 0)
    requires i <= |buf|
    decreases |buf| - i
  {
    i < |buf| ==>
      if PrefixFits(buf, i) then
        var m := FieldMove(buf[i..], field, 2); m.Skip? ==> Harmless(buf, field, i + m.n)
      else
        ReadVarint(buf[i..]).0 / 8 != field && Reads(Outcome(buf, JumpBack(buf, i), field, 2), [])
  }

  lemma {:induction false} FitIsHarmless(buf: seq<Byte>, field: nat, i: nat)
    requires i <= |buf| && LengthsFit(buf, field, 2, i)
    ensures Harmless(buf, field, i)
    decreases |buf| - i
  {
    if i < |buf| {
      var m := FieldMove(buf[i..], field, 2);
      if m.Skip? { FitIsHarmless(buf, field, i + m.n); }
    }
  }

  /** At a prefix that does not fit, the walk stops and the loop panics or goes back. */
  lemma UnfitOutcome(buf: seq<Byte>, field: nat, i: nat)
    requires i < |buf| < I63 && !PrefixFits(buf, i)
    ensures Scan(buf[i..], field) == None
    ensures Outcome(buf, i, field, 2)
         == if ReadVarint(buf[i..]).0 / 8 == field then Panics else Outcome(buf, JumpBack(buf, i), field, 2)
  {
    var p := LenPrefix(buf[i..]).value;
    GuardExact(|buf|, i + p.0, p.1);
    OutcomeStep(buf, i, field, 2);
  }

  lemma FitOutcome(buf: seq<Byte>, field: nat, i: nat)
    requires i < |buf| < I63 && PrefixFits(buf, i)
    ensures var m := FieldMove(buf[i..], field, 2);
      if m.Skip? then Outcome(buf, i, field, 2) == Outcome(buf, i + m.n, field, 2) && Scan(buf[i..], field) == Scan(buf[i + m.n..], field)
      else Outcome(buf, i, field, 2) == Got(Scan(buf[i..], field))
  {
    StepsAgree(buf, At(i), field, 2);
    ScanByStep(buf, i, field, 2);
    OutcomeStep(buf, i, field, 2);
  }

  lemma EndOutcome(buf: seq<Byte>, field: nat)
    ensures Outcome(buf, |buf|, field, 2) == Got(None)
  {
    OutcomeStep(buf, |buf|, field, 2);
  }

  predicate Exact(buf: seq<Byte>, field: nat, i: nat)
    requires i <= |buf|
  {
    Reads(Outcome(buf, i, field, 2), Payload(buf[i..], field))
  }

  lemma ExactFit(buf: seq<Byte>, field: nat, i: nat)
    requires i < |buf| < I63 && PrefixFits(buf, i)
    ensures var m := FieldMove(buf[i..], field, 2);
      if m.Skip? then (Exact(buf, field, i) <==> Exact(buf, field, i + m.n)) && Payload(buf[i..], field) == Payload(buf[i + m.n..], field)
      else Exact(buf, field, i)
  {
    FitOutcome(buf, field, i);
  }

  lemma ExactUnfit(buf: seq<Byte>, field: nat, i: nat)
    requires i < |buf| < I63 && !PrefixFits(buf, i)
    ensures Payload(buf[i..], field) == []
    ensures Exact(buf, field, i) <==> ReadVarint(buf[i..]).0 / 8 != field && Reads(Outcome(buf, JumpBack(buf, i), field, 2), [])
  {
    UnfitOutcome(buf, field, i);
  }

  lemma ExactEnd(buf: seq<Byte>, field: nat)
    ensures Exact(buf, field, |buf|)
  {
    EndOutcome(buf, field);
  }

  /** The walk goes no further than index i. */
  predicate Last(buf: seq<Byte>, field: nat, i: nat)
    requires i <= |buf|
  {
    i == |buf| || !PrefixFits(buf, i) || !FieldMove(buf[i..], field, 2).Skip?
  }

  function Next(buf: seq<Byte>, field: nat, i: nat): (j: nat)
    requires i <= |buf| && !Last(buf, field, i)
    ensures i < j <= |buf|
  {
    i + FieldMove(buf[i..], field, 2).n
  }

  lemma ExactNext(buf: seq<Byte>, field: nat, i: nat)
    requires i <= |buf| < I63 && !Last(buf, field, i)
    ensures Exact(buf, field, i) <==> Exact(buf, field, Next(buf, field, i))
    ensures Payload(buf[i..], field) == Payload(buf[Next(buf, field, i)..], field)
  {
    ExactFit(buf, field, i);
  }

  lemma HarmlessNext(buf: seq<Byte>, field: nat, i: nat)
    requires i <= |buf| && !Last(buf, field, i)
    ensures Harmless(buf, field, i) <==> Harmless(buf, field, Next(buf, field, i))
  {}

  lemma ExactLast(buf: seq<Byte>, field: nat, i: nat)
    requires i <= |buf| < I63 && Last(buf, field, i)
    ensures Exact(buf, field, i) <==> Harmless(buf, field, i)
    ensures !Exact(buf, field, i) ==> Payload(buf[i..], field) == []
  {
    if i == |buf| { ExactEnd(buf, field); } else if PrefixFits(buf, i) { ExactFit(buf, field, i); } else { ExactUnfit(buf, field, i); }
  }

  /** The scan in 64-bit integers returns what the field walk finds if and only if every length it
      meets fits or the first that does not is harmless; where it does not, the walk finds nothing. */
  lemma ScanExactIff(buf: seq<Byte>, field: nat, i: nat)
    requires i <= |buf| < I63
    ensures Exact(buf, field, i) <==> Harmless(buf, field, i)
    ensures !Exact(buf, field, i) ==> Payload(buf[i..], field) == []
  {
    var e := (k: nat) => k <= |buf| && Exact(buf, field, k);
    var h := (k: nat) => k <= |buf| && Harmless(buf, field, k);
    var z := (k: nat) => k <= |buf| && Payload(buf[k..], field) == [];
    var last := (k: nat) => k <= |buf| && Last(buf, field, k);
    var next := (k: nat) => if k <= |buf| && !Last(buf, field, k) then Next(buf, field, k) else 0;
    forall k: nat | k <= |buf| && last(k) ensures (e(k) <==> h(k)) && (!e(k) ==> z(k)) { ExactLast(buf, field, k); }
    forall k: nat | k <= |buf| && !last(k)
      ensures k < next(k) <= |buf| && (e(k) <==> e(next(k))) && (h(k) <==> h(next(k))) && (z(next(k)) ==> z(k))
    {
      ExactNext(buf, field, k);
      HarmlessNext(buf, field, k);
    }
    Along(e, h, z, next, last, |buf|, i);
  }

  // ----- the four extractors, as two keys -----

  /** The two correlators of a message; either may be empty. */
  datatype Key = Key(addr: seq<Byte>, uuid: seq<Byte>)

  datatype Extract<T> = Value(value: T) | Panicked | Stuck

  function Extracted(r: Scanned): Extract<seq<Byte>> {
    match r
    case Got(p) => Value(OrEmpty(p))
    case Panics => Panicked
    case Hangs => Stuck
  }

  function Bytes64(b: seq<Byte>, field: nat): Extract<seq<Byte>> { Extracted(Scan64(b, field)) }

  /** The routing address (field 2) of the destination in that field. */
  function Address64(b: seq<Byte>, field: nat): Extract<seq<Byte>> {
    match Bytes64(b, field)
    case Value(destination) => Bytes64(destination, 2)
    case r => r
  }

  /** The address is extracted first, then the uuid. */
  function Key64(b: seq<Byte>, addrField: nat, uuidField: nat): Extract<Key> {
    match Address64(b, addrField)
    case Panicked => Panicked
    case Stuck => Stuck
    case Value(addr) =>
      match Bytes64(b, uuidField)
      case Panicked => Panicked
      case Stuck => Stuck
      case Value(uuid) => Value(Key(addr, uuid))
  }

  /** from_destination is field 7 and uuid field 51; to_destination is 6 and request_uuid 50. */
  function RequestKey64(b: seq<Byte>): Extract<Key> { Key64(b, 7, 51) }
  function ReplyKey64(b: seq<Byte>): Extract<Key> { Key64(b, 6, 50) }

  /** The keys the message carries by the field walk. */
  function WalkKey(b: seq<Byte>, addrField: nat, uuidField: nat): Key {
    Key(Payload(Payload(b, addrField), 2), Payload(b, uuidField))
  }

  function RequestKey(b: seq<Byte>): Key { WalkKey(b, 7, 51) }
  function ReplyKey(b: seq<Byte>): Key { WalkKey(b, 6, 50) }

  /** Both scans are harmless, or the first brings back a wrong destination that has no address. */
  predicate AddressHarmless(b: seq<Byte>, field: nat) {
    if Harmless(b, field) then Harmless(Payload(b, field), 2) else Address64(b, field) == Value([])
  }

  predicate KeyHarmless(b: seq<Byte>, addrField: nat, uuidField: nat) {
    AddressHarmless(b, addrField) && Harmless(b, uuidField)
  }

  lemma {:induction false} ScanShrinks(b: seq<Byte>, field: nat)
    ensures |Payload(b, field)| <= |b|
  {
    if b != [] {
      var m := FieldMove(b, field, 2);
      if m.Skip? { ScanShrinks(b[m.n..], field); }
    }
  }

  lemma BytesExact(b: seq<Byte>, field: nat)
    requires |b| < I63
    ensures Bytes64(b, field) == Value(Payload(b, field)) <==> Harmless(b, field)
    ensures !Harmless(b, field) ==> Payload(b, field) == []
  {
    assert b[0..] == b;
    ScanExactIff(b, field, 0);
  }

  lemma AddressExact(b: seq<Byte>, field: nat)
    requires |b| < I63
    ensures Address64(b, field) == Value(Payload(Payload(b, field), 2)) <==> AddressHarmless(b, field)
    ensures !AddressHarmless(b, field) ==> Payload(Payload(b, field), 2) == []
  {
    BytesExact(b, field);
    ScanShrinks(b, field);
    BytesExact(Payload(b, field), 2);
  }

  /** The key the source routes by is the key the message carries if and only if it is harmless;
      and where a key is extracted that is not, it has bytes where the message has none. */
  lemma KeyExactIff(b: seq<Byte>, addrField: nat, uuidField: nat)
    requires |b| < I63
    ensures Key64(b, addrField, uuidField) == Value(WalkKey(b, addrField, uuidField)) <==> KeyHarmless(b, addrField, uuidField)
    ensures Key64(b, addrField, uuidField).Value? && !KeyHarmless(b, addrField, uuidField) ==>
      var got, has := Key64(b, addrField, uuidField).value, WalkKey(b, addrField, uuidField);
      (got.addr != [] && has.addr == []) || (got.uuid != [] && has.uuid == [])
  {
    AddressExact(b, addrField);
    BytesExact(b, uuidField);
  }

  /** In particular where every length met fits. */
  lemma FittingKey(b: seq<Byte>, addrField: nat, uuidField: nat)
    requires LengthsFit(b, addrField, 2) && LengthsFit(Payload(b, addrField), 2, 2) && LengthsFit(b, uuidField, 2)
    ensures KeyHarmless(b, addrField, uuidField)
  {
    FitIsHarmless(b, addrField, 0);
    FitIsHarmless(Payload(b, addrField), 2, 0);
    FitIsHarmless(b, uuidField, 0);
  }

  // ----- the extractors as methods -----

  lemma NilHasNoAddress()
    ensures Bytes64([], 2) == Value([])
  {
    EndOutcome([], 2);
  }

  /** extractRoutableFromRoutingAddress and extractRoutableToRoutingAddress, when they return or panic. */
  method ExtractAddress(buf: seq<Byte>, field: nat) returns (r: Extract<seq<Byte>>)
    requires InMemory(buf) && Address64(buf, field) != Stuck
    ensures r == Address64(buf, field)
  {
    var destination := ScanProtoField(buf, field, 2);
    if destination.Panics? {
      return Panicked;
    }
    if destination.payload == None {
      NilHasNoAddress();
      return Value([]);
    }
    var address := ScanProtoField(destination.payload.value, 2, 2);
    return Extracted(address);
  }

  /** Both correlators, the address first. */
  method ExtractKey(buf: seq<Byte>, addrField: nat, uuidField: nat) returns (r: Extract<Key>)
    requires InMemory(buf) && Key64(buf, addrField, uuidField) != Stuck
    ensures r == Key64(buf, addrField, uuidField)
  {
    var addr := ExtractAddress(buf, addrField);
    if addr.Panicked? {
      return Panicked;
    }
    var uuid := ScanProtoField(buf, uuidField, 2);
    if uuid.Panics? {
      return Panicked;
    }
    return Value(Key(addr.value, OrEmpty(uuid.payload)));
  }

  // ----- messages built from field lists -----

  lemma EncodedBytes(fs: seq<Field>, field: nat)
    requires (forall f :: f in fs ==> WellFormed(f)) && |Encode(fs)| < I63
    ensures Bytes64(Encode(fs), field) == Value(OrEmpty(FirstLen(fs, field)))
    ensures Payload(Encode(fs), field) == OrEmpty(FirstLen(fs, field))
  {
    var b := Encode(fs);
    assert [] + b == b;
    MessagesFit(fs, field, []);
    FitIsHarmless(b, field, 0);
    BytesExact(b, field);
    ScanFindsFirst(fs, field);
  }

  lemma EncodedAddress(fs: seq<Field>, field: nat, destination: seq<Field>)
    requires (forall f :: f in fs + destination ==> WellFormed(f)) && |Encode(fs)| < I63
    requires OrEmpty(FirstLen(fs, field)) == Encode(destination)
    ensures Address64(Encode(fs), field) == Value(OrEmpty(FirstLen(destination, 2)))
    ensures Payload(Payload(Encode(fs), field), 2) == OrEmpty(FirstLen(destination, 2))
  {
    EncodedBytes(fs, field);
    ScanShrinks(Encode(fs), field);
    EncodedBytes(destination, 2);
  }

  /** For every message built from a field list, the key extracted from it, by the source's scan and by
      the walk alike, is the routing address of its destination and its uuid; a message without the
      destination (`destination` is then []) or without the uuid has none. */
  lemma CorrelatorsRead(fs: seq<Field>, destination: seq<Field>, addrField: nat, uuidField: nat)
    requires (forall f :: f in fs + destination ==> WellFormed(f)) && |Encode(fs)| < I63
    requires OrEmpty(FirstLen(fs, addrField)) == Encode(destination)
    ensures var key := Key(OrEmpty(FirstLen(destination, 2)), OrEmpty(FirstLen(fs, uuidField)));
      Key64(Encode(fs), addrField, uuidField) == Value(key) && WalkKey(Encode(fs), addrField, uuidField) == key
  {
    EncodedAddress(fs, addrField, destination);
    EncodedBytes(fs, uuidField);
  }

  // ----- frames on which the scan goes wrong -----

  /** The ten bytes c ff ff ff ff ff ff ff ff 01, which read as 2^64 - 256 + c. */
  predicate Huge(h: seq<Byte>, c: Byte) {
    c >= 128 && |h| == 10 && h[0] == c && h[9] == 1 && forall i :: 1 <= i < 9 ==> h[i] == 0xff
  }

  lemma LimbsFrom(h: seq<Byte>, i: nat)
    requires i < |h|
    ensures Limbs(h[i..]) == h[i] % 128 + 128 * Limbs(h[i + 1..])
  {
    assert h[i..][1..] == h[i + 1..];
  }

  lemma HugeTail(h: seq<Byte>, c: Byte)
    requires Huge(h, c)
    ensures Limbs(h[5..]) == 0x1fff_ffff
  {
    LimbsFrom(h, 9);
    LimbsFrom(h, 8);
    LimbsFrom(h, 7);
    LimbsFrom(h, 6);
    LimbsFrom(h, 5);
  }

  lemma HugeLimbs(h: seq<Byte>, c: Byte)
    requires Huge(h, c)
    ensures Limbs(h) == U64 - 256 + c
  {
    HugeTail(h, c);
    LimbsFrom(h, 4);
    LimbsFrom(h, 3);
    LimbsFrom(h, 2);
    LimbsFrom(h, 1);
    LimbsFrom(h, 0);
    assert h[0..] == h;
  }

  lemma HugeReads(h: seq<Byte>, c: Byte, rest: seq<Byte>)
    requires Huge(h, c)
    ensures ReadVarint(h + rest) == (U64 - 256 + c, 10)
  {
    HugeLimbs(h, c);
    SizedRead(h, rest);
  }

  lemma SmallReads(c: Byte, rest: seq<Byte>)
    requires c < 128
    ensures ReadVarint([c] + rest) == (c, 1)
  {
    SizedRead([c], rest);
    assert [c][1..] == [];
  }

  lemma SmallStep(buf: seq<Byte>, i: nat, tag: Byte, n: Byte)
    requires Small(buf, i, tag, n)
    ensures PrefixFits(buf, i) && LenPrefix(buf[i..]) == Some((2, n)) && ReadVarint(buf[i..]).0 == tag
  {
    assert buf[i..] == [tag] + buf[i + 1..] && buf[i..][1..] == [n] + buf[i + 2..];
    SmallReads(tag, buf[i + 1..]);
    SmallReads(n, buf[i + 2..]);
  }

  lemma HugeJump(q: nat, c: Byte)
    requires 256 <= q + c < I63
    ensures Int64(q + Int64(U64 - 256 + c)) == q - 256 + c
  {
    assert Int64(U64 - 256 + c) == c - 256;
  }

  lemma HugePrefix(b: seq<Byte>, tag: Byte, c: Byte)
    requires |b| >= 11 && tag < 128 && tag % 8 == 2 && b[0] == tag && Huge(b[1..11], c)
    ensures LenPrefix(b) == Some((11, U64 - 256 + c)) && ReadVarint(b).0 == tag
  {
    assert b == [tag] + b[1..] && b[1..] == b[1..11] + b[11..];
    SmallReads(tag, b[1..]);
    HugeReads(b[1..11], c, b[11..]);
  }

  /** A field with a one-byte tag and a length that does not fit: the loop goes back 256 - c bytes
      from the end of the prefix. */
  lemma HugeStep(buf: seq<Byte>, i: nat, tag: Byte, c: Byte)
    requires i + 11 <= |buf| < I63 - 256 && tag < 128 && tag % 8 == 2 && i + c as int >= 245
    requires buf[i] == tag && Huge(buf[i + 1..i + 11], c)
    ensures !PrefixFits(buf, i) && LenPrefix(buf[i..]).Some? && JumpBack(buf, i) == i - 245 + c && ReadVarint(buf[i..]).0 == tag
  {
    Slices(buf, i, 1, 11);
    HugePrefix(buf[i..], tag, c);
    HugeJump(i + 11, c);
  }

  lemma SmallMove(b: seq<Byte>, tag: Byte, n: Byte, field: nat)
    requires 2 + n as int <= |b| && tag % 8 == 2 && ReadVarint(b).0 == tag && LenPrefix(b) == Some((2, n))
    ensures FieldMove(b, field, 2) == if tag / 8 == field then Take(2, 2 + n) else Skip(2 + n)
  {}

  /** A field with a one-byte tag and a one-byte length fits. */
  predicate Small(buf: seq<Byte>, i: nat, tag: Byte, n: Byte) {
    i + 2 + n as int <= |buf| < I63 && tag < 128 && tag % 8 == 2 && n < 128 && buf[i] == tag && buf[i + 1] == n
  }

  lemma SmallFound(buf: seq<Byte>, i: nat, tag: Byte, n: Byte)
    requires Small(buf, i, tag, n)
    ensures Outcome(buf, i, tag / 8, 2) == Got(Some(buf[i + 2..i + 2 + n]))
  {
    SmallStep(buf, i, tag, n);
    SmallMove(buf[i..], tag, n, tag / 8);
    FitOutcome(buf, tag / 8, i);
    Slices(buf, i, 2, 2 + n);
  }

  lemma SmallSkipped(buf: seq<Byte>, i: nat, tag: Byte, n: Byte, field: nat)
    requires Small(buf, i, tag, n) && tag / 8 != field
    ensures Outcome(buf, i, field, 2) == Outcome(buf, i + 2 + n, field, 2)
    ensures Payload(buf[i..], field) == Payload(buf[i + 2 + n..], field)
  {
    SmallStep(buf, i, tag, n);
    SmallMove(buf[i..], tag, n, field);
    FitOutcome(buf, field, i);
  }

  /** A tag with wire type 7 ends the scan. */
  lemma BadTag(buf: seq<Byte>, i: nat, field: nat)
    requires i < |buf| < I63 && buf[i] == 7
    ensures Outcome(buf, i, field, 2) == Got(None)
  {
    BadTagStops(buf[i..], 7, field);
    FitOutcome(buf, field, i);
  }

  lemma BadTagStops(b: seq<Byte>, tag: Byte, field: nat)
    requires b != [] && b[0] == tag == 7
    ensures LenPrefix(b) == None && FieldMove(b, field, 2) == Stop
  {
    assert b == [tag] + b[1..];
    SmallReads(tag, b[1..]);
  }

  /** Field 1 with a length of 2^64 - 11, which sends the loop back to its start. */
  const Overlong: seq<Byte> := [0x0a, 0xf5, 0xff, 0xff, 0xff, 0xff, 0xff, 0xff, 0xff, 0xff, 0x01]

  lemma {:induction false} StuckRepeats(buf: seq<Byte>, field: nat, n: nat)
    requires Step64(buf, At(0), field, 2) == At(0)
    ensures Walked64(buf, field, 2, n) == At(0)
  {
    if n > 0 { StuckRepeats(buf, field, n - 1); }
  }

  lemma HugeTurn(buf: seq<Byte>, i: nat, tag: Byte, c: Byte, field: nat)
    requires i + 11 <= |buf| < I63 - 256 && tag < 128 && tag % 8 == 2 && i + c as int >= 245
    requires buf[i] == tag && Huge(buf[i + 1..i + 11], c) && tag / 8 != field
    ensures Step64(buf, At(i), field, 2) == At(i - 245 + c)
  {
    HugeStep(buf, i, tag, c);
    var p := LenPrefix(buf[i..]).value;
    GuardExact(|buf|, i + p.0, p.1);
  }

  /** On that frame the scan for any other field is at index 0 after every number of turns. */
  lemma OverlongHangs(field: nat, n: nat)
    requires field != 1
    ensures Walked64(Overlong, field, 2, n) == At(0) && Scan64(Overlong, field) == Hangs
  {
    HugeTurn(Overlong, 0, 0x0a, 0xf5, field);
    StuckRepeats(Overlong, field, n);
    StuckRepeats(Overlong, field, |Overlong| + 1);
  }

  lemma OverlongKey()
    ensures ReplyKey64(Overlong) == Stuck
  {
    OverlongHangs(6, 0);
  }

  /** Field 1 holds what looks like a destination with address 41 42; field 3 has a length of
      2^64 - 18, which sends the loop back into field 1. */
  const Backjump: seq<Byte> := [
    0x0a, 0x07, 0x32, 0x04, 0x12, 0x02, 0x41, 0x42, 0x07, 0x1a, 0xee, 0xff, 0xff, 0xff, 0xff, 0xff, 0xff, 0xff, 0xff, 0x01]

  predicate JumpsBack(buf: seq<Byte>) {
    && |buf| == 20 && buf[0] == 0x0a && buf[1] == 0x07 && buf[2] == 0x32 && buf[3] == 0x04
    && buf[8] == 0x07 && buf[9] == 0x1a && Huge(buf[10..20], 0xee)
  }

  lemma BackOutcome(buf: seq<Byte>, field: nat)
    requires JumpsBack(buf) && field != 1 && field != 3
    ensures Payload(buf, field) == []
    ensures Scan64(buf, field) == if field == 6 then Got(Some(buf[4..8])) else Got(None)
  {
    SmallSkipped(buf, 0, 0x0a, 0x07, field);
    HugeStep(buf, 9, 0x1a, 0xee);
    UnfitOutcome(buf, field, 9);
    if field == 6 { SmallFound(buf, 2, 0x32, 0x04); } else { SmallSkipped(buf, 2, 0x32, 0x04, field); }
    BadTag(buf, 8, field);
    assert buf[0..] == buf;
  }

  lemma DestinationReads()
    ensures Bytes64([0x12, 0x02, 0x41, 0x42], 2) == Value([0x41, 0x42])
  {
    var d := [0x12, 0x02, 0x41, 0x42];
    SmallFound(d, 0, 0x12, 0x02);
    assert d[2..4] == [0x41, 0x42];
  }

  /** The source extracts an address from that frame that the frame does not carry. */
  lemma BackjumpMisread()
    ensures ReplyKey64(Backjump) == Value(Key([0x41, 0x42], [])) && ReplyKey(Backjump) == Key([], [])
    ensures !KeyHarmless(Backjump, 6, 50)
  {
    assert Backjump[4..8] == [0x12, 0x02, 0x41, 0x42];
    BackKey(Backjump);
    KeyExactIff(Backjump, 6, 50);
  }

  lemma BackKey(buf: seq<Byte>)
    requires JumpsBack(buf) && buf[4..8] == [0x12, 0x02, 0x41, 0x42]
    ensures ReplyKey64(buf) == Value(Key([0x41, 0x42], [])) && ReplyKey(buf) == Key([], [])
  {
    BackOutcome(buf, 6);
    BackOutcome(buf, 50);
    DestinationReads();
  }

  /** The same without the byte that ends the second scan: the address is found, but the scan for the
      uuid goes round for ever. */
  const Circling: seq<Byte> := [
    0x0a, 0x06, 0x32, 0x04, 0x12, 0x02, 0x41, 0x42, 0x1a, 0xef, 0xff, 0xff, 0xff, 0xff, 0xff, 0xff, 0xff, 0xff, 0x01]

  lemma SmallTurn(buf: seq<Byte>, i: nat, tag: Byte, n: Byte, field: nat)
    requires Small(buf, i, tag, n)
    ensures Step64(buf, At(i), field, 2) == if tag / 8 == field then Found(i + 2, i + 2 + n) else At(i + 2 + n)
  {
    SmallStep(buf, i, tag, n);
    SmallMove(buf[i..], tag, n, field);
    StepsAgree(buf, At(i), field, 2);
  }

  predicate GoesRound(buf: seq<Byte>) {
    && |buf| == 19 && buf[0] == 0x0a && buf[1] == 0x06 && buf[2] == 0x32 && buf[3] == 0x04
    && buf[8] == 0x1a && Huge(buf[9..19], 0xef)
  }

  lemma RoundTurns(buf: seq<Byte>, field: nat)
    requires GoesRound(buf) && field != 1 && field != 3
    ensures var f := Turn(buf, field, 2);
      f(At(0)) == At(8) && f(At(8)) == At(2) && f(At(2)) == if field == 6 then Found(4, 8) else At(8)
  {
    SmallTurn(buf, 0, 0x0a, 0x06, field);
    SmallTurn(buf, 2, 0x32, 0x04, field);
    HugeTurn(buf, 8, 0x1a, 0xef, field);
  }

  lemma RoundKey(buf: seq<Byte>)
    requires GoesRound(buf) && buf[4..8] == [0x12, 0x02, 0x41, 0x42]
    ensures Address64(buf, 6) == Value([0x41, 0x42]) && Bytes64(buf, 50) == Stuck
  {
    RoundTurns(buf, 6);
    RoundTurns(buf, 50);
    TurnIsLoop(buf, 6, 2);
    Third(Turn(buf, 6, 2), 8, 2, Found(4, 8), |buf| + 1);
    Rounds(Turn(buf, 50, 2), 8, 2, |buf| + 1);
    DestinationReads();
  }

  lemma CirclingHangs()
    ensures Address64(Circling, 6) == Value([0x41, 0x42]) && ReplyKey64(Circling) == Stuck
  {
    assert Circling[4..8] == [0x12, 0x02, 0x41, 0x42];
    RoundKey(Circling);
  }
}
