/** Bytes, options and the two fixed-width integer encodings shared by the wire formats. */
module Bytes {

  type Byte = b: int | 0 <= b < 256

  datatype Option<+T> = None | Some(value: T)

  /** Big-endian 16-bit, as in TLS. */
  function U16(n: nat): (r: seq<Byte>)
    requires n < 0x1_0000
    ensures |r| == 2
  {
    [n / 256, n % 256]
  }

  function FromU16(b: seq<Byte>): nat
    requires |b| >= 2
  {
    b[0] as int * 256 + b[1]
  }

  /** Big-endian 32-bit; a larger value wraps, as `v >>> 0` does. */
  function U32(n: int): (r: seq<Byte>)
    ensures |r| == 4
  {
    var w := n % 0x1_0000_0000;
    [w / 0x100_0000, w / 0x1_0000 % 256, w / 256 % 256, w % 256]
  }

  function FromU32(b: seq<Byte>): int
    requires |b| == 4
  {
    b[0] as int * 0x100_0000 + b[1] as int * 0x1_0000 + b[2] as int * 256 + b[3]
  }

  lemma U32RoundTrip(n: int)
    ensures FromU32(U32(n)) == n % 0x1_0000_0000
  {
    var w := n % 0x1_0000_0000;
    assert w / 0x1_0000 == w / 256 / 256 && w / 0x100_0000 == w / 256 / 256 / 256;
  }

  lemma U32Injective(a: int, b: int)
    requires U32(a) == U32(b)
    ensures a % 0x1_0000_0000 == b % 0x1_0000_0000
  {
    U32RoundTrip(a);
    U32RoundTrip(b);
  }
}
