/** The SNI parser: section 4.1.2 of RFC 8446 for the ClientHello, section 3 of RFC 6066 for the
    server_name extension. */
module ClientHello {
  import opened Bytes

  function LowerByte(b: Byte): Byte { if 65 <= b <= 90 then b + 32 else b }

  function LowerName(bs: seq<Byte>): (r: seq<Byte>)
    ensures |r| == |bs|
  {
    seq(|bs|, i requires 0 <= i < |bs| => LowerByte(bs[i]))
  }

  // ----- the parser, stage by stage -----

  /** Cut to n bytes if longer. */
  function Clip(b: seq<Byte>, n: nat): (r: seq<Byte>)
    ensures r <= b && |r| <= n
  {
    if |b| > n then b[..n] else b
  }

  function FromU24(b: seq<Byte>): nat
    requires |b| >= 3
  {
    b[0] as int * 0x1_0000 + b[1] as int * 256 + b[2]
  }

  function FromU8(b: seq<Byte>): nat
    requires |b| >= 1
  {
    b[0]
  }

  /** What follows a vector with a one-byte length. */
  function AfterVec8(b: seq<Byte>): Option<seq<Byte>> {
    if |b| < 1 || |b| < 1 + FromU8(b) then None else Some(b[1 + FromU8(b)..])
  }

  function AfterVec16(b: seq<Byte>): Option<seq<Byte>> {
    if |b| < 2 || |b| < 2 + FromU16(b) then None else Some(b[2 + FromU16(b)..])
  }

  /** The body of the handshake message: past its header, cut to its length. */
  function HandshakeBody(b: seq<Byte>): Option<seq<Byte>> {
    if |b| < 4 || b[0] != 1 then None else Some(Clip(b[4..], FromU24(b[1..])))
  }

  function AtExtensions(b: seq<Byte>): Option<seq<Byte>> {
    if |b| < 2 then None else Some(Clip(b[2..], FromU16(b)))
  }

  function AtCompression(b: seq<Byte>): Option<seq<Byte>> {
    var r := AfterVec8(b);
    if r.None? then None else AtExtensions(r.value)
  }

  function AtCiphers(b: seq<Byte>): Option<seq<Byte>> {
    var r := AfterVec16(b);
    if r.None? then None else AtCompression(r.value)
  }

  function AtSession(b: seq<Byte>): Option<seq<Byte>> {
    var r := AfterVec8(b);
    if r.None? then None else AtCiphers(r.value)
  }

  /** The extensions block of a ClientHello body: past version, random, session id, cipher suites
      and compression methods. */
  function ExtensionsOf(b: seq<Byte>): Option<seq<Byte>> {
    if |b| < 34 then None else AtSession(b[34..])
  }

  /** The first host_name of a server_name list. */
  function FirstHost(list: seq<Byte>): Option<seq<Byte>> {
    if |list| < 3 then None else
    var n := FromU16(list[1..]);
    if |list| < 3 + n then None
    else if list[0] == 0 then Some(list[3..3 + n])
    else FirstHost(list[3 + n..])
  }

  function HostIn(data: seq<Byte>): Option<seq<Byte>> {
    if |data| < 2 then None else FirstHost(Clip(data[2..], FromU16(data)))
  }

  /** The host of the first server_name extension. */
  function FindHost(b: seq<Byte>): Option<seq<Byte>> {
    if |b| < 4 then None else
    var n := FromU16(b[2..]);
    if |b| < 4 + n then None
    else if FromU16(b) == 0 then HostIn(b[4..4 + n])
    else FindHost(b[4 + n..])
  }

  function ParsedHost(b: seq<Byte>): Option<seq<Byte>> {
    var body := HandshakeBody(b);
    if body.None? then None else
    var exts := ExtensionsOf(body.value);
    if exts.None? then None else FindHost(exts.value)
  }

  /** parseSNI's result; empty if there is no name.  `lower` is strings.ToLower, whatever it does beyond ASCII. */
  function ParseSni(lower: seq<Byte> -> seq<Byte>, b: seq<Byte>): seq<Byte> {
    var h := ParsedHost(b);
    if h.None? then [] else lower(h.value)
  }

  /** parseSNI as the source writes it, re-slicing one variable; it stays in bounds on every
      byte string and terminates. */
  method ParseSniLoop(lower: seq<Byte> -> seq<Byte>, msg: seq<Byte>) returns (r: seq<Byte>)
    ensures r == ParseSni(lower, msg)
  {
    var b := msg;
    if |b| < 4 || b[0] != 1 {
      return [];
    }
    var hsLen := b[1] as int * 0x1_0000 + b[2] as int * 256 + b[3];
    assert hsLen == FromU24(b[1..]);
    b := b[4..];
    if |b| > hsLen {
      b := b[..hsLen];
    }
    var ok, exts := SkipToExtensions(b);
    if !ok {
      return [];
    }
    r := ScanExtensions(lower, exts);
  }

  method SkipToExtensions(body: seq<Byte>) returns (ok: bool, b: seq<Byte>)
    ensures (if ok then Some(b) else None) == ExtensionsOf(body)
  {
    b := body;
    if |b| < 34 {
      return false, b;
    }
    b := b[34..];
    if |b| < 1 || |b| < 1 + FromU8(b) {
      return false, b;
    }
    b := b[1 + FromU8(b)..];
    assert ExtensionsOf(body) == AtCiphers(b);
    if |b| < 2 || |b| < 2 + FromU16(b) {
      return false, b;
    }
    b := b[2 + FromU16(b)..];
    assert ExtensionsOf(body) == AtCompression(b);
    if |b| < 1 || |b| < 1 + FromU8(b) {
      return false, b;
    }
    b := b[1 + FromU8(b)..];
    if |b| < 2 {
      return false, b;
    }
    var extLen := FromU16(b);
    b := b[2..];
    if |b| > extLen {
      b := b[..extLen];
    }
    return true, b;
  }

  method ScanExtensions(lower: seq<Byte> -> seq<Byte>, exts: seq<Byte>) returns (r: seq<Byte>)
    ensures r == (var h := FindHost(exts); if h.None? then [] else lower(h.value))
  {
    var b := exts;
    while |b| >= 4
      invariant FindHost(b) == FindHost(exts)
      decreases |b|
    {
      var n := FromU16(b[2..]);
      if |b| < 4 + n {
        return [];
      }
      var isName, data := FromU16(b) == 0, b[4..4 + n];
      if isName {
        if |data| < 2 {
          return [];
        }
        var list := Clip(data[2..], FromU16(data));
        ghost var whole := list;
        while |list| >= 3
          invariant FirstHost(list) == FirstHost(whole)
          decreases |list|
        {
          var m := FromU16(list[1..]);
          if |list| < 3 + m {
            return [];
          }
          if list[0] == 0 {
            return lower(list[3..3 + m]);
          }
          list := list[3 + m..];
        }
        return [];
      }
      b := b[4 + n..];
    }
    return [];
  }

  // ----- prefix stability -----

  lemma {:induction false} FirstHostStable(list: seq<Byte>, x: seq<Byte>)
    requires FirstHost(list).Some?
    ensures FirstHost(list + x) == FirstHost(list)
  {
    var n := FromU16(list[1..]);
    assert FromU16((list + x)[1..]) == n;
    if list[0] == 0 {
      assert (list + x)[3..3 + n] == list[3..3 + n];
    } else {
      assert (list + x)[3 + n..] == list[3 + n..] + x;
      FirstHostStable(list[3 + n..], x);
    }
  }

  lemma {:induction false} FindHostStable(b: seq<Byte>, x: seq<Byte>)
    requires FindHost(b).Some?
    ensures FindHost(b + x) == FindHost(b)
  {
    var n := FromU16(b[2..]);
    assert FromU16((b + x)[2..]) == n && FromU16(b + x) == FromU16(b);
    if FromU16(b) == 0 {
      assert (b + x)[4..4 + n] == b[4..4 + n];
    } else {
      assert (b + x)[4 + n..] == b[4 + n..] + x;
      FindHostStable(b[4 + n..], x);
    }
  }

  lemma ClipGrows(b: seq<Byte>, x: seq<Byte>, n: nat)
    ensures Clip(b, n) <= Clip(b + x, n)
  {
  }

  lemma AtCiphersGrows(b: seq<Byte>, x: seq<Byte>)
    requires AtCiphers(b).Some?
    ensures AtCiphers(b + x).Some? && AtCiphers(b).value <= AtCiphers(b + x).value
  {
    Vec16Grows(b, x);
    var b1 := AfterVec16(b).value;
    Vec8Grows(b1, x);
    var b2 := AfterVec8(b1).value;
    assert (b2 + x)[2..] == b2[2..] + x && FromU16(b2 + x) == FromU16(b2);
    ClipGrows(b2[2..], x, FromU16(b2));
  }

  lemma ExtensionsGrow(b: seq<Byte>, c: seq<Byte>)
    requires b <= c && ExtensionsOf(b).Some?
    ensures ExtensionsOf(c).Some? && ExtensionsOf(b).value <= ExtensionsOf(c).value
  {
    var x := c[|b|..];
    assert c[34..] == b[34..] + x;
    Vec8Grows(b[34..], x);
    AtCiphersGrows(AfterVec8(b[34..]).value, x);
  }

  lemma HandshakeGrows(p: seq<Byte>, x: seq<Byte>)
    requires HandshakeBody(p).Some?
    ensures HandshakeBody(p + x).Some? && HandshakeBody(p).value <= HandshakeBody(p + x).value
  {
    assert (p + x)[4..] == p[4..] + x;
    assert FromU24((p + x)[1..]) == FromU24(p[1..]);
    ClipGrows(p[4..], x, FromU24(p[1..]));
  }

  lemma Vec8Grows(b: seq<Byte>, x: seq<Byte>)
    requires AfterVec8(b).Some?
    ensures AfterVec8(b + x) == Some(AfterVec8(b).value + x)
  {
    assert (b + x)[1 + FromU8(b)..] == b[1 + FromU8(b)..] + x;
  }

  lemma Vec16Grows(b: seq<Byte>, x: seq<Byte>)
    requires AfterVec16(b).Some?
    ensures AfterVec16(b + x) == Some(AfterVec16(b).value + x)
  {
    assert FromU16(b + x) == FromU16(b);
    assert (b + x)[2 + FromU16(b)..] == b[2 + FromU16(b)..] + x;
  }

  lemma FindHostGrows(e: seq<Byte>, f: seq<Byte>)
    requires e <= f && FindHost(e).Some?
    ensures FindHost(f) == FindHost(e)
  {
    assert f == e + f[|e|..];
    FindHostStable(e, f[|e|..]);
  }

  lemma ParsedHostStable(p: seq<Byte>, x: seq<Byte>)
    requires ParsedHost(p).Some?
    ensures ParsedHost(p + x) == ParsedHost(p)
  {
    HandshakeGrows(p, x);
    ExtensionsGrow(HandshakeBody(p).value, HandshakeBody(p + x).value);
    FindHostGrows(ExtensionsOf(HandshakeBody(p).value).value, ExtensionsOf(HandshakeBody(p + x).value).value);
  }

  /** A name found in a truncated message is the name of the whole one: if parseSNI returns a
      non-empty name on p, it returns the same on p followed by any bytes. */
  lemma PrefixStable(lower: seq<Byte> -> seq<Byte>, p: seq<Byte>, x: seq<Byte>)
    requires ParseSni(lower, p) != []
    ensures ParseSni(lower, p + x) == ParseSni(lower, p)
  {
    ParsedHostStable(p, x);
  }

  // ----- round trip -----

  datatype Name = Name(kind: Byte, bytes: seq<Byte>)

  datatype Ext = Other(kind: nat, data: seq<Byte>) | ServerName(names: seq<Name>)

  datatype Hello = Hello(versionAndRandom: seq<Byte>, session: seq<Byte>, ciphers: seq<Byte>, compression: seq<Byte>, exts: seq<Ext>)

  predicate NamesFit(ns: seq<Name>) { forall n :: n in ns ==> |n.bytes| < 0x1_0000 }

  function NameBytes(ns: seq<Name>): seq<Byte>
    requires NamesFit(ns)
  {
    if ns == [] then [] else [ns[0].kind] + U16(|ns[0].bytes|) + ns[0].bytes + NameBytes(ns[1..])
  }

  predicate ExtFits(e: Ext) {
    match e
    case Other(kind, data) => 0 < kind < 0x1_0000 && |data| < 0x1_0000
    case ServerName(names) => NamesFit(names) && |NameBytes(names)| + 2 < 0x1_0000
  }

  function ExtData(e: Ext): seq<Byte>
    requires ExtFits(e)
  {
    match e
    case Other(_, data) => data
    case ServerName(names) => U16(|NameBytes(names)|) + NameBytes(names)
  }

  function ExtKind(e: Ext): (k: nat)
    requires ExtFits(e)
    ensures k < 0x1_0000
  {
    if e.Other? then e.kind else 0
  }

  function ExtBytes(es: seq<Ext>): seq<Byte>
    requires forall e :: e in es ==> ExtFits(e)
  {
    if es == [] then []
    else assert es[0] in es; U16(ExtKind(es[0])) + U16(|ExtData(es[0])|) + ExtData(es[0]) + ExtBytes(es[1..])
  }

  predicate HelloFits(h: Hello) {
    && |h.versionAndRandom| == 34 && |h.session| < 256 && |h.ciphers| < 0x1_0000 && |h.compression| < 256
    && (forall e :: e in h.exts ==> ExtFits(e)) && |ExtBytes(h.exts)| < 0x1_0000
  }

  function Tail(h: Hello): seq<Byte>
    requires HelloFits(h)
  {
    U16(|ExtBytes(h.exts)|) + ExtBytes(h.exts)
  }

  function Body(h: Hello): seq<Byte>
    requires HelloFits(h)
  {
    h.versionAndRandom + ([|h.session|] + h.session + (U16(|h.ciphers|) + h.ciphers + ([|h.compression|] + h.compression + Tail(h))))
  }

  function U24(n: nat): seq<Byte>
    requires n < 0x100_0000
  {
    [n / 0x1_0000, n / 256 % 256, n % 256]
  }

  function Serialized(h: Hello): seq<Byte>
    requires HelloFits(h)
  {
    [1] + U24(|Body(h)|) + Body(h)
  }

  /** The first host_name entry of the first server_name extension. */
  function NamedHost(ns: seq<Name>): Option<seq<Byte>> {
    if ns == [] then None else if ns[0].kind == 0 then Some(ns[0].bytes) else NamedHost(ns[1..])
  }

  function HostOf(es: seq<Ext>): Option<seq<Byte>> {
    if es == [] then None else if es[0].ServerName? then NamedHost(es[0].names) else HostOf(es[1..])
  }

  lemma {:induction false} NamesRead(ns: seq<Name>)
    requires NamesFit(ns)
    ensures FirstHost(NameBytes(ns)) == NamedHost(ns)
  {
    if ns != [] {
      var b, n := NameBytes(ns), ns[0];
      assert b[1..] == U16(|n.bytes|) + n.bytes + NameBytes(ns[1..]);
      assert b[3..3 + |n.bytes|] == n.bytes;
      assert b[3 + |n.bytes|..] == NameBytes(ns[1..]);
      NamesRead(ns[1..]);
    }
  }

  lemma DataRead(names: seq<Name>)
    requires ExtFits(ServerName(names))
    ensures HostIn(ExtData(ServerName(names))) == NamedHost(names)
  {
    var d := ExtData(ServerName(names));
    assert d[2..] == NameBytes(names);
    NamesRead(names);
  }

  lemma ExtRead(e: Ext, rest: seq<Byte>)
    requires ExtFits(e)
    ensures var b := U16(ExtKind(e)) + U16(|ExtData(e)|) + ExtData(e) + rest;
      FindHost(b) == if e.ServerName? then NamedHost(e.names) else FindHost(rest)
  {
    var d := ExtData(e);
    var b := U16(ExtKind(e)) + U16(|d|) + d + rest;
    assert b[2..] == U16(|d|) + d + rest;
    assert FromU16(b[2..]) == |d| && FromU16(b) == ExtKind(e);
    assert b[4..4 + |d|] == d;
    assert b[4 + |d|..] == rest;
    if e.ServerName? { DataRead(e.names); }
  }

  lemma {:induction false} ExtsRead(es: seq<Ext>)
    requires forall e :: e in es ==> ExtFits(e)
    ensures FindHost(ExtBytes(es)) == HostOf(es)
  {
    if es != [] {
      ExtRead(es[0], ExtBytes(es[1..]));
      ExtsRead(es[1..]);
    }
  }

  lemma Vec8Skips(v: seq<Byte>, rest: seq<Byte>)
    requires |v| < 256
    ensures AfterVec8([|v|] + v + rest) == Some(rest)
  {
    assert ([|v|] + v + rest)[1 + |v|..] == rest;
  }

  lemma Vec16Skips(v: seq<Byte>, rest: seq<Byte>)
    requires |v| < 0x1_0000
    ensures AfterVec16(U16(|v|) + v + rest) == Some(rest)
  {
    assert (U16(|v|) + v + rest)[2 + |v|..] == rest;
  }

  lemma BodyRead(h: Hello)
    requires HelloFits(h)
    ensures ExtensionsOf(Body(h)) == Some(ExtBytes(h.exts))
  {
    var atCompression := [|h.compression|] + h.compression + Tail(h);
    var atCiphers := U16(|h.ciphers|) + h.ciphers + atCompression;
    assert Body(h)[34..] == [|h.session|] + h.session + atCiphers;
    Vec8Skips(h.session, atCiphers);
    Vec16Skips(h.ciphers, atCompression);
    assert AtCiphers(atCiphers) == AtCompression(atCompression);
    Vec8Skips(h.compression, Tail(h));
    assert Tail(h)[2..] == ExtBytes(h.exts);
    assert AtExtensions(Tail(h)) == Some(ExtBytes(h.exts));
  }

  lemma U24Read(n: nat, rest: seq<Byte>)
    requires n < 0x100_0000
    ensures FromU24(U24(n) + rest) == n
  {
    assert n / 0x1_0000 == n / 256 / 256;
  }

  lemma HandshakeFramed(body: seq<Byte>, trailing: seq<Byte>)
    requires |body| < 0x100_0000
    ensures HandshakeBody([1] + U24(|body|) + body + trailing) == Some(body)
  {
    var msg := [1] + U24(|body|) + body + trailing;
    U24Read(|body|, body + trailing);
    assert msg[1..] == U24(|body|) + (body + trailing);
    assert msg[4..] == body + trailing;
    assert (body + trailing)[..|body|] == body;
    assert trailing == [] ==> body + trailing == body;
  }

  lemma HandshakeRead(h: Hello, trailing: seq<Byte>)
    requires HelloFits(h)
    ensures HandshakeBody(Serialized(h) + trailing) == Some(Body(h))
  {
    HandshakeFramed(Body(h), trailing);
  }

  /** For every well-formed ClientHello, whatever bytes follow it, parseSNI returns the lower-cased
      first host_name of the first server_name extension, and nothing if there is none. */
  lemma RoundTrip(h: Hello, trailing: seq<Byte>)
    requires HelloFits(h)
    ensures ParsedHost(Serialized(h) + trailing) == HostOf(h.exts)
  {
    HandshakeRead(h, trailing);
    BodyRead(h);
    ExtsRead(h.exts);
  }

  // ----- reading the first TLS record -----

  datatype Read = Failed | Got(raw: seq<Byte>, sni: seq<Byte>)

  /** readClientHello on everything the client will ever send: it takes one record of at most
      16384 bytes, keeps its bytes for replay, and parses its body. */
  function ReadClientHello(lower: seq<Byte> -> seq<Byte>, stream: seq<Byte>): Read {
    if |stream| < 5 || stream[0] != 0x16 then Failed else
    var n := FromU16(stream[3..]);
    if n == 0 || n > 16384 || |stream| < 5 + n then Failed
    else Got(stream[..5 + n], ParseSni(lower, stream[5..5 + n]))
  }

  lemma RecordFramed(lower: seq<Byte> -> seq<Byte>, version: seq<Byte>, msg: seq<Byte>, later: seq<Byte>)
    requires |version| == 2 && 0 < |msg| <= 16384
    ensures var record := [0x16] + version + U16(|msg|) + msg;
      ReadClientHello(lower, record + later) == Got(record, ParseSni(lower, msg))
  {
    var record := [0x16] + version + U16(|msg|) + msg;
    var stream := record + later;
    assert stream[3..] == U16(|msg|) + msg + later;
    assert stream[5..5 + |msg|] == msg && stream[..5 + |msg|] == record;
  }

  predicate Ascii(name: seq<Byte>) { forall b :: b in name ==> b < 128 }

  /** What strings.ToLower promises of ASCII names. */
  ghost predicate LowersAscii(lower: seq<Byte> -> seq<Byte>) { forall name :: Ascii(name) ==> lower(name) == LowerName(name) }

  /** A hello sent in one record is replayed byte for byte and named by its own host, lower-cased, and
      nothing the client sends after that record changes either. */
  lemma RecordRead(lower: seq<Byte> -> seq<Byte>, h: Hello, version: seq<Byte>, later: seq<Byte>)
    requires HelloFits(h) && |version| == 2 && |Serialized(h)| <= 16384 && LowersAscii(lower)
    ensures var record := [0x16] + version + U16(|Serialized(h)|) + Serialized(h);
      var host := HostOf(h.exts);
      && ReadClientHello(lower, record + later) == Got(record, if host.Some? then lower(host.value) else [])
      && (host.Some? && Ascii(host.value) ==> lower(host.value) == LowerName(host.value))
  {
    RecordFramed(lower, version, Serialized(h), later);
    RoundTrip(h, []);
    assert Serialized(h) + [] == Serialized(h);
  }
}
