/** The tag-length-value block that names a signed message, and the two blocks built with it. */
module Metadata {
  import opened Bytes

  const SIGNATURE_TYPE: Byte := 0
  const DOMAIN: Byte := 1
  const PERSONALIZATION: Byte := 2
  const EPOCH: Byte := 3
  const EXPIRES_AT: Byte := 4
  const COUNTER: Byte := 5
  const FLAGS: Byte := 7
  const REQUEST_HASH: Byte := 8
  const FAULT: Byte := 9
  const END: Byte := 255

  const AES_GCM_PERSONALIZED: Byte := 5
  const AES_GCM_RESPONSE: Byte := 9

  datatype Entry = Entry(tag: Byte, value: seq<Byte>)

  predicate Fits(es: seq<Entry>) { forall i :: 0 <= i < |es| ==> |es[i].value| <= 255 }

  predicate BelowEnd(es: seq<Entry>) { forall i :: 0 <= i < |es| ==> es[i].tag < END }

  predicate Ascending(es: seq<Entry>) { forall i, j :: 0 <= i < j < |es| ==> es[i].tag <= es[j].tag }

  // ----- rendering -----

  function Rendered(es: seq<Entry>): seq<Byte>
    requires Fits(es)
  {
    if es == [] then [] else [es[0].tag, |es[0].value|] + es[0].value + Rendered(es[1..])
  }

  lemma {:induction false} RenderedSnoc(es: seq<Entry>, e: Entry)
    requires Fits(es) && |e.value| <= 255
    ensures Rendered(es + [e]) == Rendered(es) + [e.tag, |e.value|] + e.value
  {
    if es == [] {
      assert Rendered([e]) == [e.tag, |e.value|] + e.value + Rendered([]);
      assert es + [e] == [e];
    } else {
      assert (es + [e])[1..] == es[1..] + [e];
      RenderedSnoc(es[1..], e);
    }
  }

  /** What is hashed: the block, its end tag, and the payload that follows. */
  function Sealed(es: seq<Entry>, trailing: seq<Byte>): seq<Byte>
    requires Fits(es)
  {
    Rendered(es) + [END] + trailing
  }

  // ----- reading it back -----

  datatype Block = Block(entries: seq<Entry>, trailing: seq<Byte>)

  function Decode(b: seq<Byte>): Option<Block> {
    if b == [] then None
    else if b[0] == END then Some(Block([], b[1..]))
    else if |b| < 2 || |b| < 2 + b[1] as int then None
    else
      var value, rest := b[2..][..b[1]], Decode(b[2..][b[1]..]);
      if rest == None then None
      else Some(Block([Entry(b[0], value)] + rest.value.entries, rest.value.trailing))
  }

  lemma DecodeCons(e: Entry, rest: seq<Byte>)
    requires e.tag < END && |e.value| <= 255
    ensures var b := [e.tag, |e.value|] + e.value + rest;
      Decode(b) == if Decode(rest) == None then None
                   else Some(Block([e] + Decode(rest).value.entries, Decode(rest).value.trailing))
  {
    var b := [e.tag, |e.value|] + e.value + rest;
    assert b[2..] == e.value + rest;
    assert b[2..][..b[1]] == e.value && b[2..][b[1]..] == rest;
  }

  lemma SealedCons(e: Entry, es: seq<Entry>, trailing: seq<Byte>)
    requires |e.value| <= 255 && Fits(es)
    ensures Fits([e] + es) && Sealed([e] + es, trailing) == [e.tag, |e.value|] + e.value + Sealed(es, trailing)
  {
    assert ([e] + es)[1..] == es;
  }

  /** Every block with tags below the end tag is read back exactly, whatever payload follows it. */
  lemma {:induction false} DecodeInvertsSealed(es: seq<Entry>, trailing: seq<Byte>)
    requires Fits(es) && BelowEnd(es)
    ensures Decode(Sealed(es, trailing)) == Some(Block(es, trailing))
  {
    if es == [] {
      assert Sealed(es, trailing) == [END] + trailing;
    } else {
      DecodeInvertsSealed(es[1..], trailing);
      DecodeCons(es[0], Sealed(es[1..], trailing));
      SealedCons(es[0], es[1..], trailing);
      assert es == [es[0]] + es[1..];
    }
  }

  /** Conversely, whatever decodes is the sealing of what it decodes to. */
  lemma {:induction false} SealedInvertsDecode(b: seq<Byte>)
    requires Decode(b).Some?
    ensures var block := Decode(b).value;
      Fits(block.entries) && BelowEnd(block.entries) && b == Sealed(block.entries, block.trailing)
  {
    if b[0] == END {
      assert b == [] + [END] + b[1..];
    } else {
      var e, rest := Entry(b[0], b[2..][..b[1]]), b[2..][b[1]..];
      assert b == [b[0], b[1]] + e.value + rest;
      SealedInvertsDecode(rest);
      SealedCons(e, Decode(rest).value.entries, Decode(rest).value.trailing);
    }
  }

  /** The bound on tags is needed: an entry with the end tag reads as the end of the block. */
  lemma EndTagIsAmbiguous(value: seq<Byte>, trailing: seq<Byte>)
    requires |value| <= 255
    ensures Fits([Entry(END, value)])
    ensures Sealed([Entry(END, value)], trailing) == Sealed([], [|value|] + value + [END] + trailing)
  {
    var es := [Entry(END, value)];
    assert es[1..] == [];
    assert Rendered(es) == [END, |value|] + value;
  }

  // ----- the builder -----

  function Joined(parts: seq<seq<Byte>>): seq<Byte> {
    if parts == [] then [] else Joined(parts[..|parts| - 1]) + parts[|parts| - 1]
  }

  lemma JoinedTwoMore(parts: seq<seq<Byte>>, p: seq<Byte>, q: seq<Byte>)
    ensures Joined(parts + [p] + [q]) == Joined(parts) + p + q
  {
    var one := parts + [p];
    var two := one + [q];
    assert two[..|two| - 1] == one && one[..|one| - 1] == parts;
  }

  class MetadataBlockBuilder {
    var parts: seq<seq<Byte>>
    var lastTag: int
    ghost var entries: seq<Entry>

    ghost predicate Valid()
      reads this
    {
      && Fits(entries) && Ascending(entries)
      && Joined(parts) == Rendered(entries)
      && lastTag == if entries == [] then -1 else entries[|entries| - 1].tag
    }

    constructor ()
      ensures Valid() && entries == [] && lastTag == -1
    {
      parts := [];
      lastTag := -1;
      entries := [];
    }

    /** Fails on a tag below the last one, even with no value, and on a value over 255 bytes. */
    method Add(tag: Byte, value: Option<seq<Byte>>) returns (ok: bool)
      requires Valid()
      modifies this
      ensures Valid()
      ensures ok <==> old(lastTag) <= tag && Short(value)
      ensures entries == old(entries) + if ok then Optional(tag, value) else []
      ensures lastTag == if ok && value.Some? then tag else old(lastTag)
    {
      if tag < lastTag {
        return false;
      }
      if value == None {
        return true;
      }
      var v := value.value;
      if |v| > 255 {
        return false;
      }
      RenderedSnoc(entries, Entry(tag, v));
      JoinedTwoMore(parts, [tag, |v|], v);
      lastTag := tag;
      parts := parts + [[tag, |v|]];
      parts := parts + [v];
      entries := entries + [Entry(tag, v)];
      return true;
    }

    method AddUint32(tag: Byte, v: int) returns (ok: bool)
      requires Valid()
      modifies this
      ensures Valid()
      ensures ok <==> old(lastTag) <= tag
      ensures entries == old(entries) + if ok then [Entry(tag, U32(v))] else []
      ensures lastTag == if ok then tag else old(lastTag)
    {
      ok := Add(tag, Some(U32(v)));
    }

    /** The block in one buffer, filled part by part. */
    method Render() returns (out: array<Byte>)
      requires Valid()
      ensures fresh(out) && out[..] == Rendered(entries)
    {
      var total := 0;
      for i := 0 to |parts|
        invariant total == |Joined(parts[..i])|
      {
        assert parts[..i + 1][..i] == parts[..i];
        total := total + |parts[i]|;
      }
      assert parts[..|parts|] == parts;
      out := new Byte[total](_ => 0);
      var off := 0;
      for i := 0 to |parts|
        invariant off == |Joined(parts[..i])| <= total
        invariant out[..off] == Joined(parts[..i])
      {
        assert parts[..i + 1][..i] == parts[..i];
        JoinedGrows(parts, i + 1);
        Put(out, off, parts[i]);
        off := off + |parts[i]|;
      }
    }

    /** The bytes that are hashed or authenticated. */
    method Preimage(trailing: Option<seq<Byte>>) returns (total: seq<Byte>)
      requires Valid()
      ensures total == Sealed(entries, if trailing.Some? then trailing.value else [])
    {
      var head := Render();
      total := head[..] + [END] + (if trailing.Some? then trailing.value else []);
    }
  }

  lemma {:induction false} JoinedGrows(parts: seq<seq<Byte>>, n: nat)
    requires n <= |parts|
    ensures |Joined(parts[..n])| <= |Joined(parts)|
    decreases |parts| - n
  {
    if n < |parts| {
      assert parts[..n + 1][..n] == parts[..n];
      JoinedGrows(parts, n + 1);
    } else {
      assert parts[..n] == parts;
    }
  }

  /** `out.set(p, off)`. */
  method Put(out: array<Byte>, off: nat, p: seq<Byte>)
    requires off + |p| <= out.Length
    modifies out
    ensures out[..off + |p|] == old(out[..off]) + p
  {
    for i := 0 to |p|
      invariant out[..off + i] == old(out[..off]) + p[..i]
    {
      out[off + i] := p[i];
      assert out[..off + i + 1] == out[..off + i] + [p[i]];
    }
  }

  // ----- the command block -----

  /** An absent flags field is 0. */
  datatype Command = Command(
    domain: int, name: Option<seq<Byte>>, epoch: Option<seq<Byte>>, expiresAt: int, counter: int, flags: int)

  predicate Short(v: Option<seq<Byte>>) { v.Some? ==> |v.value| <= 255 }

  function Optional(tag: Byte, v: Option<seq<Byte>>): seq<Entry> { if v.Some? then [Entry(tag, v.value)] else [] }

  function CommandEntries(c: Command): seq<Entry> {
    [Entry(SIGNATURE_TYPE, [AES_GCM_PERSONALIZED]), Entry(DOMAIN, [c.domain % 256])]
    + Optional(PERSONALIZATION, c.name)
    + Optional(EPOCH, c.epoch)
    + [Entry(EXPIRES_AT, U32(c.expiresAt)), Entry(COUNTER, U32(c.counter))]
    + Optional(FLAGS, if c.flags > 0 then Some(U32(c.flags)) else None)
  }

  /** The three entries both blocks start with. */
  function Head(signatureType: Byte, domain: int, name: Option<seq<Byte>>): seq<Entry> {
    [Entry(SIGNATURE_TYPE, [signatureType]), Entry(DOMAIN, [domain % 256])] + Optional(PERSONALIZATION, name)
  }

  method AddHead(m: MetadataBlockBuilder, signatureType: Byte, domain: int, name: Option<seq<Byte>>) returns (ok: bool)
    requires m.Valid() && m.entries == [] && m.lastTag == -1
    modifies m
    ensures m.Valid() && (ok <==> Short(name))
    ensures ok ==> m.lastTag <= PERSONALIZATION && m.entries == Head(signatureType, domain, name)
  {
    ok := m.Add(SIGNATURE_TYPE, Some([signatureType]));
    ok := m.Add(DOMAIN, Some([domain % 256]));
    ok := m.Add(PERSONALIZATION, name);
  }

  /** The bytes whose digest a command's encryption is bound to, or None if the builder throws. */
  method BuildAesGcmMetadata(c: Command) returns (r: Option<seq<Byte>>)
    ensures r.Some? <==> Short(c.name) && Short(c.epoch)
    ensures r.Some? ==> Fits(CommandEntries(c)) && r.value == Sealed(CommandEntries(c), [])
  {
    var m := new MetadataBlockBuilder();
    var ok := AddHead(m, AES_GCM_PERSONALIZED, c.domain, c.name);
    if !ok { return None; }
    ok := m.Add(EPOCH, c.epoch);
    if !ok { return None; }
    ok := m.AddUint32(EXPIRES_AT, c.expiresAt);
    ok := m.AddUint32(COUNTER, c.counter);
    if c.flags > 0 { ok := m.AddUint32(FLAGS, c.flags); }
    assert m.entries == CommandEntries(c);
    var total := m.Preimage(None);
    return Some(total);
  }

  // ----- the response block -----

  datatype Response = Response(
    domain: int, name: Option<seq<Byte>>, counter: int, flags: int, requestHash: Option<seq<Byte>>, fault: int)

  function ResponseEntries(p: Response): seq<Entry> {
    [Entry(SIGNATURE_TYPE, [AES_GCM_RESPONSE]), Entry(DOMAIN, [p.domain % 256])]
    + Optional(PERSONALIZATION, p.name)
    + [Entry(COUNTER, U32(p.counter)), Entry(FLAGS, U32(p.flags))]
    + Optional(REQUEST_HASH, p.requestHash)
    + [Entry(FAULT, U32(p.fault))]
  }

  method BuildAesGcmResponseMetadata(p: Response) returns (r: Option<seq<Byte>>)
    ensures r.Some? <==> Short(p.name) && Short(p.requestHash)
    ensures r.Some? ==> Fits(ResponseEntries(p)) && r.value == Sealed(ResponseEntries(p), [])
  {
    var m := new MetadataBlockBuilder();
    var ok := AddHead(m, AES_GCM_RESPONSE, p.domain, p.name);
    if !ok { return None; }
    ok := m.AddUint32(COUNTER, p.counter);
    ok := m.AddUint32(FLAGS, p.flags);
    ok := m.Add(REQUEST_HASH, p.requestHash);
    if !ok { return None; }
    ok := m.AddUint32(FAULT, p.fault);
    assert m.entries == ResponseEntries(p);
    var total := m.Preimage(None);
    return Some(total);
  }

  function MakeRequestHash(tag: seq<Byte>): seq<Byte> { [AES_GCM_PERSONALIZED] + tag }

  /** The request hash is the byte 5, for the request's signature type, and then the request's own tag. */
  lemma RequestHashReads(tag: seq<Byte>)
    ensures |MakeRequestHash(tag)| == 1 + |tag| && MakeRequestHash(tag)[0] == 5 && MakeRequestHash(tag)[1..] == tag
  {}

  // ----- what a block says about its fields -----

  function Lookup(es: seq<Entry>, tag: Byte): Option<seq<Byte>> {
    if es == [] then None else if es[0].tag == tag then Some(es[0].value) else Lookup(es[1..], tag)
  }

  lemma {:induction false} LookupConcat(a: seq<Entry>, b: seq<Entry>, tag: Byte)
    ensures Lookup(a + b, tag) == if Lookup(a, tag).Some? then Lookup(a, tag) else Lookup(b, tag)
  {
    if a == [] {
      assert a + b == b;
    } else {
      assert (a + b)[1..] == a[1..] + b;
      LookupConcat(a[1..], b, tag);
    }
  }

  lemma LookupTwo(e: Entry, f: Entry, tag: Byte)
    ensures Lookup([e, f], tag) == if e.tag == tag then Some(e.value) else if f.tag == tag then Some(f.value) else None
  {
    LookupConcat([e], [f], tag);
    assert [e] + [f] == [e, f] && [e][1..] == [] && [f][1..] == [];
  }

  lemma CommandLookup(c: Command, tag: Byte)
    ensures Lookup(CommandEntries(c), tag) ==
      if tag == SIGNATURE_TYPE then Some([AES_GCM_PERSONALIZED])
      else if tag == DOMAIN then Some([c.domain % 256])
      else if tag == PERSONALIZATION then c.name
      else if tag == EPOCH then c.epoch
      else if tag == EXPIRES_AT then Some(U32(c.expiresAt))
      else if tag == COUNTER then Some(U32(c.counter))
      else if tag == FLAGS && c.flags > 0 then Some(U32(c.flags))
      else None
  {
    var a := [Entry(SIGNATURE_TYPE, [AES_GCM_PERSONALIZED]), Entry(DOMAIN, [c.domain % 256])];
    var n, e := Optional(PERSONALIZATION, c.name), Optional(EPOCH, c.epoch);
    var x := [Entry(EXPIRES_AT, U32(c.expiresAt)), Entry(COUNTER, U32(c.counter))];
    var f := Optional(FLAGS, if c.flags > 0 then Some(U32(c.flags)) else None);
    LookupConcat(a, n, tag);
    LookupConcat(a + n, e, tag);
    LookupConcat(a + n + e, x, tag);
    LookupConcat(a + n + e + x, f, tag);
    LookupTwo(a[0], a[1], tag);
    LookupTwo(x[0], x[1], tag);
  }

  lemma ResponseLookup(p: Response, tag: Byte)
    ensures Lookup(ResponseEntries(p), tag) ==
      if tag == SIGNATURE_TYPE then Some([AES_GCM_RESPONSE])
      else if tag == DOMAIN then Some([p.domain % 256])
      else if tag == PERSONALIZATION then p.name
      else if tag == COUNTER then Some(U32(p.counter))
      else if tag == FLAGS then Some(U32(p.flags))
      else if tag == REQUEST_HASH then p.requestHash
      else if tag == FAULT then Some(U32(p.fault))
      else None
  {
    var a := [Entry(SIGNATURE_TYPE, [AES_GCM_RESPONSE]), Entry(DOMAIN, [p.domain % 256])];
    var n, h := Optional(PERSONALIZATION, p.name), Optional(REQUEST_HASH, p.requestHash);
    var x := [Entry(COUNTER, U32(p.counter)), Entry(FLAGS, U32(p.flags))];
    var f := [Entry(FAULT, U32(p.fault))];
    LookupConcat(a, n, tag);
    LookupConcat(a + n, x, tag);
    LookupConcat(a + n + x, h, tag);
    LookupConcat(a + n + x + h, f, tag);
    LookupTwo(a[0], a[1], tag);
    LookupTwo(x[0], x[1], tag);
  }

  /** Two fields have the same 32-bit image. */
  predicate SameWord(a: int, b: int) { a % 0x1_0000_0000 == b % 0x1_0000_0000 }

  predicate SameFlags(a: int, b: int) { (a > 0 <==> b > 0) && (a > 0 ==> SameWord(a, b)) }

  lemma WordBytes(a: int, b: int)
    ensures U32(a) == U32(b) <==> SameWord(a, b)
  {
    if U32(a) == U32(b) { U32Injective(a, b); }
  }

  lemma SealedInjective(a: seq<Entry>, b: seq<Entry>)
    requires Fits(a) && BelowEnd(a) && Fits(b) && BelowEnd(b)
    ensures Sealed(a, []) == Sealed(b, []) ==> a == b
  {
    DecodeInvertsSealed(a, []);
    DecodeInvertsSealed(b, []);
  }

  /** Two command blocks are the same bytes exactly when every field is, up to the field's width. */
  lemma CommandBlocksDistinct(c: Command, d: Command)
    requires Short(c.name) && Short(c.epoch) && Short(d.name) && Short(d.epoch)
    ensures Fits(CommandEntries(c)) && Fits(CommandEntries(d))
    ensures Sealed(CommandEntries(c), []) == Sealed(CommandEntries(d), []) <==>
      && c.domain % 256 == d.domain % 256 && c.name == d.name && c.epoch == d.epoch
      && SameWord(c.expiresAt, d.expiresAt) && SameWord(c.counter, d.counter) && SameFlags(c.flags, d.flags)
  {
    SealedInjective(CommandEntries(c), CommandEntries(d));
    if CommandEntries(c) == CommandEntries(d) {
      EqualEntriesEqualFields(c, d);
    }
    WordBytes(c.expiresAt, d.expiresAt);
    WordBytes(c.counter, d.counter);
    WordBytes(c.flags, d.flags);
  }

  lemma EqualEntriesEqualFields(c: Command, d: Command)
    requires CommandEntries(c) == CommandEntries(d)
    ensures c.domain % 256 == d.domain % 256 && c.name == d.name && c.epoch == d.epoch
    ensures SameWord(c.expiresAt, d.expiresAt) && SameWord(c.counter, d.counter) && SameFlags(c.flags, d.flags)
  {
    CommandFields(c);
    CommandFields(d);
    assert [c.domain % 256][0] == [d.domain % 256][0];
    WordBytes(c.expiresAt, d.expiresAt);
    WordBytes(c.counter, d.counter);
    WordBytes(c.flags, d.flags);
  }

  /** The fields can be read off the entries. */
  lemma CommandFields(c: Command)
    ensures var es := CommandEntries(c);
      && Lookup(es, DOMAIN) == Some([c.domain % 256])
      && Lookup(es, PERSONALIZATION) == c.name && Lookup(es, EPOCH) == c.epoch
      && Lookup(es, EXPIRES_AT) == Some(U32(c.expiresAt)) && Lookup(es, COUNTER) == Some(U32(c.counter))
      && Lookup(es, FLAGS) == if c.flags > 0 then Some(U32(c.flags)) else None
  {
    forall tag: Byte { CommandLookup(c, tag); }
  }

  /** A response block fixes every field, and with it the request it answers. */
  lemma ResponseBlocksDistinct(p: Response, q: Response)
    requires Short(p.name) && Short(p.requestHash) && Short(q.name) && Short(q.requestHash)
    ensures Fits(ResponseEntries(p)) && Fits(ResponseEntries(q))
    ensures Sealed(ResponseEntries(p), []) == Sealed(ResponseEntries(q), []) <==>
      && p.domain % 256 == q.domain % 256 && p.name == q.name && p.requestHash == q.requestHash
      && SameWord(p.counter, q.counter) && SameWord(p.flags, q.flags) && SameWord(p.fault, q.fault)
  {
    SealedInjective(ResponseEntries(p), ResponseEntries(q));
    WordBytes(p.counter, q.counter);
    WordBytes(p.flags, q.flags);
    WordBytes(p.fault, q.fault);
    if Sealed(ResponseEntries(p), []) == Sealed(ResponseEntries(q), []) {
      ResponseFields(p);
      ResponseFields(q);
    }
  }

  lemma ResponseFields(p: Response)
    ensures var es := ResponseEntries(p);
      && Lookup(es, DOMAIN) == Some([p.domain % 256])
      && Lookup(es, PERSONALIZATION) == p.name && Lookup(es, REQUEST_HASH) == p.requestHash
      && Lookup(es, COUNTER) == Some(U32(p.counter)) && Lookup(es, FLAGS) == Some(U32(p.flags))
      && Lookup(es, FAULT) == Some(U32(p.fault))
  {
    forall tag: Byte { ResponseLookup(p, tag); }
  }

  /** Responses bound to different requests never share a block. */
  lemma ResponsesBindRequests(p: Response, q: Response, tag: seq<Byte>, other: seq<Byte>)
    requires Short(p.name) && Short(q.name) && |tag| < 255 && |other| < 255 && tag != other
    requires p.requestHash == Some(MakeRequestHash(tag)) && q.requestHash == Some(MakeRequestHash(other))
    ensures Fits(ResponseEntries(p)) && Fits(ResponseEntries(q))
    ensures Sealed(ResponseEntries(p), []) != Sealed(ResponseEntries(q), [])
  {
    ResponseBlocksDistinct(p, q);
    assert MakeRequestHash(tag)[1..] == tag && MakeRequestHash(other)[1..] == other;
  }

  /** No command block is a response block, whatever follows either of them. */
  lemma CommandIsNoResponse(c: Command, p: Response, t: seq<Byte>, u: seq<Byte>)
    requires Short(c.name) && Short(c.epoch) && Short(p.name) && Short(p.requestHash)
    ensures Fits(CommandEntries(c)) && Fits(ResponseEntries(p))
    ensures Sealed(CommandEntries(c), t) != Sealed(ResponseEntries(p), u)
  {
    DecodeInvertsSealed(CommandEntries(c), t);
    DecodeInvertsSealed(ResponseEntries(p), u);
    assert CommandEntries(c)[0].value[0] == AES_GCM_PERSONALIZED && ResponseEntries(p)[0].value[0] == AES_GCM_RESPONSE;
  }
}
