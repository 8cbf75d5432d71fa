/**
 The route codec as the crate runs it: loops over an attribute iterator and over a
 shrinking multipath buffer on the way in, running offsets into one buffer on the way out.
 Each procedure is proved to compute the function of the same construct in `RouteTree`
 and `Route`.
 */
module RouteCodec {
  import opened Wire
  import opened Framing
  import opened Mpls
  import opened Encap
  import opened RouteAttributes
  import opened RouteTree
  import opened Families
  import opened Route

  // ---- parsing ----

  function DecodeBuffer(b: Bytes, c: Context): Result<seq<RouteAttribute>> {
    DecodeAttributes(Scan(b).nlas, Scan(b).clean, c)
  }

  lemma DecodeBufferStep(b: Bytes, c: Context)
    requires b != [] && HeadOk(b)
    ensures DecodeBuffer(b, c) ==
            match DecodeAttribute(Head(b), c)
            case Ok(a) => Prepend([a], DecodeBuffer(AfterHead(b), c))
            case Err => Err
            case Panic => Panic
  {
    hide DecodeAttribute, HeadOk, Head, AfterHead;
    var f := Scan(b);
    assert f.nlas[0] == Head(b) && f.nlas[1..] == Scan(AfterHead(b)).nlas;
  }

  method ParseAttribute(n: Nla, c: Context) returns (r: Result<RouteAttribute>)
    ensures r == DecodeAttribute(n, c)
    decreases 4 + |n.value|, 0
  {
    if n.Type() == RTA_MULTIPATH {
      var hs := ParseMultipath(n.value, c);
      if hs.IsFailure() {
        return hs.PropagateFailure();
      }
      return Ok(MultiPath(hs.value));
    }
    var l := DecodeLeaf(n, c);
    if l.IsFailure() {
      return l.PropagateFailure();
    }
    return Ok(Leaf(l.value));
  }

  /** `loop { check; parse; push; if buf.len() == len { break } buf = &buf[len..] }` */
  method ParseMultipath(payload: Bytes, c: Context) returns (r: Result<seq<RouteNextHop>>)
    ensures r == DecodeHops(payload, c)
    decreases |payload|, 1
  {
    var nextHops: seq<RouteNextHop> := [];
    var buf := payload;
    PrependNothing(DecodeHops(payload, c));
    while true
      invariant |buf| <= |payload|
      invariant DecodeHops(payload, c) == Prepend(nextHops, DecodeHops(buf, c))
      decreases |buf|
    {
      var h := ParseNextHop(buf, c);
      if h.IsFailure() {
        return h.PropagateFailure();
      }
      var len := HopLength(buf);
      if |buf| == len {
        return Ok(nextHops + [h.value]);
      }
      assert DecodeHops(buf, c) == Prepend([h.value], DecodeHops(buf[len..], c)) by {
        hide DecodeHop;
      }
      PrependTwice(nextHops, h.value, DecodeHops(buf[len..], c));
      nextHops := nextHops + [h.value];
      buf := buf[len..];
    }
  }

  method ParseNextHop(b: Bytes, c: Context) returns (r: Result<RouteNextHop>)
    ensures r == DecodeHop(b, c)
    decreases |b|, 0
  {
    if !HopChecked(b) {
      return Err;
    }
    if HopLength(b) < PAYLOAD_OFFSET {
      return Panic;
    }
    var xs := ParseAttributes(b[PAYLOAD_OFFSET..HopLength(b)], c);
    if xs.IsFailure() {
      return xs.PropagateFailure();
    }
    return Ok(RouteNextHop(b[2], b[3], Get32(b[4..8]), xs.value));
  }

  /** `for nla_buf in buf.attributes() { nlas.push(parse(&nla_buf?)?) }` */
  method ParseAttributes(payload: Bytes, c: Context) returns (r: Result<seq<RouteAttribute>>)
    ensures r == DecodeBuffer(payload, c)
    decreases |payload|, 2
  {
    var xs: seq<RouteAttribute> := [];
    var it := Iterate(payload);
    assert it.Rest() == payload;
    PrependNothing(DecodeBuffer(payload, c));
    while it.Item().Some?
      invariant it.buffer == payload
      invariant DecodeBuffer(payload, c) == Prepend(xs, DecodeBuffer(it.Rest(), c))
      decreases |payload| - it.position
    {
      var item := it.Item().value;
      if item.Err? {
        return Err;
      }
      DecodeBufferStep(it.Rest(), c);
      var a := ParseAttribute(item.value, c);
      if a.IsFailure() {
        return a.PropagateFailure();
      }
      PrependTwice(xs, a.value, DecodeBuffer(AfterHead(it.Rest()), c));
      xs := xs + [a.value];
      it := it.Advance();
    }
    assert xs + [] == xs;
    return Ok(xs);
  }

  /** The first pass: skip errors, stop at the first encap type that parses. */
  method SearchEncapType(payload: Bytes, family: AddressFamily, kind: RouteType) returns (t: EncapType)
    ensures t == FindEncapType(Scan(payload).nlas, family, kind)
  {
    t := NoEncap;
    var it := Iterate(payload);
    assert it.Rest() == payload;
    while it.Item().Some?
      invariant it.buffer == payload && t == NoEncap
      invariant FindEncapType(Scan(payload).nlas, family, kind) == FindEncapType(Scan(it.Rest()).nlas, family, kind)
      decreases |payload| - it.position
    {
      var item := it.Item().value;
      if item.Ok? {
        assert Scan(it.Rest()).nlas[1..] == Scan(AfterHead(it.Rest())).nlas;
        if item.value.Type() == RTA_ENCAP_TYPE {
          var a := ParseAttribute(item.value, Context(family, kind, t));
          if a.Ok? && a.value.Leaf? && a.value.leaf.EncapTypeIs? {
            t := a.value.leaf.encapType;
            return;
          }
        }
      }
      it := it.Advance();
    }
  }

  method ParseMessage(b: Bytes) returns (r: Result<RouteMessage>)
    ensures r == DecodeMessage(b)
  {
    if |b| < ROUTE_HEADER_LEN {
      return Err;
    }
    var h := DecodeHeader(b);
    var payload := b[ROUTE_HEADER_LEN..];
    var t := SearchEncapType(payload, h.family, h.kind);
    var xs := ParseAttributes(payload, Context(h.family, h.kind, t));
    if xs.IsFailure() {
      return xs.PropagateFailure();
    }
    return Ok(RouteMessage(h, xs.value));
  }

  // ---- emitting ----

  method EmitLeafValue(buf: array<u8>, off: nat, l: RouteLeaf)
    requires off + |LeafValue(l)| <= buf.Length
    modifies buf
    ensures buf[..] == Splice(old(buf[..]), off, LeafValue(l))
  {
    match l
    case NewDestination(ls) => EmitLabels(buf, off, ls);
    case Encaps(es) => EmitNlas(buf, off, Map(es, RawEncap));
    case Metrics(ms) => EmitNlas(buf, off, Map(ms, RawMetric));
    case _ => CopyInto(buf, off, LeafValue(l));
  }

  /** Header, value written in place, explicit padding. */
  method EmitAttribute(buf: array<u8>, off: nat, a: RouteAttribute)
    requires off + |EncodeNla(RawAttribute(a))| <= buf.Length
    modifies buf
    ensures buf[..] == Splice(old(buf[..]), off, EncodeNla(RawAttribute(a)))
    decreases a, 1
  {
    ghost var s := buf[..];
    ValueLenIs(a);
    var n := ValueLen(a);
    CopyInto(buf, off, Header(Kind(a), n));
    EmitValue(buf, off + 4, a);
    SpliceTwice(s, off, Header(Kind(a), n), Value(a));
    CopyInto(buf, off + 4 + n, Zeros(Pad(n)));
    SpliceTwice(s, off, Header(Kind(a), n) + Value(a), Zeros(Pad(n)));
  }

  method EmitValue(buf: array<u8>, off: nat, a: RouteAttribute)
    requires off + |Value(a)| <= buf.Length
    modifies buf
    ensures buf[..] == Splice(old(buf[..]), off, Value(a))
    decreases a, 0
  {
    ValueLenIs(a);
    match a
    case MultiPath(hs) => EmitHops(buf, off, hs);
    case Leaf(l) => EmitLeafValue(buf, off, l);
  }

  lemma {:induction false} EncodeHopsConcat(a: seq<RouteNextHop>, b: seq<RouteNextHop>)
    ensures EncodeHops(a + b) == EncodeHops(a) + EncodeHops(b)
  {
    hide EncodeHop;
    if a == [] {
      assert a + b == b;
    } else {
      assert (a + b)[1..] == a[1..] + b;
      EncodeHopsConcat(a[1..], b);
    }
  }

  lemma EncodeHopsStep(hs: seq<RouteNextHop>, i: nat)
    requires i < |hs|
    ensures EncodeHops(hs[..i + 1]) == EncodeHops(hs[..i]) + EncodeHop(hs[i])
    ensures |EncodeHops(hs[..i + 1])| <= |EncodeHops(hs)|
  {
    hide EncodeHop;
    assert hs[..i + 1] == hs[..i] + [hs[i]];
    EncodeHopsConcat(hs[..i], [hs[i]]);
    assert EncodeHops([hs[i]]) == EncodeHop(hs[i]) + EncodeHops([hs[i]][1..]);
    assert hs == hs[..i + 1] + hs[i + 1..];
    EncodeHopsConcat(hs[..i + 1], hs[i + 1..]);
  }

  /** The multipath arm: `nh.emit(&mut buffer[offset..offset + len]); offset += len`. */
  method EmitHops(buf: array<u8>, off: nat, hs: seq<RouteNextHop>)
    requires off + |EncodeHops(hs)| <= buf.Length
    modifies buf
    ensures buf[..] == Splice(old(buf[..]), off, EncodeHops(hs))
    decreases hs
  {
    ghost var s := buf[..];
    var offset := off;
    SpliceNothing(s, off);
    assert EncodeHops(hs[..0]) == [];
    assert hs[..|hs|] == hs;
    ghost var done: Bytes := [];
    hide EncodeHops, EncodeHop, HopLen, Splice;
    for i := 0 to |hs|
      invariant done == EncodeHops(hs[..i]) && offset == off + |done| <= buf.Length
      invariant buf[..] == Splice(s, off, done)
    {
      EncodeHopsStep(hs, i);
      HopLenIs(hs[i]);
      EmitHop(buf, offset, hs[i]);
      SpliceTwice(s, off, done, EncodeHop(hs[i]));
      done := done + EncodeHop(hs[i]);
      offset := offset + HopLen(hs[i]);
    }
  }

  method EmitHop(buf: array<u8>, off: nat, h: RouteNextHop)
    requires off + |EncodeHop(h)| <= buf.Length
    modifies buf
    ensures buf[..] == Splice(old(buf[..]), off, EncodeHop(h))
    decreases h
  {
    ghost var s := buf[..];
    HopLenIs(h);
    CopyInto(buf, off, HopFixedPart(h));
    EmitAttributes(buf, off + PAYLOAD_OFFSET, h.attributes);
    SpliceTwice(s, off, HopFixedPart(h), EncodeAttributes(h.attributes));
  }

  lemma EncodeAttributesStep(xs: seq<RouteAttribute>, i: nat)
    requires i < |xs|
    ensures EncodeAttributes(xs[..i + 1]) == EncodeAttributes(xs[..i]) + EncodeNla(RawAttribute(xs[i]))
    ensures |EncodeAttributes(xs[..i + 1])| == |EncodeAttributes(xs[..i])| + PaddedLen(ValueLen(xs[i]))
    ensures |EncodeAttributes(xs[..i + 1])| <= |EncodeAttributes(xs)|
  {
    RawLen(xs[i]);
    hide RawAttribute, EncodeNla, EncodeAttributes, PaddedLen;
    EncodeAttributesIs(xs);
    EncodeAttributesIs(xs[..i]);
    EncodeAttributesIs(xs[..i + 1]);
    RawAttributesAt(xs, i);
    EncodeStep(RawAttributes(xs), i);
  }

  lemma {:induction false} RawAttributesAt(xs: seq<RouteAttribute>, i: nat)
    requires i < |xs|
    ensures RawAttributes(xs)[i] == RawAttribute(xs[i])
    ensures RawAttributes(xs[..i]) == RawAttributes(xs)[..i]
    ensures RawAttributes(xs[..i + 1]) == RawAttributes(xs)[..i + 1]
  {
    hide RawAttribute;
    if i == 0 {
      assert RawAttributes(xs[..1]) == [RawAttribute(xs[0])] + RawAttributes(xs[..1][1..]);
    } else {
      RawAttributesAt(xs[1..], i - 1);
      assert xs[1..][..i - 1] == xs[..i][1..];
      assert xs[1..][..i] == xs[..i + 1][1..];
    }
  }

  /** The slice emitter: `end = start + attr_len; nla.emit(&mut buffer[start..end]); start = end`. */
  method EmitAttributes(buf: array<u8>, off: nat, xs: seq<RouteAttribute>)
    requires off + |EncodeAttributes(xs)| <= buf.Length
    modifies buf
    ensures buf[..] == Splice(old(buf[..]), off, EncodeAttributes(xs))
    decreases xs
  {
    ghost var s := buf[..];
    var start := off;
    SpliceNothing(s, off);
    assert EncodeAttributes(xs[..0]) == [];
    assert xs[..|xs|] == xs;
    ghost var done: Bytes := [];
    hide EncodeAttributes, RawAttribute, EncodeNla, ValueLen, PaddedLen, Splice;
    for i := 0 to |xs|
      invariant done == EncodeAttributes(xs[..i]) && start == off + |done| <= buf.Length
      invariant buf[..] == Splice(s, off, done)
    {
      ghost var e := EncodeNla(RawAttribute(xs[i]));
      EncodeAttributesStep(xs, i);
      assert |done + e| <= |EncodeAttributes(xs)|;
      var end := start + PaddedLen(ValueLen(xs[i]));
      EmitAttribute(buf, start, xs[i]);
      SpliceTwice(s, off, done, e);
      done := done + e;
      start := end;
    }
  }

  lemma RawLen(a: RouteAttribute)
    ensures |EncodeNla(RawAttribute(a))| == PaddedLen(ValueLen(a))
  {
    ValueLenIs(a);
  }

  /** Emitting into a buffer of exactly `buffer_len` octets. */
  method EmitMessage(m: RouteMessage) returns (buf: array<u8>)
    ensures fresh(buf) && buf[..] == EncodeMessage(m)
    ensures buf.Length == ROUTE_HEADER_LEN + AttributesLen(m.attributes)
  {
    hide AttributesLen, EncodeAttributes, EncodeHeader;
    AttributesLenIs(m.attributes);
    buf := new u8[ROUTE_HEADER_LEN + AttributesLen(m.attributes)](i => 0);
    ghost var s := buf[..];
    assert Splice(s, 0, EncodeMessage(m)) == EncodeMessage(m);
    hide Splice;
    CopyInto(buf, 0, EncodeHeader(m.header));
    EmitAttributes(buf, ROUTE_HEADER_LEN, m.attributes);
    SpliceTwice(s, 0, EncodeHeader(m.header), EncodeAttributes(m.attributes));
  }
}
