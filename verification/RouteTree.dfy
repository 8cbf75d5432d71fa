/**
 The recursive half of the route codec: attributes hold next hops, next hops hold
 attributes. src/route/attribute.rs (RTA_MULTIPATH) and src/route/next_hops.rs.
 */
module RouteTree {
  import opened Wire
  import opened Framing
  import opened Encap
  import opened RouteAttributes

  datatype RouteAttribute = MultiPath(hops: seq<RouteNextHop>) | Leaf(leaf: RouteLeaf)

  datatype RouteNextHop = RouteNextHop(flags: u8, hops: u8, interfaceIndex: u32, attributes: seq<RouteAttribute>)

  const PAYLOAD_OFFSET: nat := 8

  // ---- emitting ----

  function Kind(a: RouteAttribute): u16 {
    match a
    case MultiPath(_) => RTA_MULTIPATH
    case Leaf(l) => LeafKind(l)
  }

  function Value(a: RouteAttribute): Bytes
    decreases a, 0
  {
    match a
    case MultiPath(hs) => EncodeHops(hs)
    case Leaf(l) => LeafValue(l)
  }

  function EncodeHops(hs: seq<RouteNextHop>): (b: Bytes)
    ensures |b| % 4 == 0
    decreases hs
  {
    if hs == [] then []
    else
      var head, rest := EncodeHop(hs[0]), EncodeHops(hs[1..]);
      AlignedSum(|head|, |rest|);
      head + rest
  }

  function EncodeHop(h: RouteNextHop): (b: Bytes)
    ensures |b| >= PAYLOAD_OFFSET && |b| % 4 == 0
    decreases h
  {
    HopFixedPart(h) + EncodeAttributes(h.attributes)
  }

  /** The length field is the `buffer_len` of the next hop, cut to 16 bits. */
  function HopFixedPart(h: RouteNextHop): (b: Bytes)
    ensures |b| == PAYLOAD_OFFSET
    decreases h, 0
  {
    Put16(HopLen(h) % 0x1_0000) + [h.flags, h.hops] + Put32(h.interfaceIndex)
  }

  function EncodeAttributes(xs: seq<RouteAttribute>): (b: Bytes)
    ensures |b| % 4 == 0
    decreases xs
  {
    if xs == [] then []
    else
      var head, rest := EncodeNla(RawAttribute(xs[0])), EncodeAttributes(xs[1..]);
      AlignedSum(|head|, |rest|);
      head + rest
  }

  function RawAttribute(a: RouteAttribute): Nla
    decreases a, 1
  {
    Nla(Kind(a), Value(a))
  }

  // ---- value_len and buffer_len ----

  function ValueLen(a: RouteAttribute): nat
    decreases a
  {
    match a
    case MultiPath(hs) => HopsLen(hs)
    case Leaf(l) => LeafLen(l)
  }

  function HopsLen(hs: seq<RouteNextHop>): nat
    decreases hs
  {
    if hs == [] then 0 else HopLen(hs[0]) + HopsLen(hs[1..])
  }

  function HopLen(h: RouteNextHop): nat
    decreases h
  {
    PAYLOAD_OFFSET + AttributesLen(h.attributes)
  }

  function AttributesLen(xs: seq<RouteAttribute>): nat
    decreases xs
  {
    if xs == [] then 0 else PaddedLen(ValueLen(xs[0])) + AttributesLen(xs[1..])
  }

  /** The announced sizes are the emitted sizes, at every level of the tree. */
  lemma {:induction false} ValueLenIs(a: RouteAttribute)
    ensures |Value(a)| == ValueLen(a)
    decreases a
  {
    match a
    case MultiPath(hs) => HopsLenIs(hs);
    case Leaf(l) => LeafLenIs(l);
  }

  lemma {:induction false} HopsLenIs(hs: seq<RouteNextHop>)
    ensures |EncodeHops(hs)| == HopsLen(hs)
    decreases hs
  {
    if hs != [] {
      HopLenIs(hs[0]);
      HopsLenIs(hs[1..]);
    }
  }

  lemma {:induction false} HopLenIs(h: RouteNextHop)
    ensures |EncodeHop(h)| == HopLen(h)
    decreases h
  {
    AttributesLenIs(h.attributes);
  }

  lemma {:induction false} AttributesLenIs(xs: seq<RouteAttribute>)
    ensures |EncodeAttributes(xs)| == AttributesLen(xs)
    decreases xs
  {
    if xs != [] {
      ValueLenIs(xs[0]);
      AttributesLenIs(xs[1..]);
    }
  }

  // ---- parsing ----

  /** `RouteNextHopBuffer::new_checked`. */
  predicate HopChecked(b: Bytes) {
    |b| >= PAYLOAD_OFFSET && Get16(b[..2]) <= |b|
  }

  function HopLength(b: Bytes): u16
    requires |b| >= PAYLOAD_OFFSET
  {
    Get16(b[..2])
  }

  function DecodeAttribute(n: Nla, c: Context): Result<RouteAttribute>
    decreases 4 + |n.value|, 0
  {
    if n.Type() == RTA_MULTIPATH then
      var hs :- DecodeHops(n.value, c);
      Ok(MultiPath(hs))
    else
      var l :- DecodeLeaf(n, c);
      Ok(Leaf(l))
  }

  function DecodeAttributes(nlas: seq<Nla>, clean: bool, c: Context): Result<seq<RouteAttribute>>
    decreases ScanSize(nlas), 1
  {
    if nlas == [] then (if clean then Ok([]) else Err)
    else
      var a :- DecodeAttribute(nlas[0], c);
      var rest :- DecodeAttributes(nlas[1..], clean, c);
      Ok([a] + rest)
  }

  /** A length field below 8 makes `attributes()` slice past the end of the payload. */
  function DecodeHop(b: Bytes, c: Context): (r: Result<RouteNextHop>)
    ensures r.Ok? ==> HopChecked(b) && HopLength(b) >= PAYLOAD_OFFSET
    decreases |b|, 0
  {
    if !HopChecked(b) then Err
    else if HopLength(b) < PAYLOAD_OFFSET then Panic
    else
      var payload := b[PAYLOAD_OFFSET..HopLength(b)];
      ScanBounds(payload);
      var xs :- DecodeAttributes(Scan(payload).nlas, Scan(payload).clean, c);
      Ok(RouteNextHop(b[2], b[3], Get32(b[4..8]), xs))
  }

  /** The RTA_MULTIPATH loop: it stops when a next hop ends where the buffer ends. */
  function DecodeHops(b: Bytes, c: Context): Result<seq<RouteNextHop>>
    decreases |b|, 1
  {
    var h :- DecodeHop(b, c);
    if |b| == HopLength(b) then Ok([h])
    else
      var rest :- DecodeHops(b[HopLength(b)..], c);
      Ok([h] + rest)
  }

  // ---- which trees a decoder can produce ----

  predicate Fits(a: RouteAttribute, c: Context)
    decreases a
  {
    match a
    case MultiPath(hs) => hs != [] && HopsFit(hs, c)
    case Leaf(l) => l.Fits(c)
  }

  predicate HopsFit(hs: seq<RouteNextHop>, c: Context)
    decreases hs
  {
    hs == [] || (HopFits(hs[0], c) && HopsFit(hs[1..], c))
  }

  predicate HopFits(h: RouteNextHop, c: Context)
    decreases h
  {
    AttributesFit(h.attributes, c)
  }

  predicate AttributesFit(xs: seq<RouteAttribute>, c: Context)
    decreases xs
  {
    xs == [] || (Fits(xs[0], c) && AttributesFit(xs[1..], c))
  }

  // ---- the tree without segment-routing TLVs ----

  function Normal(a: RouteAttribute): RouteAttribute
    decreases a
  {
    match a
    case MultiPath(hs) => MultiPath(NormalHops(hs))
    case Leaf(l) => Leaf(l.Normal())
  }

  function NormalHops(hs: seq<RouteNextHop>): seq<RouteNextHop>
    decreases hs
  {
    if hs == [] then [] else [NormalHop(hs[0])] + NormalHops(hs[1..])
  }

  function NormalHop(h: RouteNextHop): RouteNextHop
    decreases h
  {
    h.(attributes := NormalAttributes(h.attributes))
  }

  function NormalAttributes(xs: seq<RouteAttribute>): seq<RouteAttribute>
    decreases xs
  {
    if xs == [] then [] else [Normal(xs[0])] + NormalAttributes(xs[1..])
  }

  // ---- soundness: decoding yields only fitting trees ----

  lemma {:induction false} DecodeSound(n: Nla, c: Context)
    requires DecodeAttribute(n, c).Ok?
    ensures Fits(DecodeAttribute(n, c).value, c)
    decreases 4 + |n.value|, 0
  {
    if n.Type() == RTA_MULTIPATH {
      DecodeHopsSound(n.value, c);
    } else {
      LeafSound(n, c);
    }
  }

  lemma {:induction false} DecodeAttributesSound(nlas: seq<Nla>, clean: bool, c: Context)
    requires DecodeAttributes(nlas, clean, c).Ok?
    ensures AttributesFit(DecodeAttributes(nlas, clean, c).value, c)
    decreases ScanSize(nlas), 1
  {
    if nlas != [] {
      DecodeSound(nlas[0], c);
      DecodeAttributesSound(nlas[1..], clean, c);
      assert DecodeAttributes(nlas, clean, c).value[1..] == DecodeAttributes(nlas[1..], clean, c).value;
    }
  }

  lemma {:induction false} DecodeHopSound(b: Bytes, c: Context)
    requires DecodeHop(b, c).Ok?
    ensures HopFits(DecodeHop(b, c).value, c)
    decreases |b|, 0
  {
    var payload := b[PAYLOAD_OFFSET..HopLength(b)];
    ScanBounds(payload);
    DecodeAttributesSound(Scan(payload).nlas, Scan(payload).clean, c);
  }

  lemma {:induction false} DecodeHopsSound(b: Bytes, c: Context)
    requires DecodeHops(b, c).Ok?
    ensures DecodeHops(b, c).value != [] && HopsFit(DecodeHops(b, c).value, c)
    decreases |b|, 1
  {
    DecodeHopSound(b, c);
    if |b| != HopLength(b) {
      DecodeHopsSound(b[HopLength(b)..], c);
      assert DecodeHops(b, c).value[1..] == DecodeHops(b[HopLength(b)..], c).value;
    } else {
      assert DecodeHops(b, c).value[1..] == [];
    }
  }

  // ---- round trip ----

  function RawAttributes(xs: seq<RouteAttribute>): (ns: seq<Nla>)
    ensures |ns| == |xs|
  {
    if xs == [] then [] else [RawAttribute(xs[0])] + RawAttributes(xs[1..])
  }

  lemma {:induction false} EncodeAttributesIs(xs: seq<RouteAttribute>)
    ensures EncodeAttributes(xs) == EncodeNlas(RawAttributes(xs))
  {
    if xs != [] {
      EncodeAttributesIs(xs[1..]);
    }
  }

  lemma {:induction false} AttributeRoundTrip(a: RouteAttribute, c: Context)
    requires Fits(a, c) && |Value(a)| <= 0xFFFF
    ensures DecodeAttribute(RawAttribute(a), c) == Ok(Normal(a))
    decreases a
  {
    hide LeafValue, LeafKind, DecodeLeaf, EncodeHops, DecodeHops, NormalHops, HopsFit;
    match a
    case MultiPath(hs) => HopsRoundTrip(hs, c);
    case Leaf(l) =>
      LeafRoundTrip(l, c);
      LeafType(l, c);
  }

  lemma {:induction false} HopsRoundTrip(hs: seq<RouteNextHop>, c: Context)
    requires hs != [] && HopsFit(hs, c) && |EncodeHops(hs)| <= 0xFFFF
    ensures DecodeHops(EncodeHops(hs), c) == Ok(NormalHops(hs))
    decreases hs
  {
    var h, more := hs[0], hs[1..];
    var tail := EncodeHops(more);
    HopRoundTrip(h, c, tail);
    var n := |EncodeHop(h)|;
    var b := EncodeHop(h) + tail;
    hide EncodeHop, DecodeHop;
    if more == [] {
      assert tail == [] && NormalHops(more) == [];
      assert [NormalHop(h)] + [] == [NormalHop(h)];
    } else {
      HopsRoundTrip(more, c);
      assert EncodeHops(more) == EncodeHop(more[0]) + EncodeHops(more[1..]);
      assert |tail| > 0;
      assert b[n..] == tail;
    }
  }

  /** Decoding an emitted next hop returns it, whatever octets follow. */
  lemma {:induction false} HopRoundTrip(h: RouteNextHop, c: Context, tail: Bytes)
    requires HopFits(h, c) && |EncodeHop(h)| <= 0xFFFF
    ensures DecodeHop(EncodeHop(h) + tail, c) == Ok(NormalHop(h))
    ensures HopLength(EncodeHop(h) + tail) == |EncodeHop(h)|
    decreases h, 1
  {
    var b := EncodeHop(h) + tail;
    var xs := h.attributes;
    HopLenIs(h);
    HopFields(h, EncodeAttributes(xs), tail);
    EncodeAttributesIs(xs);
    MembersFit(RawAttributes(xs));
    AttributesRoundTrip(xs, c);
  }

  lemma HopFields(h: RouteNextHop, payload: Bytes, tail: Bytes)
    requires PAYLOAD_OFFSET + |payload| == HopLen(h) <= 0xFFFF
    ensures var b := HopFixedPart(h) + payload + tail;
            HopChecked(b) && HopLength(b) == HopLen(h) && b[2] == h.flags && b[3] == h.hops &&
            Get32(b[4..8]) == h.interfaceIndex && b[PAYLOAD_OFFSET..HopLen(h)] == payload
  {
    hide HopLen;
    var b := HopFixedPart(h) + payload + tail;
    assert b[..2] == Put16(HopLen(h));
    assert b[4..8] == Put32(h.interfaceIndex);
  }

  lemma {:induction false} AttributesRoundTrip(xs: seq<RouteAttribute>, c: Context)
    requires AttributesFit(xs, c) && AllFit(RawAttributes(xs))
    ensures Scan(EncodeAttributes(xs)) == Framed(RawAttributes(xs), true)
    ensures DecodeAttributes(RawAttributes(xs), true, c) == Ok(NormalAttributes(xs))
    decreases xs, 1
  {
    EncodeAttributesIs(xs);
    ScanExact(RawAttributes(xs));
    DecodeRawAttributes(xs, c);
  }

  lemma {:induction false} DecodeRawAttributes(xs: seq<RouteAttribute>, c: Context)
    requires AttributesFit(xs, c) && AllFit(RawAttributes(xs))
    ensures DecodeAttributes(RawAttributes(xs), true, c) == Ok(NormalAttributes(xs))
    decreases xs, 0
  {
    if xs != [] {
      assert RawAttributes(xs)[0].Fits();
      AttributeRoundTrip(xs[0], c);
      assert RawAttributes(xs)[1..] == RawAttributes(xs[1..]);
      DecodeRawAttributes(xs[1..], c);
    }
  }

  // ---- trees that lose nothing ----

  /** No segment-routing header in the tree carries a TLV. */
  predicate TlvFree(a: RouteAttribute)
    decreases a
  {
    match a
    case MultiPath(hs) => HopsTlvFree(hs)
    case Leaf(l) => l.Encaps? ==> forall i :: 0 <= i < |l.encaps| ==> l.encaps[i].TlvFree()
  }

  predicate HopsTlvFree(hs: seq<RouteNextHop>)
    decreases hs
  {
    hs == [] || (AttributesTlvFree(hs[0].attributes) && HopsTlvFree(hs[1..]))
  }

  predicate AttributesTlvFree(xs: seq<RouteAttribute>)
    decreases xs
  {
    xs == [] || (TlvFree(xs[0]) && AttributesTlvFree(xs[1..]))
  }

  lemma {:induction false} NormalIsIdentity(a: RouteAttribute, c: Context)
    requires Fits(a, c)
    ensures Normal(a) == a <==> TlvFree(a)
    decreases a
  {
    match a
    case MultiPath(hs) => NormalHopsIsIdentity(hs, c);
    case Leaf(l) =>
      if l.Encaps? {
        NormalEncapsIsIdentity(l.encaps, c.encap);
      }
  }

  lemma {:induction false} NormalHopsIsIdentity(hs: seq<RouteNextHop>, c: Context)
    requires HopsFit(hs, c)
    ensures NormalHops(hs) == hs <==> HopsTlvFree(hs)
    decreases hs
  {
    if hs != [] {
      NormalAttributesIsIdentity(hs[0].attributes, c);
      NormalHopsIsIdentity(hs[1..], c);
      assert hs == [hs[0]] + hs[1..];
      assert NormalHops(hs)[0] == NormalHop(hs[0]) && NormalHops(hs)[1..] == NormalHops(hs[1..]);
    }
  }

  lemma {:induction false} NormalAttributesIsIdentity(xs: seq<RouteAttribute>, c: Context)
    requires AttributesFit(xs, c)
    ensures NormalAttributes(xs) == xs <==> AttributesTlvFree(xs)
    decreases xs
  {
    if xs != [] {
      NormalIsIdentity(xs[0], c);
      NormalAttributesIsIdentity(xs[1..], c);
      assert xs == [xs[0]] + xs[1..];
      assert NormalAttributes(xs)[0] == Normal(xs[0]) && NormalAttributes(xs)[1..] == NormalAttributes(xs[1..]);
    }
  }
}
