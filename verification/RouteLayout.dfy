/**
 Where everything in a route attribute tree ends up in the buffer. Offsets are computed
 from `value_len` and `buffer_len` alone, as the emitter computes them.
 */
module RouteLayout {
  import opened Wire
  import opened Framing
  import opened RouteAttributes
  import opened RouteTree

  datatype Place = Place(offset: nat, size: nat)

  // ---- nodes: every attribute and next hop, with the length it stores ----

  function AttributeNodes(xs: seq<RouteAttribute>, base: nat): seq<Place>
    decreases xs
  {
    if xs == [] then []
    else
      [Place(base, 4 + ValueLen(xs[0]))] + NodesInside(xs[0], base + 4) +
      AttributeNodes(xs[1..], base + PaddedLen(ValueLen(xs[0])))
  }

  function NodesInside(a: RouteAttribute, base: nat): seq<Place>
    decreases a
  {
    if a.MultiPath? then HopNodes(a.hops, base) else []
  }

  function HopNodes(hs: seq<RouteNextHop>, base: nat): seq<Place>
    decreases hs
  {
    if hs == [] then []
    else
      [Place(base, HopLen(hs[0]))] + AttributeNodes(hs[0].attributes, base + PAYLOAD_OFFSET) +
      HopNodes(hs[1..], base + HopLen(hs[0]))
  }

  /** `part` is in `whole` at `base`. */
  predicate At(whole: Bytes, base: nat, part: Bytes) {
    base + |part| <= |whole| && whole[base..base + |part|] == part
  }

  lemma AtConcat(whole: Bytes, base: nat, a: Bytes, b: Bytes)
    ensures At(whole, base, a + b) <==> At(whole, base, a) && At(whole, base + |a|, b)
  {
    if base + |a| + |b| <= |whole| {
      assert whole[base..base + |a| + |b|] == whole[base..base + |a|] + whole[base + |a|..base + |a| + |b|];
      if At(whole, base, a + b) {
        assert whole[base..base + |a|] == (a + b)[..|a|] == a;
        assert whole[base + |a|..base + |a| + |b|] == (a + b)[|a|..] == b;
      }
    }
  }

  /** A node starts on a 4-byte boundary and the length stored there is its size. */
  predicate Stored(whole: Bytes, p: Place) {
    p.offset % 4 == 0 && 2 <= p.size && p.offset + p.size <= |whole| &&
    Get16(whole[p.offset..p.offset + 2]) == p.size
  }

  predicate AllStored(whole: Bytes, ps: seq<Place>) {
    forall i :: 0 <= i < |ps| ==> Stored(whole, ps[i])
  }

  lemma LengthFieldAt(whole: Bytes, base: nat, n: u16, rest: Bytes)
    requires base % 4 == 0 && At(whole, base, Put16(n) + rest) && |rest| + 2 >= n >= 2
    ensures Stored(whole, Place(base, n))
  {
    AtConcat(whole, base, Put16(n), rest);
  }

  lemma AllStoredConcat(whole: Bytes, p: Place, a: seq<Place>, b: seq<Place>)
    requires Stored(whole, p) && AllStored(whole, a) && AllStored(whole, b)
    ensures AllStored(whole, [p] + a + b)
  {
    hide Stored;
    var ps := [p] + a + b;
    forall i | 0 <= i < |ps| ensures Stored(whole, ps[i]) {
      assert ps[i] == if i == 0 then p else if i <= |a| then a[i - 1] else b[i - 1 - |a|];
    }
  }

  lemma NlaStored(whole: Bytes, base: nat, n: Nla)
    requires base % 4 == 0 && At(whole, base, EncodeNla(n)) && n.Fits()
    ensures Stored(whole, Place(base, 4 + |n.value|))
    ensures At(whole, base + 4, n.value)
  {
    hide At, Stored;
    var pad := Zeros(Pad(|n.value|));
    var rest := Put16(n.kind) + (n.value + pad);
    assert EncodeNla(n) == Put16(4 + |n.value|) + rest;
    LengthFieldAt(whole, base, 4 + |n.value|, rest);
    AtConcat(whole, base, Put16(4 + |n.value|), rest);
    AtConcat(whole, base + 2, Put16(n.kind), n.value + pad);
    AtConcat(whole, base + 4, n.value, pad);
  }

  lemma HopStored(whole: Bytes, base: nat, h: RouteNextHop)
    requires base % 4 == 0 && At(whole, base, EncodeHop(h)) && |EncodeHop(h)| <= 0xFFFF
    ensures Stored(whole, Place(base, HopLen(h)))
    ensures At(whole, base + PAYLOAD_OFFSET, EncodeAttributes(h.attributes))
    ensures AllFit(RawAttributes(h.attributes))
  {
    hide At, Stored, HopLen, EncodeAttributes, RawAttributes;
    var inner := EncodeAttributes(h.attributes);
    HopLenIs(h);
    AtConcat(whole, base, HopFixedPart(h), inner);
    var rest := [h.flags, h.hops] + Put32(h.interfaceIndex) + inner;
    assert EncodeHop(h) == Put16(HopLen(h)) + rest;
    LengthFieldAt(whole, base, HopLen(h), rest);
    EncodeAttributesIs(h.attributes);
    MembersFit(RawAttributes(h.attributes));
  }

  lemma {:induction false} AttributeNodesStored(whole: Bytes, base: nat, xs: seq<RouteAttribute>)
    requires base % 4 == 0 && At(whole, base, EncodeAttributes(xs)) && AllFit(RawAttributes(xs))
    ensures AllStored(whole, AttributeNodes(xs, base))
    decreases xs, 1
  {
    hide At, Stored, EncodeNla, Value, ValueLen, NodesInside;
    if xs != [] {
      var a, more := xs[0], xs[1..];
      var e := EncodeNla(RawAttribute(a));
      ValueLenIs(a);
      assert RawAttributes(xs)[0] == RawAttribute(a) && RawAttribute(a).Fits();
      assert RawAttributes(xs)[1..] == RawAttributes(more);
      AtConcat(whole, base, e, EncodeAttributes(more));
      NlaStored(whole, base, RawAttribute(a));
      InsideStored(whole, base + 4, a);
      AttributeNodesStored(whole, base + |e|, more);
      AllStoredConcat(whole, Place(base, 4 + ValueLen(a)), NodesInside(a, base + 4), AttributeNodes(more, base + |e|));
    }
  }

  lemma {:induction false} InsideStored(whole: Bytes, base: nat, a: RouteAttribute)
    requires base % 4 == 0 && At(whole, base, Value(a)) && |Value(a)| <= 0xFFFF
    ensures AllStored(whole, NodesInside(a, base))
    decreases a
  {
    hide At, Stored;
    if a.MultiPath? {
      HopNodesStored(whole, base, a.hops);
    }
  }

  lemma {:induction false} HopNodesStored(whole: Bytes, base: nat, hs: seq<RouteNextHop>)
    requires base % 4 == 0 && At(whole, base, EncodeHops(hs)) && |EncodeHops(hs)| <= 0xFFFF
    ensures AllStored(whole, HopNodes(hs, base))
    decreases hs
  {
    hide At, Stored, EncodeHop, HopLen, RawAttributes, EncodeAttributes, AttributeNodes;
    if hs != [] {
      var h, more := hs[0], hs[1..];
      HopLenIs(h);
      AtConcat(whole, base, EncodeHop(h), EncodeHops(more));
      HopStored(whole, base, h);
      AttributeNodesStored(whole, base + PAYLOAD_OFFSET, h.attributes);
      HopNodesStored(whole, base + HopLen(h), more);
      AllStoredConcat(whole, Place(base, HopLen(h)), AttributeNodes(h.attributes, base + PAYLOAD_OFFSET), HopNodes(more, base + HopLen(h)));
    }
  }

  /** In the emitted octets of a size-bounded tree every attribute and every next hop, at
      any depth, starts on a 4-byte boundary and stores its own modelled size. */
  lemma NodesAreStored(xs: seq<RouteAttribute>)
    requires AllFit(RawAttributes(xs))
    ensures AllStored(EncodeAttributes(xs), AttributeNodes(xs, 0))
  {
    var whole := EncodeAttributes(xs);
    assert whole[0..|whole|] == whole;
    AttributeNodesStored(whole, 0, xs);
  }

  // ---- regions: what each write of the emitter covers ----

  function AttributeRegions(xs: seq<RouteAttribute>, base: nat): seq<Place>
    decreases xs
  {
    if xs == [] then []
    else
      var n := ValueLen(xs[0]);
      [Place(base, 4)] + ValueRegions(xs[0], base + 4) + [Place(base + 4 + n, Pad(n))] +
      AttributeRegions(xs[1..], base + PaddedLen(n))
  }

  function ValueRegions(a: RouteAttribute, base: nat): seq<Place>
    decreases a
  {
    if a.MultiPath? then HopRegions(a.hops, base) else [Place(base, ValueLen(a))]
  }

  function HopRegions(hs: seq<RouteNextHop>, base: nat): seq<Place>
    decreases hs
  {
    if hs == [] then []
    else
      [Place(base, PAYLOAD_OFFSET)] + AttributeRegions(hs[0].attributes, base + PAYLOAD_OFFSET) +
      HopRegions(hs[1..], base + HopLen(hs[0]))
  }

  /** Each region starts where the one before it ends, from `first` to `last`. */
  predicate Tile(ps: seq<Place>, first: nat, last: nat) {
    if ps == [] then first == last
    else ps[0].offset == first && Tile(ps[1..], first + ps[0].size, last)
  }

  lemma {:induction false} TileConcat(a: seq<Place>, b: seq<Place>, x: nat, y: nat, z: nat)
    requires Tile(a, x, y) && Tile(b, y, z)
    ensures Tile(a + b, x, z)
  {
    if a == [] {
      assert a + b == b;
    } else {
      assert (a + b)[1..] == a[1..] + b;
      TileConcat(a[1..], b, x + a[0].size, y, z);
    }
  }

  lemma TileOne(base: nat, n: nat)
    ensures Tile([Place(base, n)], base, base + n)
  {
    assert [Place(base, n)][1..] == [];
  }

  lemma {:induction false} AttributeRegionsTile(xs: seq<RouteAttribute>, base: nat)
    ensures Tile(AttributeRegions(xs, base), base, base + AttributesLen(xs))
    decreases xs
  {
    if xs != [] {
      var a, more := xs[0], xs[1..];
      var n := ValueLen(a);
      var v, p := base + 4, base + 4 + n;
      TileOne(base, 4);
      ValueRegionsTile(a, v);
      TileConcat([Place(base, 4)], ValueRegions(a, v), base, v, p);
      TileOne(p, Pad(n));
      TileConcat([Place(base, 4)] + ValueRegions(a, v), [Place(p, Pad(n))], base, p, p + Pad(n));
      AttributeRegionsTile(more, base + PaddedLen(n));
      TileConcat([Place(base, 4)] + ValueRegions(a, v) + [Place(p, Pad(n))], AttributeRegions(more, base + PaddedLen(n)),
                 base, p + Pad(n), base + AttributesLen(xs));
    }
  }

  lemma {:induction false} ValueRegionsTile(a: RouteAttribute, base: nat)
    ensures Tile(ValueRegions(a, base), base, base + ValueLen(a))
    decreases a
  {
    if a.MultiPath? {
      HopRegionsTile(a.hops, base);
    } else {
      TileOne(base, ValueLen(a));
    }
  }

  lemma {:induction false} HopRegionsTile(hs: seq<RouteNextHop>, base: nat)
    ensures Tile(HopRegions(hs, base), base, base + HopsLen(hs))
    decreases hs
  {
    if hs != [] {
      var h, more := hs[0], hs[1..];
      var q := base + PAYLOAD_OFFSET;
      TileOne(base, PAYLOAD_OFFSET);
      AttributeRegionsTile(h.attributes, q);
      TileConcat([Place(base, PAYLOAD_OFFSET)], AttributeRegions(h.attributes, q), base, q, base + HopLen(h));
      HopRegionsTile(more, base + HopLen(h));
      TileConcat([Place(base, PAYLOAD_OFFSET)] + AttributeRegions(h.attributes, q), HopRegions(more, base + HopLen(h)),
                 base, base + HopLen(h), base + HopsLen(hs));
    }
  }

  /** The headers, values and paddings of a tree cover its buffer with no gap and no overlap. */
  lemma RegionsTileBuffer(xs: seq<RouteAttribute>)
    ensures Tile(AttributeRegions(xs, 0), 0, |EncodeAttributes(xs)|)
  {
    AttributeRegionsTile(xs, 0);
    AttributesLenIs(xs);
  }
}
