/** Route messages: src/route/message.rs and src/route/header.rs. */
module Route {
  import opened Wire
  import opened Framing
  import opened Families
  import opened Encap
  import opened RouteAttributes
  import opened RouteTree
  import opened Permutations

  const ROUTE_HEADER_LEN: nat := 12

  /** `protocol`, `scope` and `flags` are kept as their numbers. */
  datatype RouteHeader = RouteHeader(
    family: AddressFamily, destinationPrefixLength: u8, sourcePrefixLength: u8, tos: u8,
    table: u8, protocol: u8, scope: u8, kind: RouteType, flags: u32)
  {
    predicate Canonical() {
      family.Canonical() && kind.Canonical()
    }
  }

  datatype RouteMessage = RouteMessage(header: RouteHeader, attributes: seq<RouteAttribute>)

  function EncodeHeader(h: RouteHeader): (b: Bytes)
    ensures |b| == ROUTE_HEADER_LEN
  {
    [h.family.Code(), h.destinationPrefixLength, h.sourcePrefixLength, h.tos,
     h.table, h.protocol, h.scope, h.kind.Code()] + Put32(h.flags)
  }

  function DecodeHeader(b: Bytes): RouteHeader
    requires |b| >= ROUTE_HEADER_LEN
  {
    RouteHeader(FamilyOf(b[0]), b[1], b[2], b[3], b[4], b[5], b[6], RouteTypeOf(b[7]), Get32(b[8..12]))
  }

  function EncodeMessage(m: RouteMessage): Bytes {
    EncodeHeader(m.header) + EncodeAttributes(m.attributes)
  }

  /** First pass: the first RTA_ENCAP_TYPE that parses; errors are skipped. */
  function FindEncapType(nlas: seq<Nla>, family: AddressFamily, kind: RouteType): EncapType {
    if nlas == [] then NoEncap
    else if nlas[0].Type() != RTA_ENCAP_TYPE then FindEncapType(nlas[1..], family, kind)
    else
      match DecodeAttribute(nlas[0], Context(family, kind, NoEncap))
      case Ok(Leaf(EncapTypeIs(t))) => t
      case _ => FindEncapType(nlas[1..], family, kind)
  }

  /** Second pass: every attribute under the encap type found first. */
  function DecodeTop(nlas: seq<Nla>, clean: bool, family: AddressFamily, kind: RouteType): Result<seq<RouteAttribute>> {
    DecodeAttributes(nlas, clean, Context(family, kind, FindEncapType(nlas, family, kind)))
  }

  function DecodeMessage(b: Bytes): Result<RouteMessage> {
    if |b| < ROUTE_HEADER_LEN then Err
    else
      var h := DecodeHeader(b);
      var f := Scan(b[ROUTE_HEADER_LEN..]);
      var xs :- DecodeTop(f.nlas, f.clean, h.family, h.kind);
      Ok(RouteMessage(h, xs))
  }

  // ---- decoding is element by element ----

  lemma {:induction false} DecodeAttributesOk(nlas: seq<Nla>, clean: bool, c: Context, xs: seq<RouteAttribute>)
    ensures DecodeAttributes(nlas, clean, c) == Ok(xs) <==>
            clean && |xs| == |nlas| && forall i :: 0 <= i < |nlas| ==> DecodeAttribute(nlas[i], c) == Ok(xs[i])
    decreases |nlas|
  {
    hide DecodeAttribute;
    if nlas != [] && xs != [] {
      var ns, ys := nlas[1..], xs[1..];
      DecodeAttributesOk(ns, clean, c, ys);
      assert xs == [xs[0]] + ys;
      if DecodeAttributes(nlas, clean, c) == Ok(xs) {
        forall i | 0 <= i < |nlas| ensures DecodeAttribute(nlas[i], c) == Ok(xs[i]) {
          if i > 0 {
            assert nlas[i] == ns[i - 1] && xs[i] == ys[i - 1];
          }
        }
      } else if clean && |xs| == |nlas| && forall i :: 0 <= i < |nlas| ==> DecodeAttribute(nlas[i], c) == Ok(xs[i]) {
        forall i | 0 <= i < |ns| ensures DecodeAttribute(ns[i], c) == Ok(ys[i]) {
          assert ns[i] == nlas[i + 1] && ys[i] == xs[i + 1];
        }
      }
    }
  }

  // ---- the two passes ----

  /** The first encap type of a decoded list, at the top level. */
  function FirstEncapType(xs: seq<RouteAttribute>): EncapType {
    if xs == [] then NoEncap
    else
      match xs[0]
      case Leaf(EncapTypeIs(t)) => t
      case _ => FirstEncapType(xs[1..])
  }

  /** An RTA_ENCAP_TYPE decodes to the same thing under every context, and nothing else
      decodes to an encap type. */
  lemma EncapTypeIsContextFree(n: Nla, c: Context, d: Context)
    ensures n.Type() == RTA_ENCAP_TYPE ==> DecodeAttribute(n, c) == DecodeAttribute(n, d)
    ensures n.Type() == RTA_ENCAP_TYPE && DecodeAttribute(n, c).Ok? ==>
              DecodeAttribute(n, c).value.Leaf? && DecodeAttribute(n, c).value.leaf.EncapTypeIs?
    ensures (DecodeAttribute(n, c).Ok? && DecodeAttribute(n, c).value.Leaf? &&
             DecodeAttribute(n, c).value.leaf.EncapTypeIs?) ==> n.Type() == RTA_ENCAP_TYPE
  {
    hide DecodeAddress, DecodeVia, DecodeEncaps, DecodeList, EncapTypeOf, DecodeHops;
  }

  /** Whatever encap type the second pass uses, the first pass finds the first one it decodes. */
  lemma {:induction false} FindIsFirst(nlas: seq<Nla>, clean: bool, c: Context)
    requires DecodeAttributes(nlas, clean, c).Ok?
    ensures FindEncapType(nlas, c.family, c.routeType) == FirstEncapType(DecodeAttributes(nlas, clean, c).value)
    decreases |nlas|
  {
    hide DecodeAttribute;
    if nlas != [] {
      EncapTypeIsContextFree(nlas[0], c, Context(c.family, c.routeType, NoEncap));
      FindIsFirst(nlas[1..], clean, c);
      var xs := DecodeAttributes(nlas, clean, c).value;
      assert xs[1..] == DecodeAttributes(nlas[1..], clean, c).value;
    }
  }

  /** The two passes refine a single pass that is told the answer: on success the encap
      type used at every depth is the first one in the decoded top-level list. */
  lemma TwoPassRefinesOnePass(b: Bytes)
    requires DecodeMessage(b).Ok?
    ensures var m := DecodeMessage(b).value;
            var c := Context(m.header.family, m.header.kind, FirstEncapType(m.attributes));
            var f := Scan(b[ROUTE_HEADER_LEN..]);
            DecodeAttributes(f.nlas, f.clean, c) == Ok(m.attributes) && AttributesFit(m.attributes, c)
  {
    var h := DecodeHeader(b);
    var f := Scan(b[ROUTE_HEADER_LEN..]);
    var c := Context(h.family, h.kind, FindEncapType(f.nlas, h.family, h.kind));
    FindIsFirst(f.nlas, f.clean, c);
    DecodeAttributesSound(f.nlas, f.clean, c);
  }

  /** Conversely a single pass under some encap type that yields a list starting with that
      type is what the two passes compute. */
  lemma OnePassIsTwoPass(nlas: seq<Nla>, clean: bool, c: Context)
    requires DecodeAttributes(nlas, clean, c).Ok?
    requires c.encap == FirstEncapType(DecodeAttributes(nlas, clean, c).value)
    ensures DecodeTop(nlas, clean, c.family, c.routeType) == DecodeAttributes(nlas, clean, c)
  {
    FindIsFirst(nlas, clean, c);
  }

  // ---- order ----

  predicate AtMostOneEncapType(nlas: seq<Nla>) {
    forall i, j :: 0 <= i < j < |nlas| ==> !(nlas[i].Type() == RTA_ENCAP_TYPE && nlas[j].Type() == RTA_ENCAP_TYPE)
  }

  /** The first pass returns the type of the only RTA_ENCAP_TYPE there is. */
  lemma {:induction false} FindOnly(nlas: seq<Nla>, family: AddressFamily, kind: RouteType, k: nat, t: EncapType)
    requires AtMostOneEncapType(nlas) && k < |nlas|
    requires nlas[k].Type() == RTA_ENCAP_TYPE
    requires DecodeAttribute(nlas[k], Context(family, kind, NoEncap)) == Ok(Leaf(EncapTypeIs(t)))
    ensures FindEncapType(nlas, family, kind) == t
    decreases |nlas|
  {
    hide DecodeAttribute;
    if k > 0 {
      assert nlas[0].Type() != RTA_ENCAP_TYPE;
      assert nlas[1..][k - 1] == nlas[k];
      FindOnly(nlas[1..], family, kind, k - 1, t);
    }
  }

  lemma {:induction false} FindNone(nlas: seq<Nla>, family: AddressFamily, kind: RouteType)
    requires forall i :: 0 <= i < |nlas| ==> nlas[i].Type() != RTA_ENCAP_TYPE
    ensures FindEncapType(nlas, family, kind) == NoEncap
  {
    if nlas != [] {
      FindNone(nlas[1..], family, kind);
    }
  }

  /** With at most one RTA_ENCAP_TYPE its position does not matter. */
  lemma FindReordered(nlas: seq<Nla>, p: seq<nat>, c: Context)
    requires IsPermutation(p, |nlas|) && AtMostOneEncapType(nlas)
    requires forall i :: 0 <= i < |nlas| ==> DecodeAttribute(nlas[i], c).Ok?
    ensures FindEncapType(Reorder(nlas, p), c.family, c.routeType) == FindEncapType(nlas, c.family, c.routeType)
  {
    hide DecodeAttribute;
    var ms := Reorder(nlas, p);
    forall i, j | 0 <= i < j < |ms| ensures !(ms[i].Type() == RTA_ENCAP_TYPE && ms[j].Type() == RTA_ENCAP_TYPE) {
      assert p[i] != p[j];
    }
    if k :| 0 <= k < |ms| && ms[k].Type() == RTA_ENCAP_TYPE {
      EncapTypeIsContextFree(ms[k], c, Context(c.family, c.routeType, NoEncap));
      var t := DecodeAttribute(ms[k], c).value.leaf.encapType;
      FindOnly(ms, c.family, c.routeType, k, t);
      FindOnly(nlas, c.family, c.routeType, p[k], t);
    } else {
      FindNone(ms, c.family, c.routeType);
      forall i | 0 <= i < |nlas| ensures nlas[i].Type() != RTA_ENCAP_TYPE {
        var k := Preimage(p, |nlas|, i);
        assert ms[k].Type() != RTA_ENCAP_TYPE;
      }
      FindNone(nlas, c.family, c.routeType);
    }
  }

  /** Reordering the attributes of a message reorders what it decodes to in the same way,
      as long as no two of them are encap types. */
  lemma OrderIsPreserved(h: RouteHeader, nlas: seq<Nla>, p: seq<nat>)
    requires IsPermutation(p, |nlas|) && AtMostOneEncapType(nlas) && AllFit(nlas)
    requires DecodeMessage(EncodeHeader(h) + EncodeNlas(nlas)).Ok?
    ensures var m := DecodeMessage(EncodeHeader(h) + EncodeNlas(nlas)).value;
            |m.attributes| == |nlas| &&
            DecodeMessage(EncodeHeader(h) + EncodeNlas(Reorder(nlas, p))) ==
              Ok(m.(attributes := Reorder(m.attributes, p)))
  {
    MessageOfNlas(h, nlas);
    MessageOfNlas(h, Reorder(nlas, p));
    var b := EncodeHeader(h) + EncodeNlas(nlas);
    var m := DecodeMessage(b).value;
    hide DecodeMessage, DecodeAttribute;
    var d := HeaderAsDecoded(h);
    var c := Context(d.family, d.kind, FindEncapType(nlas, d.family, d.kind));
    DecodeAttributesOk(nlas, true, c, m.attributes);
    FindReordered(nlas, p, c);
    DecodeAttributesOk(Reorder(nlas, p), true, c, Reorder(m.attributes, p));
  }

  /** A header after one emit and one parse. */
  function HeaderAsDecoded(h: RouteHeader): RouteHeader {
    h.(family := FamilyOf(h.family.Code()), kind := RouteTypeOf(h.kind.Code()))
  }

  lemma MessageOfNlas(h: RouteHeader, nlas: seq<Nla>)
    requires AllFit(nlas)
    ensures var d := HeaderAsDecoded(h);
            DecodeMessage(EncodeHeader(h) + EncodeNlas(nlas)) ==
            match DecodeTop(nlas, true, d.family, d.kind)
            case Ok(xs) => Ok(RouteMessage(d, xs))
            case Err => Err
            case Panic => Panic
  {
    hide DecodeTop, Scan, FamilyOf, RouteTypeOf;
    var b := EncodeHeader(h) + EncodeNlas(nlas);
    assert b[8..12] == Put32(h.flags);
    assert b[ROUTE_HEADER_LEN..] == EncodeNlas(nlas);
    ScanExact(nlas);
  }

  /** Two encap types make the order matter: the first one wins. */
  lemma FirstEncapTypeWins(family: AddressFamily, kind: RouteType, a: EncapType, b: EncapType, rest: seq<Nla>)
    requires a.Canonical() && b.Canonical()
    ensures FindEncapType([Nla(RTA_ENCAP_TYPE, Put16(a.Code())), Nla(RTA_ENCAP_TYPE, Put16(b.Code()))] + rest, family, kind) == a
  {
    EncapTypeRoundTrip(a, 0);
    var n := Nla(RTA_ENCAP_TYPE, Put16(a.Code()));
    var nlas := [n, Nla(RTA_ENCAP_TYPE, Put16(b.Code()))] + rest;
    assert nlas[0] == n;
    assert DecodeAttribute(n, Context(family, kind, NoEncap)) == Ok(Leaf(EncapTypeIs(a)));
  }

  // ---- round trip ----

  /** Every top-level attribute can state its length; everything below is smaller. */
  predicate SizeBounded(m: RouteMessage) {
    AllFit(RawAttributes(m.attributes))
  }

  /** The context in which the attributes of `m` are parsed back. */
  function OwnContext(m: RouteMessage): Context {
    Context(m.header.family, m.header.kind, FirstEncapType(m.attributes))
  }

  /** The message agrees with its own header and encap type at every depth: addresses have
      the header's family, the expiry has the route type's form, encapsulations have the
      variant of the first encap type, next-hop lists are not empty, no `Other` hides a
      known code, nothing is a next-hop id, and no header carries TLVs. */
  predicate Coherent(m: RouteMessage) {
    m.header.Canonical() && AttributesFit(m.attributes, OwnContext(m)) && AttributesTlvFree(m.attributes)
  }

  lemma {:induction false} FirstOfNormal(xs: seq<RouteAttribute>)
    ensures FirstEncapType(NormalAttributes(xs)) == FirstEncapType(xs)
  {
    if xs != [] {
      FirstOfNormal(xs[1..]);
      assert NormalAttributes(xs)[1..] == NormalAttributes(xs[1..]);
    }
  }

  /** Emitting and parsing a message that fits its own context loses only TLVs. */
  lemma MessageNormalises(m: RouteMessage)
    requires SizeBounded(m) && m.header.Canonical() && AttributesFit(m.attributes, OwnContext(m))
    ensures DecodeMessage(EncodeMessage(m)) == Ok(m.(attributes := NormalAttributes(m.attributes)))
  {
    var c := OwnContext(m);
    var ns := RawAttributes(m.attributes);
    HeaderSurvives(m.header);
    EncodeAttributesIs(m.attributes);
    MessageOfNlas(m.header, ns);
    AttributesRoundTrip(m.attributes, c);
    FirstOfNormal(m.attributes);
    OnePassIsTwoPass(ns, true, c);
  }

  lemma HeaderSurvives(h: RouteHeader)
    ensures HeaderAsDecoded(h) == h <==> h.Canonical()
  {
    FamilyRoundTrip(h.family, 0);
    RouteTypeRoundTrip(h.kind, 0);
  }

  /** Every message that is decoded fits its own context. */
  lemma DecodeMessageSound(b: Bytes)
    requires DecodeMessage(b).Ok?
    ensures var m := DecodeMessage(b).value;
            m.header.Canonical() && AttributesFit(m.attributes, OwnContext(m))
  {
    TwoPassRefinesOnePass(b);
    FamilyRoundTrip(Unspec, b[0]);
    RouteTypeRoundTrip(TypeUnspec, b[7]);
  }

  /** The round trip, exactly: a size-bounded message comes back unchanged if and only if
      it is coherent. */
  lemma MessageRoundTrip(m: RouteMessage)
    requires SizeBounded(m)
    ensures DecodeMessage(EncodeMessage(m)) == Ok(m) <==> Coherent(m)
  {
    if DecodeMessage(EncodeMessage(m)) == Ok(m) {
      DecodeMessageSound(EncodeMessage(m));
    }
    if m.header.Canonical() && AttributesFit(m.attributes, OwnContext(m)) {
      hide DecodeMessage, EncodeMessage;
      MessageNormalises(m);
      NormalAttributesIsIdentity(m.attributes, OwnContext(m));
    }
  }

  // ---- RTA_MULTIPATH framing ----

  /** The length fields the loop reads on a payload it accepts. */
  function HopLengths(b: Bytes): seq<nat>
    decreases |b|
  {
    if !HopChecked(b) || HopLength(b) < PAYLOAD_OFFSET then []
    else [HopLength(b) as nat] + HopLengths(b[HopLength(b)..])
  }

  function Sum(ns: seq<nat>): nat {
    if ns == [] then 0 else ns[0] + Sum(ns[1..])
  }

  /** On success the next hops tile the payload: one per length field, each at least 8
      octets, the lengths summing to the payload length. */
  lemma {:induction false} HopsTilePayload(b: Bytes, c: Context)
    requires DecodeHops(b, c).Ok?
    ensures |HopLengths(b)| == |DecodeHops(b, c).value|
    ensures Sum(HopLengths(b)) == |b|
    ensures forall i :: 0 <= i < |HopLengths(b)| ==> HopLengths(b)[i] >= PAYLOAD_OFFSET
    decreases |b|
  {
    var n := HopLength(b);
    var more := b[n..];
    assert HopLengths(b)[1..] == HopLengths(more);
    if |b| != n {
      HopsTilePayload(more, c);
    } else {
      assert HopLengths(more) == [];
    }
  }
}
