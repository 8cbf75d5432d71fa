/**
 What a decoded list of link infos looks like, said without the decoder's state, and how
 deep veth peers can nest in a buffer of a given length.
 */
module LinkDiscipline {
  import opened Wire
  import opened Framing
  import opened Families
  import opened LinkAttributes
  import opened Link

  // ---- IFLA_INFO_KIND and IFLA_INFO_PORT_KIND ----

  /** The kind at `k` is the latest one before `j`. */
  predicate KindInForce(infos: seq<LinkInfo>, j: nat, k: nat) {
    k < j <= |infos| && infos[k].Kind? && forall l :: k < l < j ==> !infos[l].Kind?
  }

  /** The port kind at `k` is the latest one before `j`, and no port data has used it. */
  predicate PortKindInForce(infos: seq<LinkInfo>, j: nat, k: nat) {
    k < j <= |infos| && infos[k].PortKind? && forall l :: k < l < j ==> !infos[l].PortKind? && !infos[l].PortData?
  }

  ghost predicate Placed(infos: seq<LinkInfo>, j: nat)
    requires j < |infos|
  {
    match infos[j]
    case Data(d) => exists k: nat :: KindInForce(infos, j, k) && DataFits(d, infos[k].name)
    case Xstats(_) => exists k: nat :: KindInForce(infos, j, k)
    case PortData(d) => exists k: nat :: PortKindInForce(infos, j, k) && d.FitsPortKind(infos[k].name)
    case InfoOther(n) => n.Type() !in {1, 2, 3, 4, 5}
    case _ => true
  }

  ghost predicate Disciplined(infos: seq<LinkInfo>) {
    forall j :: 0 <= j < |infos| ==> Placed(infos, j)
  }

  /** The state of the decoder when it reaches position `j`. */
  function StateAt(infos: seq<LinkInfo>, j: nat): InfoState
    requires j <= |infos|
  {
    if j == 0 then START else Next(StateAt(infos, j - 1), infos[j - 1])
  }

  lemma {:induction false} KindMeaning(infos: seq<LinkInfo>, j: nat)
    requires j <= |infos|
    ensures StateAt(infos, j).kind.Some? ==>
            exists k: nat :: KindInForce(infos, j, k) && infos[k].name == StateAt(infos, j).kind.value
    ensures forall k: nat :: KindInForce(infos, j, k) ==> StateAt(infos, j).kind == Some(infos[k].name)
  {
    if j > 0 {
      KindMeaning(infos, j - 1);
      if infos[j - 1].Kind? {
        assert KindInForce(infos, j, j - 1);
      } else {
        forall k: nat ensures KindInForce(infos, j, k) <==> KindInForce(infos, j - 1, k) {
        }
      }
    }
  }

  lemma {:induction false} PortKindMeaning(infos: seq<LinkInfo>, j: nat)
    requires j <= |infos|
    ensures StateAt(infos, j).port.Some? ==>
            exists k: nat :: PortKindInForce(infos, j, k) && infos[k].name == StateAt(infos, j).port.value
    ensures forall k: nat :: PortKindInForce(infos, j, k) ==> StateAt(infos, j).port == Some(infos[k].name)
  {
    if j > 0 {
      PortKindMeaning(infos, j - 1);
      if infos[j - 1].PortKind? {
        assert PortKindInForce(infos, j, j - 1);
      } else if !infos[j - 1].PortData? {
        forall k: nat ensures PortKindInForce(infos, j, k) <==> PortKindInForce(infos, j - 1, k) {
        }
      }
    }
  }

  lemma {:induction false} FitsPointwise(infos: seq<LinkInfo>, j: nat)
    requires j <= |infos|
    ensures InfosFit(infos[j..], StateAt(infos, j)) <==>
            forall l :: j <= l < |infos| ==> InfoFits(infos[l], StateAt(infos, l))
    decreases |infos| - j
  {
    hide InfoFits, Next;
    if j < |infos| {
      FitsPointwise(infos, j + 1);
      assert infos[j..][1..] == infos[j + 1..];
      assert StateAt(infos, j + 1) == Next(StateAt(infos, j), infos[j]);
    }
  }

  lemma PlacedMeaning(infos: seq<LinkInfo>, j: nat)
    requires j < |infos|
    ensures InfoFits(infos[j], StateAt(infos, j)) <==> Placed(infos, j)
  {
    KindMeaning(infos, j);
    PortKindMeaning(infos, j);
    hide StateAt, KindInForce, PortKindInForce, DataFits;
    match infos[j]
    case Data(d) =>
    case Xstats(_) =>
    case PortData(d) =>
    case _ =>
  }

  /** The state machine accepts a list exactly when every info is placed as it should be. */
  lemma FitIsDiscipline(infos: seq<LinkInfo>)
    ensures InfosFit(infos, START) <==> Disciplined(infos)
  {
    FitsPointwise(infos, 0);
    assert infos[0..] == infos;
    assert StateAt(infos, 0) == START;
    hide InfoFits, Placed, StateAt;
    forall j | 0 <= j < |infos| ensures InfoFits(infos[j], StateAt(infos, j)) <==> Placed(infos, j) {
      PlacedMeaning(infos, j);
    }
  }

  /** Whatever `VecLinkInfo::parse` returns is disciplined. */
  lemma DecodedIsDisciplined(b: Bytes)
    requires DecodeInfos(Scan(b).nlas, Scan(b).clean, START).Ok?
    ensures Disciplined(DecodeInfos(Scan(b).nlas, Scan(b).clean, START).value)
  {
    InfosSound(Scan(b).nlas, Scan(b).clean, START);
    FitIsDiscipline(DecodeInfos(Scan(b).nlas, Scan(b).clean, START).value);
  }

  /** No port kind serves two port data. */
  lemma PortKindServesOnce(infos: seq<LinkInfo>, i: nat, j: nat)
    requires Disciplined(infos) && i < j < |infos| && infos[i].PortData? && infos[j].PortData?
    ensures exists k: nat, l: nat :: k < i < l < j && PortKindInForce(infos, i, k) && PortKindInForce(infos, j, l)
  {
    assert Placed(infos, i) && Placed(infos, j);
    var k: nat :| PortKindInForce(infos, i, k);
    var l: nat :| PortKindInForce(infos, j, l);
    assert k < i < l < j;
  }

  // ---- depth ----

  function Max(a: nat, b: nat): nat {
    if a < b then b else a
  }

  /** How many veth peers are nested inside each other. */
  function Depth(m: LinkMessage): nat
    decreases m
  {
    AttributesDepth(m.attributes)
  }

  function AttributesDepth(xs: seq<LinkAttribute>): nat
    decreases xs
  {
    if xs == [] then 0 else Max(AttributeDepth(xs[0]), AttributesDepth(xs[1..]))
  }

  function AttributeDepth(a: LinkAttribute): nat
    decreases a
  {
    if a.LinkInfos? then InfosDepth(a.infos) else 0
  }

  function InfosDepth(infos: seq<LinkInfo>): nat
    decreases infos
  {
    if infos == [] then 0 else Max(InfoDepth(infos[0]), InfosDepth(infos[1..]))
  }

  function InfoDepth(i: LinkInfo): nat
    decreases i
  {
    if i.Data? && i.data.VethData? && i.data.veth.Peer? then 1 + Depth(i.data.veth.peer) else 0
  }

  /** On every input, each level takes at least 36 octets: the headers of the link info, kind,
      data and peer attributes, the name of the kind, and the header of the peer itself. */
  lemma {:induction false} DepthBound(b: Bytes)
    requires DecodeLink(b).Ok?
    ensures LINK_HEADER_LEN + 36 * Depth(DecodeLink(b).value) <= |b|
    decreases |b|, 0
  {
    var f := Scan(b[LINK_HEADER_LEN..]);
    ScanBounds(b[LINK_HEADER_LEN..]);
    AttributesDepthBound(f.nlas, f.clean, DecodeHeader(b).family);
  }

  lemma {:induction false} AttributesDepthBound(nlas: seq<Nla>, clean: bool, family: AddressFamily)
    requires DecodeAttributes(nlas, clean, family).Ok?
    ensures 36 * AttributesDepth(DecodeAttributes(nlas, clean, family).value) <= ScanSize(nlas)
    decreases ScanSize(nlas), 2
  {
    hide DecodeAttribute, AttributeDepth;
    if nlas != [] {
      AttributeDepthBound(nlas[0], family);
      AttributesDepthBound(nlas[1..], clean, family);
      assert DecodeAttributes(nlas, clean, family).value[1..] == DecodeAttributes(nlas[1..], clean, family).value;
    }
  }

  lemma {:induction false} AttributeDepthBound(n: Nla, family: AddressFamily)
    requires DecodeAttribute(n, family).Ok?
    ensures 36 * AttributeDepth(DecodeAttribute(n, family).value) <= 4 + |n.value|
    decreases 4 + |n.value|, 1
  {
    hide DecodeLinkLeaf;
    if n.Type() == IFLA_LINKINFO {
      ScanBounds(n.value);
      InfosDepthBound(Scan(n.value).nlas, Scan(n.value).clean, START);
    }
  }

  /** Octets already spent on the kind that is in force. */
  function Credit(st: InfoState): nat {
    if st.kind == Some(VETH) then 8 else 0
  }

  lemma {:induction false} InfosDepthBound(nlas: seq<Nla>, clean: bool, st: InfoState)
    requires DecodeInfos(nlas, clean, st).Ok?
    ensures 36 * InfosDepth(DecodeInfos(nlas, clean, st).value) <= 4 + Credit(st) + ScanSize(nlas)
    decreases ScanSize(nlas), 2
  {
    hide DecodeInfo, InfoDepth, Next;
    if nlas != [] {
      InfoDepthBound(nlas[0], st);
      var i := DecodeInfo(nlas[0], st).value;
      InfosDepthBound(nlas[1..], clean, Next(st, i));
      assert DecodeInfos(nlas, clean, st).value[1..] == DecodeInfos(nlas[1..], clean, Next(st, i)).value;
    }
  }

  lemma {:induction false} DataDepthBound(payload: Bytes, kind: Bytes)
    requires DecodeData(payload, kind).Ok?
    ensures var d := InfoDepth(Data(DecodeData(payload, kind).value));
            d == 0 || (kind == VETH && 36 * d <= 16 + |payload|)
    decreases |payload|, 1
  {
    hide DecodeList, Listed;
    if kind == VETH {
      var n := Head(payload);
      if n.Type() == VETH_INFO_PEER {
        DepthBound(n.value);
      }
    }
  }

  /** A peer is paid for by the kind before it; a kind pays its own octets forward. */
  lemma {:induction false} InfoDepthBound(n: Nla, st: InfoState)
    requires DecodeInfo(n, st).Ok?
    ensures 36 * InfoDepth(DecodeInfo(n, st).value) <= 4 + Credit(st) + 4 + |n.value|
    ensures Credit(Next(st, DecodeInfo(n, st).value)) <= Credit(st) + 4 + |n.value|
    decreases 4 + |n.value|, 1
  {
    if n.Type() == 2 {
      DataDepthBound(n.value, st.kind.value);
    }
    hide DecodePortData, DecodeData;
  }

  // ---- the bound is reached ----

  function Peered(kind: Bytes, inner: Bytes): seq<Nla> {
    [Nla(1, kind), Nla(2, EncodeNla(Nla(VETH_INFO_PEER, inner)))]
  }

  /** The shortest octets that nest `d` peers: names without a NUL. */
  function Tower(h: LinkHeader, kind: Bytes, d: nat): Bytes {
    if d == 0 then EncodeHeader(h) else Storey(h, kind, Tower(h, kind, d - 1))
  }

  function Storey(h: LinkHeader, kind: Bytes, inner: Bytes): Bytes {
    EncodeHeader(h) + EncodeNla(Nla(IFLA_LINKINFO, EncodeNlas(Peered(kind, inner))))
  }

  lemma PeeredLen(kind: Bytes, inner: Bytes)
    requires |kind| == 4 && |inner| % 4 == 0
    ensures |EncodeNlas(Peered(kind, inner))| == 16 + |inner|
  {
    var p := Peered(kind, inner);
    assert EncodeNlas(p[1..]) == EncodeNla(p[1]) + EncodeNlas(p[1..][1..]);
    assert p[1..][1..] == [];
  }

  lemma PeerDecodes(n: Nla, kind: Bytes, m: LinkMessage)
    requires FormOfKind(kind).AsVeth? && n.Type() == VETH_INFO_PEER
    requires |EncodeNla(n)| <= 0xFFFF && DecodeLink(n.value) == Ok(m)
    ensures DecodeData(EncodeNla(n), kind) == Ok(VethData(Peer(m)))
  {
    HeadOfOne(n);
    hide EncodeNla, DecodeLink, Head, HeadOk, FormOfKind, DecodeList;
    assert DecodeVeth(n) == Ok(Peer(m));
    hide DecodeVeth;
  }

  lemma InfosCons(n: Nla, ns: seq<Nla>, st: InfoState, i: LinkInfo, infos: seq<LinkInfo>)
    requires DecodeInfo(n, st) == Ok(i) && DecodeInfos(ns, true, Next(st, i)) == Ok(infos)
    ensures DecodeInfos([n] + ns, true, st) == Ok([i] + infos)
  {
    hide DecodeInfo, Next;
    assert ([n] + ns)[1..] == ns;
  }

  lemma AttributesCons(n: Nla, ns: seq<Nla>, family: AddressFamily, a: LinkAttribute, xs: seq<LinkAttribute>)
    requires DecodeAttribute(n, family) == Ok(a) && DecodeAttributes(ns, true, family) == Ok(xs)
    ensures DecodeAttributes([n] + ns, true, family) == Ok([a] + xs)
  {
    hide DecodeAttribute;
    assert ([n] + ns)[1..] == ns;
  }

  /** A kind and its data. */
  lemma PairDecodes(a: Nla, b: Nla, kind: Bytes, d: InfoData)
    requires a.Type() == 1 && ParseString(a.value) == kind
    requires b.Type() == 2 && DecodeData(b.value, kind) == Ok(d)
    ensures DecodeInfos([a, b], true, START) == Ok([Kind(kind), Data(d)])
  {
    var st := InfoState(Some(kind), None);
    hide DecodeData, ParseString;
    assert DecodeInfo(a, START) == Ok(Kind(kind)) && Next(START, Kind(kind)) == st;
    assert DecodeInfo(b, st) == Ok(Data(d)) && Next(st, Data(d)) == st;
    assert DecodeInfos([], true, st) == Ok([]);
    hide DecodeInfo, DecodeInfos, Next;
    InfosCons(b, [], st, Data(d), []);
    assert [b] + [] == [b] && [Data(d)] + [] == [Data(d)];
    InfosCons(a, [b], START, Kind(kind), [Data(d)]);
    assert [a] + [b] == [a, b];
    assert [Kind(kind)] + [Data(d)] == [Kind(kind), Data(d)];
  }

  lemma InfoAttributeDecodes(n: Nla, p: seq<Nla>, infos: seq<LinkInfo>, family: AddressFamily)
    requires n.Type() == IFLA_LINKINFO && n.value == EncodeNlas(p) && AllFit(p)
    requires DecodeInfos(p, true, START) == Ok(infos)
    ensures DecodeAttribute(n, family) == Ok(LinkInfos(infos))
  {
    ScanExact(p);
    hide EncodeNlas, DecodeInfos;
  }

  lemma EmptyDecodes(h: LinkHeader)
    requires h.family.Canonical()
    ensures DecodeLink(EncodeHeader(h)) == Ok(LinkMessage(h, []))
  {
    HeaderRoundTrip(h, []);
    assert EncodeHeader(h) + [] == EncodeHeader(h);
    hide EncodeHeader, DecodeHeader;
  }

  lemma OneAttributeDecodes(h: LinkHeader, n: Nla, a: LinkAttribute)
    requires h.family.Canonical() && n.Fits() && DecodeAttribute(n, h.family) == Ok(a)
    ensures DecodeLink(EncodeHeader(h) + EncodeNla(n)) == Ok(LinkMessage(h, [a]))
  {
    HeaderRoundTrip(h, EncodeNla(n));
    ScanAlone(n);
    assert DecodeAttributes([], true, h.family) == Ok([]);
    hide EncodeNla, EncodeHeader, DecodeHeader, DecodeAttribute, DecodeAttributes, Scan;
    AttributesCons(n, [], h.family, a, []);
    assert [n] + [] == [n] && [a] + [] == [a];
  }

  lemma DepthOfPair(header: LinkHeader, kind: Bytes, m: LinkMessage)
    ensures Depth(LinkMessage(header, [LinkInfos([Kind(kind), Data(VethData(Peer(m)))])])) == 1 + Depth(m)
  {
    var i, j := Kind(kind), Data(VethData(Peer(m)));
    assert InfoDepth(j) == 1 + Depth(m) && InfoDepth(i) == 0;
    hide InfoDepth;
    assert [i, j][1..] == [j] && [j][1..] == [];
    assert InfosDepth([j]) == 1 + Depth(m);
    assert InfosDepth([i, j]) == 1 + Depth(m);
    hide InfosDepth;
    var a := LinkInfos([i, j]);
    assert [a][1..] == [];
    assert AttributesDepth([a]) == 1 + Depth(m);
  }

  lemma PeeredDecodes(kind: Bytes, inner: Bytes, m: LinkMessage)
    requires FormOfKind(kind).AsVeth? && ParseString(kind) == kind
    requires |inner| % 4 == 0 && |inner| + 20 <= 0xFFFF && DecodeLink(inner) == Ok(m)
    ensures DecodeInfos(Peered(kind, inner), true, START) == Ok([Kind(kind), Data(VethData(Peer(m)))])
  {
    var p := Peered(kind, inner);
    hide EncodeNla, DecodeInfos, DecodeLink, DecodeData, ParseString, FormOfKind;
    PeerDecodes(Nla(VETH_INFO_PEER, inner), kind, m);
    PairDecodes(p[0], p[1], kind, VethData(Peer(m)));
  }

  lemma StoreyDecodes(h: LinkHeader, kind: Bytes, inner: Bytes, m: LinkMessage)
    requires h.family.Canonical() && FormOfKind(kind).AsVeth? && ParseString(kind) == kind && |kind| == 4
    requires |inner| % 4 == 0 && |inner| + 20 <= 0xFFFF && DecodeLink(inner) == Ok(m)
    ensures |Storey(h, kind, inner)| == |inner| + 36
    ensures DecodeLink(Storey(h, kind, inner)) == Ok(LinkMessage(h, [LinkInfos([Kind(kind), Data(VethData(Peer(m)))])]))
  {
    PeeredLen(kind, inner);
    PeeredDecodes(kind, inner, m);
    hide Peered, EncodeNlas, DecodeInfos, DecodeAttribute, EncodeHeader, DecodeLink, FormOfKind, ParseString;
    var p := Peered(kind, inner);
    var n := Nla(IFLA_LINKINFO, EncodeNlas(p));
    var infos := [Kind(kind), Data(VethData(Peer(m)))];
    MembersFit(p);
    InfoAttributeDecodes(n, p, infos, h.family);
    hide EncodeNla;
    OneAttributeDecodes(h, n, LinkInfos(infos));
  }

  lemma {:induction false} TowerDecodes(h: LinkHeader, kind: Bytes, d: nat)
    requires h.family.Canonical() && FormOfKind(kind).AsVeth? && ParseString(kind) == kind && |kind| == 4
    requires 36 * d <= 0xFFFF
    ensures |Tower(h, kind, d)| == LINK_HEADER_LEN + 36 * d
    ensures DecodeLink(Tower(h, kind, d)).Ok? && Depth(DecodeLink(Tower(h, kind, d)).value) == d
  {
    hide DecodeLink, EncodeHeader, Storey, FormOfKind, ParseString;
    if d == 0 {
      EmptyDecodes(h);
    } else {
      TowerDecodes(h, kind, d - 1);
      hide Depth;
      var inner := Tower(h, kind, d - 1);
      var m := DecodeLink(inner).value;
      StoreyDecodes(h, kind, inner, m);
      DepthOfPair(h, kind, m);
    }
  }

  lemma VethName()
    ensures FormOfKind(VETH).AsVeth? && ParseString(VETH) == VETH && |VETH| == 4
  {
  }

  /** As long as the outermost length field has room, 36 octets a level are enough. */
  lemma DepthBoundIsReached(h: LinkHeader, d: nat)
    requires h.family.Canonical() && 36 * d <= 0xFFFF
    ensures |Tower(h, VETH, d)| == LINK_HEADER_LEN + 36 * d
    ensures DecodeLink(Tower(h, VETH, d)).Ok? && Depth(DecodeLink(Tower(h, VETH, d)).value) == d
  {
    VethName();
    TowerDecodes(h, VETH, d);
  }
}
