/**
 Link messages: src/link/message.rs, header.rs, the IFLA_LINKINFO arm of attribute.rs,
 link_info/infos.rs, info_data.rs and veth.rs. A link holds infos, the data of a veth info
 holds a peer, and a peer is a link.
 */
module Link {
  import opened Wire
  import opened Framing
  import opened Families
  import opened LinkAttributes

  // ---- the data ----

  datatype LinkHeader = LinkHeader(family: AddressFamily, layerType: u16, index: u32, flags: u32, changeMask: u32)

  datatype LinkMessage = LinkMessage(header: LinkHeader, attributes: seq<LinkAttribute>)

  datatype LinkAttribute = LinkInfos(infos: seq<LinkInfo>) | Plain(leaf: LinkLeaf)

  /** Kinds are their names: the table between names and `InfoKind` is one-to-one. */
  datatype LinkInfo =
    | Xstats(stats: Bytes)
    | Kind(name: Bytes)
    | Data(data: InfoData)
    | PortKind(name: Bytes)
    | PortData(port: InfoPortData)
    | InfoOther(nla: Nla)

  /** `ListData` stands for the twenty kinds whose data is a list of attributes; the
      attributes are kept as framed, except for vrf. */
  datatype InfoData =
    | VethData(veth: InfoVeth)
    | VrfData(vrfs: seq<InfoVrf>)
    | ListData(kind: Bytes, nlas: seq<Nla>)
    | RawData(octets: Bytes)

  datatype InfoVeth = Peer(peer: LinkMessage) | VethOther(nla: Nla)

  const LINK_HEADER_LEN: nat := 16
  const VETH_INFO_PEER: u16 := 1
  const VETH: Bytes := Ascii("veth")

  /** Kinds whose data is decoded as a list of attributes. */
  predicate Listed(kind: Bytes) {
    kind in {BOND, BRIDGE, Ascii("tun"), Ascii("vlan"), Ascii("vxlan"), Ascii("ipvlan"), Ascii("ipvtap"),
             Ascii("macvlan"), Ascii("macvtap"), Ascii("gretap"), Ascii("ip6gretap"), Ascii("sit"), Ascii("gre"),
             Ascii("ip6gre"), Ascii("vti"), Ascii("gtp"), Ascii("ipoib"), Ascii("xfrm"), Ascii("macsec"), Ascii("hsr")}
  }

  datatype DataForm = AsVeth | AsVrf | AsList | AsOctets

  function FormOfKind(kind: Bytes): (f: DataForm)
    ensures f.AsVeth? <==> kind == VETH
  {
    if kind == VETH then AsVeth
    else if kind == VRF then AsVrf
    else if Listed(kind) then AsList
    else AsOctets
  }

  // ---- emitting ----

  function EncodeHeader(h: LinkHeader): (b: Bytes)
    ensures |b| == LINK_HEADER_LEN
  {
    [h.family.Code(), 0] + Put16(h.layerType) + Put32(h.index) + Put32(h.flags) + Put32(h.changeMask)
  }

  function EncodeLink(m: LinkMessage): (b: Bytes)
    ensures |b| >= LINK_HEADER_LEN
    decreases m
  {
    EncodeHeader(m.header) + EncodeNlas(RawAttributes(m.attributes))
  }

  function RawAttributes(xs: seq<LinkAttribute>): (ns: seq<Nla>)
    ensures |ns| == |xs|
    decreases xs
  {
    if xs == [] then [] else [RawAttribute(xs[0])] + RawAttributes(xs[1..])
  }

  function RawAttribute(a: LinkAttribute): Nla
    decreases a
  {
    match a
    case LinkInfos(infos) => Nla(IFLA_LINKINFO, EncodeNlas(RawInfos(infos)))
    case Plain(l) => RawLinkLeaf(l)
  }

  function RawInfos(infos: seq<LinkInfo>): (ns: seq<Nla>)
    ensures |ns| == |infos|
    decreases infos
  {
    if infos == [] then [] else [RawInfo(infos[0])] + RawInfos(infos[1..])
  }

  function RawInfo(i: LinkInfo): Nla
    decreases i
  {
    match i
    case Kind(s) => Nla(1, PutString(s))
    case Data(d) => Nla(2, EncodeData(d))
    case Xstats(b) => Nla(3, b)
    case PortKind(s) => Nla(4, PutString(s))
    case PortData(d) => Nla(5, EncodePortData(d))
    case InfoOther(n) => n
  }

  function EncodeData(d: InfoData): Bytes
    decreases d
  {
    match d
    case VethData(v) => EncodeNla(RawVeth(v))
    case VrfData(vs) => EncodeNlas(Map(vs, RawVrf))
    case ListData(_, ns) => EncodeNlas(Map(ns, KeepNla))
    case RawData(b) => b
  }

  function RawVeth(v: InfoVeth): Nla
    decreases v
  {
    match v
    case Peer(m) => Nla(VETH_INFO_PEER, EncodeLink(m))
    case VethOther(n) => n
  }

  // ---- parsing ----

  function DecodeHeader(b: Bytes): LinkHeader
    requires |b| >= LINK_HEADER_LEN
  {
    LinkHeader(FamilyOf(b[0]), Get16(b[2..4]), Get32(b[4..8]), Get32(b[8..12]), Get32(b[12..16]))
  }

  function DecodeLink(b: Bytes): (r: Result<LinkMessage>)
    ensures r.Ok? ==> |b| >= LINK_HEADER_LEN
    decreases |b|, 0
  {
    if |b| < LINK_HEADER_LEN then Err
    else
      var h := DecodeHeader(b);
      var f := Scan(b[LINK_HEADER_LEN..]);
      ScanBounds(b[LINK_HEADER_LEN..]);
      var xs :- DecodeAttributes(f.nlas, f.clean, h.family);
      Ok(LinkMessage(h, xs))
  }

  function DecodeAttributes(nlas: seq<Nla>, clean: bool, family: AddressFamily): Result<seq<LinkAttribute>>
    decreases ScanSize(nlas), 2
  {
    if nlas == [] then (if clean then Ok([]) else Err)
    else
      var a :- DecodeAttribute(nlas[0], family);
      var rest :- DecodeAttributes(nlas[1..], clean, family);
      Ok([a] + rest)
  }

  function DecodeAttribute(n: Nla, family: AddressFamily): Result<LinkAttribute>
    decreases 4 + |n.value|, 1
  {
    if n.Type() == IFLA_LINKINFO then
      var f := Scan(n.value);
      ScanBounds(n.value);
      var infos :- DecodeInfos(f.nlas, f.clean, START);
      Ok(LinkInfos(infos))
    else
      var l :- DecodeLinkLeaf(n, family);
      Ok(Plain(l))
  }

  /** What `VecLinkInfo::parse` remembers: the latest kind, and the latest port kind that
      no port data has used. */
  datatype InfoState = InfoState(kind: Option<Bytes>, port: Option<Bytes>)

  const START: InfoState := InfoState(None, None)

  function Next(st: InfoState, i: LinkInfo): InfoState {
    match i
    case Kind(k) => st.(kind := Some(k))
    case PortKind(k) => st.(port := Some(k))
    case PortData(_) => st.(port := None)
    case _ => st
  }

  function DecodeInfos(nlas: seq<Nla>, clean: bool, st: InfoState): Result<seq<LinkInfo>>
    decreases ScanSize(nlas), 2
  {
    if nlas == [] then (if clean then Ok([]) else Err)
    else
      var i :- DecodeInfo(nlas[0], st);
      var rest :- DecodeInfos(nlas[1..], clean, Next(st, i));
      Ok([i] + rest)
  }

  function DecodeInfo(n: Nla, st: InfoState): Result<LinkInfo>
    decreases 4 + |n.value|, 1
  {
    match n.Type()
    case 1 => Ok(Kind(ParseString(n.value)))
    case 2 =>
      if st.kind.None? then Err
      else
        var d :- DecodeData(n.value, st.kind.value);
        Ok(Data(d))
    case 3 => if st.kind.None? then Err else Ok(Xstats(n.value))
    case 4 => Ok(PortKind(ParseString(n.value)))
    case 5 =>
      if st.port.None? then Err
      else
        var d :- DecodePortData(n.value, st.port.value);
        Ok(PortData(d))
    case _ => Ok(InfoOther(n))
  }

  function DecodeData(payload: Bytes, kind: Bytes): Result<InfoData>
    decreases |payload|, 1
  {
    match FormOfKind(kind)
    case AsVeth =>
      if HeadOk(payload) then
        var v :- DecodeVeth(Head(payload));
        Ok(VethData(v))
      else Err
    case AsVrf =>
      var vs :- DecodeList(payload, DecodeVrf);
      Ok(VrfData(vs))
    case AsList =>
      var ns :- DecodeList(payload, DecodeKept);
      Ok(ListData(kind, ns))
    case AsOctets => Ok(RawData(payload))
  }

  function DecodeVeth(n: Nla): Result<InfoVeth>
    decreases |n.value|, 1
  {
    if n.Type() == VETH_INFO_PEER then
      var m :- DecodeLink(n.value);
      Ok(Peer(m))
    else Ok(VethOther(n))
  }

  // ---- what a decoder can produce ----

  predicate Fits(m: LinkMessage)
    decreases m
  {
    m.header.family.Canonical() && AttributesFit(m.attributes, m.header.family)
  }

  predicate AttributesFit(xs: seq<LinkAttribute>, family: AddressFamily)
    decreases xs
  {
    xs == [] || (AttributeFits(xs[0], family) && AttributesFit(xs[1..], family))
  }

  predicate AttributeFits(a: LinkAttribute, family: AddressFamily)
    decreases a
  {
    match a
    case LinkInfos(infos) => InfosFit(infos, START)
    case Plain(l) => l.Fits(family)
  }

  predicate InfosFit(infos: seq<LinkInfo>, st: InfoState)
    decreases infos
  {
    infos == [] || (InfoFits(infos[0], st) && InfosFit(infos[1..], Next(st, infos[0])))
  }

  predicate InfoFits(i: LinkInfo, st: InfoState)
    decreases i
  {
    match i
    case Kind(_) => true
    case Data(d) => st.kind.Some? && DataFits(d, st.kind.value)
    case Xstats(_) => st.kind.Some?
    case PortKind(_) => true
    case PortData(d) => st.port.Some? && d.FitsPortKind(st.port.value)
    case InfoOther(n) => n.Type() !in {1, 2, 3, 4, 5}
  }

  /** The data is of the variant that the kind selects. */
  predicate DataFits(d: InfoData, kind: Bytes)
    decreases d
  {
    match d
    case VethData(v) => FormOfKind(kind).AsVeth? && VethFits(v)
    case VrfData(vs) => FormOfKind(kind).AsVrf? && forall i :: 0 <= i < |vs| ==> vs[i].Valid()
    case ListData(k, _) => FormOfKind(kind).AsList? && k == kind
    case RawData(_) => FormOfKind(kind).AsOctets?
  }

  predicate VethFits(v: InfoVeth)
    decreases v
  {
    match v
    case Peer(m) => Fits(m)
    case VethOther(n) => n.Type() != VETH_INFO_PEER
  }

  /** Only the outermost attributes need room in their length field; the rest follows. */
  predicate SizeBounded(m: LinkMessage) {
    AllFit(RawAttributes(m.attributes))
  }

  // ---- soundness ----

  lemma {:induction false} LinkSound(b: Bytes)
    requires DecodeLink(b).Ok?
    ensures Fits(DecodeLink(b).value)
    decreases |b|, 0
  {
    var h := DecodeHeader(b);
    var f := Scan(b[LINK_HEADER_LEN..]);
    ScanBounds(b[LINK_HEADER_LEN..]);
    FamilyRoundTrip(h.family, b[0]);
    hide FamilyOf;
    AttributesSound(f.nlas, f.clean, h.family);
  }

  lemma {:induction false} AttributesSound(nlas: seq<Nla>, clean: bool, family: AddressFamily)
    requires DecodeAttributes(nlas, clean, family).Ok?
    ensures AttributesFit(DecodeAttributes(nlas, clean, family).value, family)
    decreases ScanSize(nlas), 2
  {
    hide DecodeAttribute, AttributeFits;
    if nlas != [] {
      AttributeSound(nlas[0], family);
      AttributesSound(nlas[1..], clean, family);
      assert DecodeAttributes(nlas, clean, family).value[1..] == DecodeAttributes(nlas[1..], clean, family).value;
    }
  }

  lemma {:induction false} AttributeSound(n: Nla, family: AddressFamily)
    requires DecodeAttribute(n, family).Ok?
    ensures AttributeFits(DecodeAttribute(n, family).value, family)
    decreases 4 + |n.value|, 1
  {
    hide DecodeLinkLeaf;
    if n.Type() == IFLA_LINKINFO {
      ScanBounds(n.value);
      InfosSound(Scan(n.value).nlas, Scan(n.value).clean, START);
    } else {
      LinkLeafSound(n, family);
    }
  }

  lemma {:induction false} InfosSound(nlas: seq<Nla>, clean: bool, st: InfoState)
    requires DecodeInfos(nlas, clean, st).Ok?
    ensures InfosFit(DecodeInfos(nlas, clean, st).value, st)
    decreases ScanSize(nlas), 2
  {
    hide DecodeInfo, InfoFits, Next;
    if nlas != [] {
      InfoSound(nlas[0], st);
      var i := DecodeInfo(nlas[0], st).value;
      InfosSound(nlas[1..], clean, Next(st, i));
      assert DecodeInfos(nlas, clean, st).value[1..] == DecodeInfos(nlas[1..], clean, Next(st, i)).value;
    }
  }

  lemma {:induction false} InfoSound(n: Nla, st: InfoState)
    requires DecodeInfo(n, st).Ok?
    ensures InfoFits(DecodeInfo(n, st).value, st)
    decreases 4 + |n.value|, 1
  {
    hide DecodePortData, ParseString;
    if n.Type() == 2 {
      DataSound(n.value, st.kind.value);
    } else if n.Type() == 5 {
      PortDataSound(n.value, st.port.value);
    }
  }

  lemma {:induction false} DataSound(payload: Bytes, kind: Bytes)
    requires DecodeData(payload, kind).Ok?
    ensures DataFits(DecodeData(payload, kind).value, kind)
    decreases |payload|, 1
  {
    hide FormOfKind, DecodeList;
    match FormOfKind(kind)
    case AsVeth =>
      var n := Head(payload);
      if n.Type() == VETH_INFO_PEER {
        LinkSound(n.value);
      }
    case AsVrf => VrfsSound(payload);
    case AsList =>
    case AsOctets =>
  }

  // ---- round trip ----

  lemma HeaderRoundTrip(h: LinkHeader, tail: Bytes)
    ensures DecodeHeader(EncodeHeader(h) + tail) == h <==> h.family.Canonical()
    ensures (EncodeHeader(h) + tail)[LINK_HEADER_LEN..] == tail
    ensures h.family.Canonical() ==> FamilyOf(h.family.Code()) == h.family
  {
    FamilyRoundTrip(h.family, 0);
    hide Put16, Get16, Put32, Get32, FamilyOf;
    var b := EncodeHeader(h) + tail;
    assert b[2..4] == Put16(h.layerType);
    assert b[4..8] == Put32(h.index);
    assert b[8..12] == Put32(h.flags);
    assert b[12..16] == Put32(h.changeMask);
  }

  /** What fits comes back, through every level of veth peers. */
  lemma {:induction false} FittingRoundTrip(m: LinkMessage)
    requires Fits(m) && SizeBounded(m)
    ensures DecodeLink(EncodeLink(m)) == Ok(m)
    decreases m, 1
  {
    var ns := RawAttributes(m.attributes);
    HeaderRoundTrip(m.header, EncodeNlas(ns));
    ScanExact(ns);
    AttributesRoundTrip(m.attributes, m.header.family);
    hide EncodeHeader, EncodeNlas, DecodeHeader, RawAttributes;
  }

  lemma {:induction false} AttributesRoundTrip(xs: seq<LinkAttribute>, family: AddressFamily)
    requires AttributesFit(xs, family) && AllFit(RawAttributes(xs))
    ensures DecodeAttributes(RawAttributes(xs), true, family) == Ok(xs)
    decreases xs, 0
  {
    hide DecodeAttribute, RawAttribute;
    if xs != [] {
      assert RawAttributes(xs)[0].Fits();
      AttributeRoundTrip(xs[0], family);
      assert RawAttributes(xs)[1..] == RawAttributes(xs[1..]);
      AttributesRoundTrip(xs[1..], family);
      assert [xs[0]] + xs[1..] == xs;
    }
  }

  lemma {:induction false} AttributeRoundTrip(a: LinkAttribute, family: AddressFamily)
    requires AttributeFits(a, family) && RawAttribute(a).Fits()
    ensures DecodeAttribute(RawAttribute(a), family) == Ok(a)
    decreases a, 0
  {
    hide RawLinkLeaf, DecodeLinkLeaf, EncodeNlas, RawInfos, DecodeInfos, InfosFit, Scan;
    match a
    case LinkInfos(infos) => InfoListRoundTrip(infos);
    case Plain(l) => LinkLeafRoundTrip(l, family);
  }

  lemma {:induction false} InfoListRoundTrip(infos: seq<LinkInfo>)
    requires InfosFit(infos, START) && |EncodeNlas(RawInfos(infos))| <= 0xFFFF
    ensures Scan(EncodeNlas(RawInfos(infos))) == Framed(RawInfos(infos), true)
    ensures DecodeInfos(RawInfos(infos), true, START) == Ok(infos)
    decreases infos, 1
  {
    hide EncodeNlas, RawInfos, DecodeInfos, InfosFit, Scan;
    MembersFit(RawInfos(infos));
    ScanExact(RawInfos(infos));
    InfosRoundTrip(infos, START);
  }

  lemma {:induction false} InfosRoundTrip(infos: seq<LinkInfo>, st: InfoState)
    requires InfosFit(infos, st) && AllFit(RawInfos(infos))
    ensures DecodeInfos(RawInfos(infos), true, st) == Ok(infos)
    decreases infos, 0
  {
    hide DecodeInfo, RawInfo, Next, InfoFits;
    if infos != [] {
      assert RawInfos(infos)[0].Fits();
      InfoRoundTrip(infos[0], st);
      assert RawInfos(infos)[1..] == RawInfos(infos[1..]);
      InfosRoundTrip(infos[1..], Next(st, infos[0]));
      assert [infos[0]] + infos[1..] == infos;
    }
  }

  lemma {:induction false} InfoRoundTrip(i: LinkInfo, st: InfoState)
    requires InfoFits(i, st) && RawInfo(i).Fits()
    ensures DecodeInfo(RawInfo(i), st) == Ok(i)
    decreases i, 0
  {
    hide PutString, ParseString, EncodePortData, DecodePortData;
    match i
    case Data(d) => DataRoundTrip(d, st.kind.value);
    case PortData(d) => PortDataRoundTrip(d, st.port.value);
    case _ =>
  }

  lemma {:induction false} DataRoundTrip(d: InfoData, kind: Bytes)
    requires DataFits(d, kind) && |EncodeData(d)| <= 0xFFFF
    ensures DecodeData(EncodeData(d), kind) == Ok(d)
    decreases d, 0
  {
    hide FormOfKind, DecodeList, EncodeNlas, EncodeNla, RawVrf, DecodeVrf, RawVeth, DecodeVeth, HeadOk, Head;
    match d
    case VethData(v) =>
      HeadOfOne(RawVeth(v));
      VethRoundTrip(v);
    case VrfData(vs) => VrfsRoundTrip(vs);
    case ListData(_, ns) => KeptRoundTrip(ns);
    case RawData(_) =>
  }

  /** One attribute alone in a buffer. */
  lemma HeadOfOne(n: Nla)
    requires |EncodeNla(n)| <= 0xFFFF
    ensures n.Fits() && HeadOk(EncodeNla(n)) && Head(EncodeNla(n)) == n
  {
    assert EncodeNla(n) + [] == EncodeNla(n);
    ScanOne(n, []);
  }

  lemma {:induction false} VethRoundTrip(v: InfoVeth)
    requires VethFits(v) && RawVeth(v).Fits()
    ensures DecodeVeth(RawVeth(v)) == Ok(v)
    decreases v, 0
  {
    hide EncodeLink, DecodeLink, Fits, EncodeNlas;
    match v
    case Peer(m) => PeerRoundTrip(m);
    case VethOther(_) =>
  }

  lemma {:induction false} PeerRoundTrip(m: LinkMessage)
    requires Fits(m) && |EncodeLink(m)| <= 0xFFFF
    ensures DecodeLink(EncodeLink(m)) == Ok(m)
    decreases m, 2
  {
    assert SizeBounded(m) by {
      MembersFit(RawAttributes(m.attributes));
    }
    FittingRoundTrip(m);
  }

  /** A message of bounded size survives exactly when it obeys the discipline. */
  lemma LinkRoundTrip(m: LinkMessage)
    requires SizeBounded(m)
    ensures DecodeLink(EncodeLink(m)) == Ok(m) <==> Fits(m)
  {
    hide DecodeLink, EncodeLink, Fits;
    if Fits(m) {
      FittingRoundTrip(m);
    }
    if DecodeLink(EncodeLink(m)) == Ok(m) {
      LinkSound(EncodeLink(m));
    }
  }
}
