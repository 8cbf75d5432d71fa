/**
 The message envelope: src/message.rs. A 16-bit message type selects the codec, and three
 of the `Get` types also accept a header cut down to the address family.
 */
module Envelope {
  import opened Wire
  import opened Framing
  import opened Families
  import Bridging = Mdb
  import Tunnels = Tunnel
  import Links = Link
  import Routes = Route
  import RouteTree
  import RouteAttributes
  import Tc
  import Nexthops = Nexthop
  import LinkAttributes

  // ---- address messages: src/address/message.rs, with attributes kept as framed ----

  datatype AddressMessage = AddressMessage(
    family: AddressFamily, prefixLen: u8, flags: u8, scope: u8, index: u32, attributes: seq<Nla>)

  const ADDRESS_HEADER_LEN: nat := 8

  function EncodeAddressMessage(m: AddressMessage): (b: Bytes)
    ensures |b| >= ADDRESS_HEADER_LEN
  {
    [m.family.Code(), m.prefixLen, m.flags, m.scope] + Put32(m.index) + EncodeNlas(m.attributes)
  }

  function DecodeAddressMessage(b: Bytes): Result<AddressMessage> {
    if |b| < ADDRESS_HEADER_LEN then Err
    else if !Scan(b[8..]).clean then Err
    else Ok(AddressMessage(FamilyOf(b[0]), b[1], b[2], b[3], Get32(b[4..8]), Scan(b[8..]).nlas))
  }

  lemma AddressMessageRoundTrip(m: AddressMessage)
    requires AllFit(m.attributes)
    ensures DecodeAddressMessage(EncodeAddressMessage(m)) == Ok(m) <==> m.family.Canonical()
  {
    ScanExact(m.attributes);
    FamilyRoundTrip(m.family, 0);
    hide Put32, Get32, EncodeNlas, Scan, FamilyOf;
    var b := EncodeAddressMessage(m);
    assert b[4..8] == Put32(m.index);
    assert b[8..] == EncodeNlas(m.attributes);
  }

  // ---- messages ----

  /** The families of messages whose payload is not modelled share one constructor. */
  datatype RouteNetlinkMessage =
    | NewLink(link: Links.LinkMessage) | DelLink(link: Links.LinkMessage)
    | GetLink(link: Links.LinkMessage) | SetLink(link: Links.LinkMessage)
    | NewLinkProp(link: Links.LinkMessage) | DelLinkProp(link: Links.LinkMessage)
    | NewAddress(address: AddressMessage) | DelAddress(address: AddressMessage) | GetAddress(address: AddressMessage)
    | NewRoute(route: Routes.RouteMessage) | DelRoute(route: Routes.RouteMessage) | GetRoute(route: Routes.RouteMessage)
    | NewQueueDiscipline(tc: Tc.TcMessage) | DelQueueDiscipline(tc: Tc.TcMessage) | GetQueueDiscipline(tc: Tc.TcMessage)
    | NewTrafficClass(tc: Tc.TcMessage) | DelTrafficClass(tc: Tc.TcMessage) | GetTrafficClass(tc: Tc.TcMessage)
    | NewTrafficFilter(tc: Tc.TcMessage) | DelTrafficFilter(tc: Tc.TcMessage) | GetTrafficFilter(tc: Tc.TcMessage)
    | NewTrafficChain(tc: Tc.TcMessage) | DelTrafficChain(tc: Tc.TcMessage) | GetTrafficChain(tc: Tc.TcMessage)
    | NewNexthop(nexthop: Nexthops.NexthopMessage) | DelNexthop(nexthop: Nexthops.NexthopMessage)
    | GetNexthop(nexthop: Nexthops.NexthopMessage)
    | NewMdb(mdb: Bridging.MdbMessage) | DelMdb(mdb: Bridging.MdbMessage) | GetMdb(mdb: Bridging.MdbMessage)
    | NewTunnel(tunnel: Tunnels.TunnelMessage) | DelTunnel(tunnel: Tunnels.TunnelMessage)
    | GetTunnel(tunnel: Tunnels.TunnelMessage)
    | Unmodelled(code: u16, octets: Bytes)
  {
    function MessageType(): u16 {
      match this
      case NewLink(_) => 16
      case DelLink(_) => 17
      case GetLink(_) => 18
      case SetLink(_) => 19
      case NewLinkProp(_) => 108
      case DelLinkProp(_) => 109
      case NewAddress(_) => 20
      case DelAddress(_) => 21
      case GetAddress(_) => 22
      case NewRoute(_) => 24
      case DelRoute(_) => 25
      case GetRoute(_) => 26
      case NewQueueDiscipline(_) => 36
      case DelQueueDiscipline(_) => 37
      case GetQueueDiscipline(_) => 38
      case NewTrafficClass(_) => 40
      case DelTrafficClass(_) => 41
      case GetTrafficClass(_) => 42
      case NewTrafficFilter(_) => 44
      case DelTrafficFilter(_) => 45
      case GetTrafficFilter(_) => 46
      case NewTrafficChain(_) => 100
      case DelTrafficChain(_) => 101
      case GetTrafficChain(_) => 102
      case NewNexthop(_) => 104
      case DelNexthop(_) => 105
      case GetNexthop(_) => 106
      case NewMdb(_) => 84
      case DelMdb(_) => 85
      case GetMdb(_) => 86
      case NewTunnel(_) => 120
      case DelTunnel(_) => 121
      case GetTunnel(_) => 122
      case Unmodelled(c, _) => c
    }

    predicate IsLink() {
      NewLink? || DelLink? || GetLink? || SetLink? || NewLinkProp? || DelLinkProp?
    }

    predicate IsAddress() {
      NewAddress? || DelAddress? || GetAddress?
    }

    predicate IsRoute() {
      NewRoute? || DelRoute? || GetRoute?
    }

    predicate IsNexthop() {
      NewNexthop? || DelNexthop? || GetNexthop?
    }

    predicate IsMdb() {
      NewMdb? || DelMdb? || GetMdb?
    }

    predicate IsTunnel() {
      NewTunnel? || DelTunnel? || GetTunnel?
    }

    predicate IsTc() {
      !IsLink() && !IsAddress() && !IsRoute() && !IsNexthop() && !IsMdb() && !IsTunnel() && !Unmodelled?
    }
  }

  /** Neighbours, rules, actions, prefixes, neighbour tables and namespaces. */
  const UNMODELLED_TYPES: set<u16> := {28, 29, 30, 32, 33, 34, 48, 49, 50, 52, 64, 66, 67, 88, 89, 90}

  function Encode(m: RouteNetlinkMessage): Bytes {
    if m.IsLink() then Links.EncodeLink(m.link)
    else if m.IsAddress() then EncodeAddressMessage(m.address)
    else if m.IsRoute() then Routes.EncodeMessage(m.route)
    else if m.IsNexthop() then Nexthops.EncodeNexthopMessage(m.nexthop)
    else if m.IsMdb() then Bridging.EncodeMdbMessage(m.mdb)
    else if m.IsTunnel() then Tunnels.EncodeTunnelMessage(m.tunnel)
    else if m.Unmodelled? then m.octets
    else Tc.EncodeTc(m.tc)
  }

  // ---- the three short forms ----

  const RTM_GETLINK: u16 := 18
  const RTM_GETADDR: u16 := 22
  const RTM_GETROUTE: u16 := 26

  function BareLink(family: AddressFamily): Links.LinkMessage {
    Links.LinkMessage(Links.LinkHeader(family, 0, 0, 0, 0), [])
  }

  function BareAddress(family: AddressFamily): AddressMessage {
    AddressMessage(family, 0, 0, 0, 0, [])
  }

  function BareRoute(family: AddressFamily): Routes.RouteMessage {
    Routes.RouteMessage(Routes.RouteHeader(family, 0, 0, 0, 0, 0, 0, RouteAttributes.TypeUnspec, 0), [])
  }

  function ParseLink(b: Bytes, t: u16): Result<Links.LinkMessage> {
    if |b| >= Links.LINK_HEADER_LEN then Links.DecodeLink(b)
    else if |b| == 4 && t == RTM_GETLINK then Ok(BareLink(FamilyOf(b[0])))
    else Err
  }

  function ParseAddress(b: Bytes, t: u16): Result<AddressMessage> {
    if |b| >= ADDRESS_HEADER_LEN then DecodeAddressMessage(b)
    else if |b| == 4 && t == RTM_GETADDR then Ok(BareAddress(FamilyOf(b[0])))
    else Err
  }

  function ParseRoute(b: Bytes, t: u16): Result<Routes.RouteMessage> {
    if |b| >= Routes.ROUTE_HEADER_LEN then Routes.DecodeMessage(b)
    else if (|b| == 4 || |b| == 1) && t == RTM_GETROUTE then Ok(BareRoute(FamilyOf(b[0])))
    else Err
  }

  // ---- dispatch ----

  /** `parse_with_param`; `other` stands for the decoders that are not modelled. */
  function Parse(b: Bytes, t: u16, other: (u16, Bytes) -> Result<Bytes>): Result<RouteNetlinkMessage> {
    if t in {16, 17, 18, 19} then
      var m :- ParseLink(b, t);
      Ok(match t case 16 => NewLink(m) case 18 => GetLink(m) case 17 => DelLink(m) case _ => SetLink(m))
    else if t in {20, 21, 22} then
      var m :- ParseAddress(b, t);
      Ok(match t case 20 => NewAddress(m) case 22 => GetAddress(m) case _ => DelAddress(m))
    else if t in {24, 25, 26} then
      var m :- ParseRoute(b, t);
      Ok(match t case 24 => NewRoute(m) case 26 => GetRoute(m) case _ => DelRoute(m))
    else if t in {36, 37, 38, 40, 41, 42, 44, 45, 46, 100, 101, 102} then
      var m :- Tc.DecodeTc(b);
      Ok(match t
         case 36 => NewQueueDiscipline(m)
         case 37 => DelQueueDiscipline(m)
         case 38 => GetQueueDiscipline(m)
         case 40 => NewTrafficClass(m)
         case 41 => DelTrafficClass(m)
         case 42 => GetTrafficClass(m)
         case 44 => NewTrafficFilter(m)
         case 45 => DelTrafficFilter(m)
         case 46 => GetTrafficFilter(m)
         case 100 => NewTrafficChain(m)
         case 101 => DelTrafficChain(m)
         case _ => GetTrafficChain(m))
    else if t in {104, 105, 106} then
      var m :- Nexthops.DecodeNexthopMessage(b);
      Ok(match t case 104 => NewNexthop(m) case 105 => DelNexthop(m) case _ => GetNexthop(m))
    else if t in {84, 85, 86} then
      var m :- Bridging.DecodeMdbMessage(b);
      Ok(match t case 84 => NewMdb(m) case 85 => DelMdb(m) case _ => GetMdb(m))
    else if t in {120, 121, 122} then
      var m :- Tunnels.DecodeTunnelMessage(b);
      Ok(match t case 120 => NewTunnel(m) case 121 => DelTunnel(m) case _ => GetTunnel(m))
    else if t in UNMODELLED_TYPES then
      var m :- other(t, b);
      Ok(Unmodelled(t, m))
    else Err
  }

  /** A message that decodes has the type it was asked for, and is never a link property. */
  lemma TypeIsKept(b: Bytes, t: u16, other: (u16, Bytes) -> Result<Bytes>)
    requires Parse(b, t, other).Ok?
    ensures var m := Parse(b, t, other).value;
            m.MessageType() == t && !m.NewLinkProp? && !m.DelLinkProp?
  {
    hide ParseLink, ParseAddress, ParseRoute, Tc.DecodeTc, Nexthops.DecodeNexthopMessage, Bridging.DecodeMdbMessage,
      Tunnels.DecodeTunnelMessage;
  }

  /** Which buffers shorter than their header are accepted. */
  lemma ShortForms(b: Bytes, t: u16)
    ensures |b| < Links.LINK_HEADER_LEN ==> (ParseLink(b, t).Ok? <==> t == 18 && |b| == 4)
    ensures |b| < ADDRESS_HEADER_LEN ==> (ParseAddress(b, t).Ok? <==> t == 22 && |b| == 4)
    ensures |b| < Routes.ROUTE_HEADER_LEN ==> (ParseRoute(b, t).Ok? <==> t == 26 && |b| in {1, 4})
  {
    hide Links.DecodeLink, DecodeAddressMessage, Routes.DecodeMessage;
  }

  // ---- round trip ----

  /** Every outermost attribute can state its length. */
  predicate SizeBounded(m: RouteNetlinkMessage) {
    if m.IsLink() then Links.SizeBounded(m.link)
    else if m.IsAddress() then AllFit(m.address.attributes)
    else if m.IsRoute() then Routes.SizeBounded(m.route)
    else if m.IsNexthop() then AllFit(Nexthops.RawNexthops(m.nexthop))
    else if m.IsMdb() then AllFit(Map(m.mdb.attributes, Bridging.RawMdb))
    else if m.IsTunnel() || m.Unmodelled? then true
    else Tc.SizeBounded(m.tc)
  }

  ghost predicate Coherent(m: RouteNetlinkMessage, other: (u16, Bytes) -> Result<Bytes>) {
    if m.IsLink() then !m.NewLinkProp? && !m.DelLinkProp? && Links.Fits(m.link)
    else if m.IsAddress() then m.address.family.Canonical()
    else if m.IsRoute() then Routes.Coherent(m.route)
    else if m.IsNexthop() then Nexthops.FitsItsFamily(m.nexthop) && NoEncaps(m.nexthop.attributes)
    else if m.IsMdb() then m.mdb.family.Canonical() && AllValid(m.mdb.attributes)
    else if m.IsTunnel() then m.tunnel.family.Canonical()
    else if m.Unmodelled? then m.code in UNMODELLED_TYPES && other(m.code, m.octets) == Ok(m.octets)
    else Tc.Coherent(m.tc)
  }

  predicate NoEncaps(xs: seq<Nexthops.NexthopAttribute>) {
    forall i :: 0 <= i < |xs| ==> !xs[i].Encaps?
  }

  predicate AllValid(xs: seq<Bridging.MdbAttribute>) {
    forall i :: 0 <= i < |xs| ==> xs[i].Valid()
  }

  /** Asked for the type of `m`, the dispatch runs the codec of `m`. */
  lemma Dispatch(b: Bytes, m: RouteNetlinkMessage, other: (u16, Bytes) -> Result<Bytes>)
    ensures Parse(b, m.MessageType(), other) == Ok(m) <==>
            if m.IsLink() then !m.NewLinkProp? && !m.DelLinkProp? && ParseLink(b, m.MessageType()) == Ok(m.link)
            else if m.IsAddress() then ParseAddress(b, m.MessageType()) == Ok(m.address)
            else if m.IsRoute() then ParseRoute(b, m.MessageType()) == Ok(m.route)
            else if m.IsNexthop() then Nexthops.DecodeNexthopMessage(b) == Ok(m.nexthop)
            else if m.IsMdb() then Bridging.DecodeMdbMessage(b) == Ok(m.mdb)
            else if m.IsTunnel() then Tunnels.DecodeTunnelMessage(b) == Ok(m.tunnel)
            else if m.Unmodelled? then m.code in UNMODELLED_TYPES && other(m.code, b) == Ok(m.octets)
            else Tc.DecodeTc(b) == Ok(m.tc)
  {
    hide ParseLink, ParseAddress, ParseRoute, Tc.DecodeTc, Nexthops.DecodeNexthopMessage, Bridging.DecodeMdbMessage,
      Tunnels.DecodeTunnelMessage;
  }

  /** An emitted message is never mistaken for a short form. */
  lemma EmittedIsNotShort(m: RouteNetlinkMessage)
    ensures m.IsLink() ==> ParseLink(Encode(m), m.MessageType()) == Links.DecodeLink(Encode(m))
    ensures m.IsAddress() ==> ParseAddress(Encode(m), m.MessageType()) == DecodeAddressMessage(Encode(m))
    ensures m.IsRoute() ==> ParseRoute(Encode(m), m.MessageType()) == Routes.DecodeMessage(Encode(m))
  {
    hide Links.EncodeLink, Links.DecodeLink, EncodeAddressMessage, DecodeAddressMessage, Routes.DecodeMessage,
      Routes.EncodeHeader, RouteTree.EncodeAttributes;
  }

  /** Every message of bounded size comes back under its own type exactly when it is coherent
      and not a link property. */
  lemma EnvelopeRoundTrip(m: RouteNetlinkMessage, other: (u16, Bytes) -> Result<Bytes>)
    requires SizeBounded(m)
    ensures Parse(Encode(m), m.MessageType(), other) == Ok(m) <==> Coherent(m, other)
  {
    Dispatch(Encode(m), m, other);
    EmittedIsNotShort(m);
    hide Parse, ParseLink, ParseAddress, ParseRoute, Tc.DecodeTc, Nexthops.DecodeNexthopMessage,
      Bridging.DecodeMdbMessage, Tunnels.DecodeTunnelMessage, Links.DecodeLink, DecodeAddressMessage, Routes.DecodeMessage,
      Links.EncodeLink, EncodeAddressMessage, Routes.EncodeMessage, Nexthops.EncodeNexthopMessage,
      Bridging.EncodeMdbMessage, Tunnels.EncodeTunnelMessage, Tc.EncodeTc, Links.Fits, Routes.Coherent, Tc.Coherent,
      Nexthops.FitsItsFamily, Links.SizeBounded, Routes.SizeBounded, Tc.SizeBounded;
    if m.IsLink() {
      Links.LinkRoundTrip(m.link);
    } else if m.IsAddress() {
      AddressMessageRoundTrip(m.address);
    } else if m.IsRoute() {
      Routes.MessageRoundTrip(m.route);
    } else if m.IsNexthop() {
      Nexthops.NexthopRoundTrip(m.nexthop);
    } else if m.IsMdb() {
      Bridging.MdbMessageRoundTrip(m.mdb);
    } else if m.IsTunnel() {
      Tunnels.TunnelRoundTrip(m.tunnel);
    } else if !m.Unmodelled? {
      Tc.TcRoundTrip(m.tc);
    }
  }

  lemma BareMessagesSurvive(code: u8)
    ensures Links.DecodeLink(Links.EncodeLink(BareLink(FamilyOf(code)))) == Ok(BareLink(FamilyOf(code)))
    ensures DecodeAddressMessage(EncodeAddressMessage(BareAddress(FamilyOf(code)))) == Ok(BareAddress(FamilyOf(code)))
    ensures Routes.DecodeMessage(Routes.EncodeMessage(BareRoute(FamilyOf(code)))) == Ok(BareRoute(FamilyOf(code)))
  {
    FamilyRoundTrip(Unspec, code);
    hide Links.DecodeLink, DecodeAddressMessage, Routes.DecodeMessage, Links.EncodeLink, EncodeAddressMessage,
      Routes.EncodeMessage, FamilyOf;
    var family := FamilyOf(code);
    Links.LinkRoundTrip(BareLink(family));
    AddressMessageRoundTrip(BareAddress(family));
    Routes.MessageRoundTrip(BareRoute(family));
  }

  predicate NoAttributes(m: RouteNetlinkMessage) {
    if m.IsLink() then m.link.attributes == []
    else if m.IsAddress() then m.address.attributes == []
    else m.IsRoute() && m.route.attributes == []
  }

  /** A bare message is its family and zeros. */
  lemma BareOctets(code: u8)
    ensures Links.EncodeLink(BareLink(FamilyOf(code))) == [code] + Zeros(15)
    ensures EncodeAddressMessage(BareAddress(FamilyOf(code))) == [code] + Zeros(7)
    ensures Routes.EncodeMessage(BareRoute(FamilyOf(code))) == [code] + Zeros(11)
  {
    FamilyRoundTrip(Unspec, code);
    assert Put32(0) == Zeros(4);
    hide FamilyOf, AddressFamily.Code;
  }

  /** What a short form decodes to holds the family of octet 0 and nothing else; it is emitted in
      full, as that octet and zeros, and comes back the same. */
  lemma ShortFormsAreFixedPoints(b: Bytes, t: u16, other: (u16, Bytes) -> Result<Bytes>)
    requires (t in {18, 22, 26} && |b| == 4) || (t == 26 && |b| == 1)
    ensures Parse(b, t, other).Ok?
    ensures var m := Parse(b, t, other).value;
            |Encode(m)| > |b| && Parse(Encode(m), t, other) == Ok(m)
    ensures var m := Parse(b, t, other).value;
            Encode(m)[0] == b[0] && (forall i :: 1 <= i < |Encode(m)| ==> Encode(m)[i] == 0) && NoAttributes(m)
  {
    hide Links.DecodeLink, DecodeAddressMessage, Routes.DecodeMessage, Links.EncodeLink, EncodeAddressMessage, FamilyOf,
      Tc.DecodeTc, Nexthops.DecodeNexthopMessage, Bridging.DecodeMdbMessage, Tunnels.DecodeTunnelMessage;
    BareMessagesSurvive(b[0]);
    BareOctets(b[0]);
    var m := Parse(b, t, other).value;
    assert m.MessageType() == t by {
      TypeIsKept(b, t, other);
    }
    EmittedIsNotShort(m);
    Dispatch(Encode(m), m, other);
  }

  /** Link properties can be emitted, but nothing can be parsed under their types. */
  lemma LinkPropsAreEmitOnly(m: Links.LinkMessage, b: Bytes, other: (u16, Bytes) -> Result<Bytes>)
    ensures Parse(b, NewLinkProp(m).MessageType(), other) == Err && Parse(b, DelLinkProp(m).MessageType(), other) == Err
    ensures Encode(NewLinkProp(m)) == Encode(NewLink(m)) && Encode(DelLinkProp(m)) == Encode(NewLink(m))
  {
    hide Links.EncodeLink;
  }
}
