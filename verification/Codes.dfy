/**
 The numbers on the wire, written out: which code stands for which family, route type, encap
 type, preference and propagation mode, and which attribute type is read how. The decoders
 are compared with these tables, not with the encoders.
 */
module Codes {
  import opened Wire
  import opened Framing
  import opened Mpls
  import opened Srv6
  import opened Families
  import opened Encap
  import Routes = RouteAttributes
  import RouteTree
  import Nexthops = Nexthop
  import Bridging = Mdb
  import opened LinkAttributes
  import opened ExtMask
  import opened TcActions
  import Links = Link
  import Selectors = TcSelector
  import Tunnels = Tunnel
  import Tc

  // ---- byte order and flags ----

  /** Words are little-endian in native order and big-endian in network order. */
  lemma ByteOrder(a: u8, b: u8, c: u8, d: u8)
    ensures Get16([a, b]) == a + 0x100 * b as int && GetBe16([a, b]) == 0x100 * a as int + b
    ensures Get32([a, b, c, d]) == a as int + 0x100 * b as int + 0x1_0000 * c as int + 0x100_0000 * d as int
    ensures GetBe32([a, b, c, d]) == 0x100_0000 * a as int + 0x1_0000 * b as int + 0x100 * c as int + d as int
  {
    assert [a, b, c, d][..2] == [a, b] && [a, b, c, d][2..] == [c, d];
  }

  /** Scalars are read from values of exactly their width. */
  lemma ExactWidth(b: Bytes)
    ensures ParseU8(b).Ok? <==> |b| == 1
    ensures ParseU16(b).Ok? <==> |b| == 2
    ensures ParseU32(b).Ok? <==> |b| == 4
    ensures ParseU64(b).Ok? <==> |b| == 8
    ensures !ParseU8(b).Panic? && !ParseU16(b).Panic? && !ParseU32(b).Panic? && !ParseU64(b).Panic?
  {
  }

  /** The type of an attribute is its kind field without bits 15 and 14. */
  lemma TypeBits(t: u16, nested: bool, netOrder: bool, v: Bytes)
    requires t < 0x4000
    ensures Nla(t + (if nested then 0x8000 else 0) + (if netOrder then 0x4000 else 0), v).Type() == t
    ensures NLA_F_NESTED == 0x8000
  {
  }

  /** What is not a whole attribute ends the iteration in an error, with nothing framed. */
  lemma BadHead(buf: Bytes)
    requires buf != []
    requires |buf| < 4 || Get16(buf[..2]) < 4 || Get16(buf[..2]) > |buf|
    ensures Scan(buf) == Framed([], false)
  {
  }

  // ---- enumerations ----

  lemma FamilyCodes(c: u8)
    ensures FamilyOf(0) == Unspec && FamilyOf(1) == Unix && FamilyOf(2) == Inet && FamilyOf(7) == Bridge
    ensures FamilyOf(10) == Inet6 && FamilyOf(16) == Netlink && FamilyOf(17) == Packet && FamilyOf(28) == MplsFamily
    ensures c !in {0, 1, 2, 7, 10, 16, 17, 28} ==> FamilyOf(c) == OtherFamily(c)
    ensures Local.Code() == 1 && Route.Code() == 16
  {
  }

  lemma RouteTypeCodes(c: u8)
    ensures Routes.RouteTypeOf(0) == Routes.TypeUnspec && Routes.RouteTypeOf(1) == Routes.Unicast
    ensures Routes.RouteTypeOf(2) == Routes.TypeLocal && Routes.RouteTypeOf(3) == Routes.Broadcast
    ensures Routes.RouteTypeOf(4) == Routes.Anycast && Routes.RouteTypeOf(5) == Routes.Multicast
    ensures Routes.RouteTypeOf(6) == Routes.BlackHole && Routes.RouteTypeOf(7) == Routes.Unreachable
    ensures Routes.RouteTypeOf(8) == Routes.Prohibit && Routes.RouteTypeOf(9) == Routes.Throw
    ensures Routes.RouteTypeOf(10) == Routes.Nat && Routes.RouteTypeOf(11) == Routes.ExternalResolve
    ensures c > 11 ==> Routes.RouteTypeOf(c) == Routes.TypeOther(c)
  {
  }

  lemma EncapTypeCodes(c: u16)
    ensures EncapTypeOf(0) == NoEncap && EncapTypeOf(1) == MplsEncap && EncapTypeOf(2) == Ip && EncapTypeOf(3) == Ila
    ensures EncapTypeOf(4) == Ip6 && EncapTypeOf(5) == Seg6Encap && EncapTypeOf(6) == Bpf
    ensures EncapTypeOf(7) == Seg6LocalEncap && EncapTypeOf(8) == Rpl && EncapTypeOf(9) == Ioam6 && EncapTypeOf(10) == Xfrm
    ensures c > 10 ==> EncapTypeOf(c) == OtherEncap(c)
  {
  }

  lemma PreferenceCodes(c: u8)
    ensures Routes.PreferenceOf(0) == Routes.Medium && Routes.PreferenceOf(1) == Routes.High
    ensures Routes.PreferenceOf(2) == Routes.Invalid && Routes.PreferenceOf(3) == Routes.Low
    ensures c > 3 ==> Routes.PreferenceOf(c) == Routes.PreferenceOther(c)
    ensures Routes.TtlPropagationOf(0) == Routes.PropDefault && Routes.TtlPropagationOf(1) == Routes.PropEnabled
    ensures Routes.TtlPropagationOf(2) == Routes.PropDisabled
    ensures c > 2 ==> Routes.TtlPropagationOf(c) == Routes.PropOther(c)
  {
  }

  // ---- attribute types ----

  /** Turning one outcome into another without changing how it fails. */
  function Then<T, U>(r: Result<T>, f: T -> U): Result<U> {
    match r
    case Ok(x) => Ok(f(x))
    case Err => Err
    case Panic => Panic
  }

  /** The form of an address is the family's, and its length must be. */
  lemma AddressForms(b: Bytes, family: AddressFamily)
    ensures DecodeAddress(Inet, b) == if |b| == 4 then Ok(V4(b)) else Err
    ensures DecodeAddress(Inet6, b) == if |b| == 16 then Ok(V6(b)) else Err
    ensures DecodeAddress(MplsFamily, b) == if |b| == 4 then Ok(Label(FromU32(GetBe32(b)))) else Err
    ensures family !in {Inet, Inet6, MplsFamily} ==> DecodeAddress(family, b) == Ok(Raw(b))
  {
    hide FromU32, GetBe32;
  }

  /** A tagged gateway names its family in the first octet; the second one is ignored. */
  lemma ViaForms(family: u8, ignored: u8, a: Bytes)
    ensures DecodeVia([2, ignored] + a) == if |a| == 4 then Ok(ViaInet(a)) else Err
    ensures DecodeVia([10, ignored] + a) == if |a| == 16 then Ok(ViaInet6(a)) else Err
    ensures DecodeVia([17, ignored] + a) == Ok(ViaPacket(a))
    ensures family !in {2, 10, 17} ==> DecodeVia([family, ignored] + a) == Ok(ViaOther(FamilyOf(family), a))
    ensures DecodeVia([]) == Err && DecodeVia([family]) == Err
  {
    forall code: u8 ensures DecodeVia([code, ignored] + a) == DecodeViaAs(FamilyOf(code), a) {
      var b := [code, ignored] + a;
      assert b[..2] == [code, ignored] && b[2..] == a;
    }
  }

  function DecodeViaAs(family: AddressFamily, a: Bytes): Result<RouteVia> {
    match family
    case Inet => if |a| == 4 then Ok(ViaInet(a)) else Err
    case Inet6 => if |a| == 16 then Ok(ViaInet6(a)) else Err
    case Packet => Ok(ViaPacket(a))
    case _ => Ok(ViaOther(family, a))
  }

  /** Route attributes with an address, by type. */
  lemma RouteAddressTypes(n: Nla, c: Routes.Context)
    ensures n.Type() == 1 ==> Routes.DecodeLeaf(n, c) == Then(DecodeAddress(c.family, n.value), a => Routes.Destination(a))
    ensures n.Type() == 2 ==> Routes.DecodeLeaf(n, c) == Then(DecodeAddress(c.family, n.value), a => Routes.Source(a))
    ensures n.Type() == 5 ==> Routes.DecodeLeaf(n, c) == Then(DecodeAddress(c.family, n.value), a => Routes.Gateway(a))
    ensures n.Type() == 7 ==> Routes.DecodeLeaf(n, c) == Then(DecodeAddress(c.family, n.value), a => Routes.PrefSource(a))
    ensures n.Type() == 18 ==> Routes.DecodeLeaf(n, c) == Then(DecodeVia(n.value), x => Routes.Via(x))
    ensures n.Type() == 19 ==> Routes.DecodeLeaf(n, c) == Ok(Routes.NewDestination(DecodeLabels(n.value)))
  {
    hide DecodeAddress, DecodeVia, DecodeLabels;
  }

  /** Route attributes with one word, by type. */
  lemma RouteWordTypes(n: Nla, c: Routes.Context)
    ensures n.Type() == 3 ==> Routes.DecodeLeaf(n, c) == Then(ParseU32(n.value), w => Routes.Iif(w))
    ensures n.Type() == 4 ==> Routes.DecodeLeaf(n, c) == Then(ParseU32(n.value), w => Routes.Oif(w))
    ensures n.Type() == 6 ==> Routes.DecodeLeaf(n, c) == Then(ParseU32(n.value), w => Routes.Priority(w))
    ensures n.Type() == 15 ==> Routes.DecodeLeaf(n, c) == Then(ParseU32(n.value), w => Routes.Table(w))
    ensures n.Type() == 16 ==> Routes.DecodeLeaf(n, c) == Then(ParseU32(n.value), w => Routes.Mark(w))
    ensures n.Type() == 25 ==> Routes.DecodeLeaf(n, c) == Then(ParseU32(n.value), w => Routes.Uid(w))
  {
    hide Get32;
  }

  /** Route attributes whose code is an enumeration, by type. */
  lemma RouteCodeTypes(n: Nla, c: Routes.Context)
    ensures n.Type() == 20 ==> Routes.DecodeLeaf(n, c) == Then(ParseU8(n.value), p => Routes.Pref(Routes.PreferenceOf(p)))
    ensures n.Type() == 21 ==> Routes.DecodeLeaf(n, c) == Then(ParseU16(n.value), t => Routes.EncapTypeIs(EncapTypeOf(t)))
    ensures n.Type() == 26 ==> Routes.DecodeLeaf(n, c) == Then(ParseU8(n.value), p => Routes.TtlPropagate(Routes.TtlPropagationOf(p)))
    ensures n.Type() == 22 ==> Routes.DecodeLeaf(n, c) == Then(DecodeEncaps(c.encap, n.value), es => Routes.Encaps(es))
    ensures n.Type() == 8 ==> Routes.DecodeLeaf(n, c) == Then(DecodeList(n.value, Routes.DecodeMetric), ms => Routes.Metrics(ms))
    ensures n.Type() == 23 && c.routeType == Routes.Multicast ==>
            Routes.DecodeLeaf(n, c) == Then(ParseU64(n.value), w => Routes.MulticastExpires(w))
    ensures n.Type() == 23 && c.routeType != Routes.Multicast ==>
            Routes.DecodeLeaf(n, c) == Then(ParseU32(n.value), w => Routes.Expires(w))
  {
    hide DecodeEncaps, DecodeList, Get32, Get64, Get16, EncapTypeOf, Routes.PreferenceOf, Routes.TtlPropagationOf;
  }

  /** Route attributes that are records, by type: a realm must have four octets and panics on
      fewer; cache info and multicast statistics may be longer and must not be shorter. */
  lemma RouteRecordTypes(n: Nla, c: Routes.Context)
    ensures n.Type() == 11 ==>
            Routes.DecodeLeaf(n, c) == (
              if |n.value| < 4 then Panic
              else if |n.value| > 4 then Err
              else Ok(Routes.Realm(Get16(n.value[2..4]), Get16(n.value[0..2]))))
    ensures n.Type() == 12 ==> Routes.DecodeLeaf(n, c) == if |n.value| < 32 then Err else Ok(Routes.CacheInfo(GetWords(n.value, 8)))
    ensures n.Type() == 17 ==>
            Routes.DecodeLeaf(n, c) == (
              if |n.value| < 24 then Err
              else Ok(Routes.MfcStats(Get64(n.value[0..8]), Get64(n.value[8..16]), Get64(n.value[16..24]))))
  {
    hide GetWords, Get64;
    if |n.value| == 4 {
      assert n.value[..2] == n.value[0..2] && n.value[2..] == n.value[2..4];
      hide Get16;
      SplitWord(Get16(n.value[0..2]), Get16(n.value[2..4]));
    }
    if |n.value| >= 24 {
      assert n.value[..8] == n.value[0..8];
    }
  }

  /** Every other type is kept, with its flags; type 9 holds next hops. */
  lemma RouteOtherTypes(n: Nla, c: Routes.Context)
    ensures n.Type() !in {1, 2, 3, 4, 5, 6, 7, 8, 11, 12, 15, 16, 17, 18, 19, 20, 21, 22, 23, 25, 26} ==>
            Routes.DecodeLeaf(n, c) == Ok(Routes.Other(n))
    ensures n.Type() == 9 ==>
            RouteTree.DecodeAttribute(n, c) == Then(RouteTree.DecodeHops(n.value, c), hs => RouteTree.MultiPath(hs))
    ensures n.Type() != 9 ==>
            RouteTree.DecodeAttribute(n, c) == Then(Routes.DecodeLeaf(n, c), l => RouteTree.Leaf(l))
  {
    hide RouteTree.DecodeHops, DecodeAddress, DecodeVia, DecodeEncaps, DecodeList;
  }

  /** A next hop needs eight octets and a length field within the buffer; a length below eight
      slices out of range. */
  lemma NextHopLengths(b: Bytes, c: Routes.Context)
    ensures |b| < 8 || Get16(b[0..2]) > |b| ==> RouteTree.DecodeHop(b, c) == Err
    ensures |b| >= 8 && Get16(b[0..2]) < 8 ==> RouteTree.DecodeHop(b, c) == Panic
    ensures RouteTree.DecodeHop(b, c).Ok? ==>
            var h := RouteTree.DecodeHop(b, c).value;
            |b| >= 8 && h.flags == b[2] && h.hops == b[3] && h.interfaceIndex == Get32(b[4..8])
  {
    hide RouteTree.DecodeAttributes, Get32, Get16;
    if |b| >= 2 {
      assert b[..2] == b[0..2];
    }
  }

  /** Metrics are the types 1 to 17. */
  lemma MetricTypes(n: Nla)
    ensures 1 <= n.Type() <= 17 ==> Routes.DecodeMetric(n) == Then(ParseU32(n.value), w => Routes.Metric(n.Type(), w))
    ensures n.Type() == 0 || n.Type() > 17 ==> Routes.DecodeMetric(n) == Ok(Routes.MetricOther(n))
  {
    hide Get32;
  }

  /** The encap type selects the codec of an encapsulation, and its types select the arms. */
  lemma EncapArms(n: Nla, t: EncapType)
    ensures DecodeEncap(MplsEncap, n) == Then(DecodeMpls(n), x => MplsVariant(x))
    ensures DecodeEncap(Seg6Encap, n) == Then(DecodeSeg6(n), x => Seg6Variant(x))
    ensures DecodeEncap(Seg6LocalEncap, n) == Then(DecodeLocal(n), x => LocalVariant(x))
    ensures t !in {MplsEncap, Seg6Encap, Seg6LocalEncap} ==> DecodeEncap(t, n) == Ok(OtherVariant(n))
    ensures n.Type() == 1 ==> DecodeMpls(n) == Ok(MplsDestination(DecodeLabels(n.value)))
    ensures n.Type() == 2 ==> DecodeMpls(n) == Then(ParseU8(n.value), v => MplsTtl(v))
    ensures n.Type() !in {1, 2} ==> DecodeMpls(n) == Ok(MplsOther(n))
    ensures n.Type() == 1 ==> DecodeSeg6(n) == Then(DecodeTunnel(n.value), x => Seg6Srh(x))
    ensures n.Type() != 1 ==> DecodeSeg6(n) == Ok(Seg6Other(n))
  {
    hide DecodeLocal, DecodeTunnel, DecodeLabels;
  }

  lemma LocalTypes(n: Nla)
    ensures n.Type() == 1 ==> DecodeLocal(n) == Then(ParseU32(n.value), w => Action(w))
    ensures n.Type() == 2 ==> DecodeLocal(n) == Then(DecodeSrh(n.value), h => Srh(h))
    ensures n.Type() == 3 ==> DecodeLocal(n) == Then(ParseU32(n.value), w => LocalTable(w))
    ensures n.Type() == 4 ==> DecodeLocal(n) == if |n.value| == 4 then Ok(Nh4(n.value)) else Err
    ensures n.Type() == 5 ==> DecodeLocal(n) == if |n.value| == 16 then Ok(Nh6(n.value)) else Err
    ensures n.Type() == 6 ==> DecodeLocal(n) == Then(ParseU32(n.value), w => LocalIif(w))
    ensures n.Type() == 7 ==> DecodeLocal(n) == Then(ParseU32(n.value), w => LocalOif(w))
    ensures n.Type() == 9 ==> DecodeLocal(n) == Then(ParseU32(n.value), w => VrfTable(w))
    ensures n.Type() == 10 ==> DecodeLocal(n) == Then(DecodeList(n.value, DecodeCounter), cs => Counters(cs))
    ensures n.Type() == 11 ==> DecodeLocal(n) == Then(DecodeList(n.value, DecodeFlavor), fs => Flavors(fs))
    ensures n.Type() !in {1, 2, 3, 4, 5, 6, 7, 9, 10, 11} ==> DecodeLocal(n) == Ok(LocalOther(n))
  {
    hide DecodeSrh, DecodeList, Get32;
  }

  lemma CounterAndFlavorTypes(n: Nla)
    ensures n.Type() == 0 ==> DecodeCounter(n) == Ok(CntUnspec)
    ensures n.Type() == 1 ==> DecodeCounter(n) == Ok(CntPadding(|n.value|))
    ensures n.Type() == 2 ==> DecodeCounter(n) == Then(ParseU64(n.value), w => Packets(w))
    ensures n.Type() == 3 ==> DecodeCounter(n) == Then(ParseU64(n.value), w => Encap.Octets(w))
    ensures n.Type() == 4 ==> DecodeCounter(n) == Then(ParseU64(n.value), w => Errors(w))
    ensures n.Type() > 4 ==> DecodeCounter(n) == Ok(CntOther(n))
    ensures n.Type() == 1 ==> DecodeFlavor(n) == Then(ParseU32(n.value), w => Operation(w))
    ensures n.Type() == 2 ==> DecodeFlavor(n) == Then(ParseU8(n.value), w => Lblen(w))
    ensures n.Type() == 3 ==> DecodeFlavor(n) == Then(ParseU8(n.value), w => Nflen(w))
    ensures n.Type() !in {1, 2, 3} ==> DecodeFlavor(n) == Ok(FlavorOther(n))
  {
    hide Get32, Get64;
  }

  lemma NexthopTypes(n: Nla, family: AddressFamily)
    ensures n.Type() == 1 ==> Nexthops.DecodeNexthop(family, n) == Then(ParseU32(n.value), w => Nexthops.Id(w))
    ensures n.Type() == 2 ==> Nexthops.DecodeNexthop(family, n) == Ok(Nexthops.Group(Nexthops.DecodeGroups(n.value)))
    ensures n.Type() == 3 ==> Nexthops.DecodeNexthop(family, n) == Then(ParseU16(n.value), w => Nexthops.GroupType(w))
    ensures n.Type() == 4 ==> Nexthops.DecodeNexthop(family, n) == Ok(Nexthops.Blackhole)
    ensures n.Type() == 5 ==> Nexthops.DecodeNexthop(family, n) == Then(ParseU32(n.value), w => Nexthops.Oif(w))
    ensures n.Type() == 6 ==>
            Nexthops.DecodeNexthop(family, n) == Then(DecodeAddress(family, n.value), a => Nexthops.Gateway(a))
    ensures n.Type() == 7 ==> Nexthops.DecodeNexthop(family, n) == Then(ParseU16(n.value), w => Nexthops.EncapTypeIs(w))
    ensures n.Type() == 9 ==> Nexthops.DecodeNexthop(family, n) == Ok(Nexthops.Groups)
    ensures n.Type() == 10 ==> Nexthops.DecodeNexthop(family, n) == Then(ParseU32(n.value), w => Nexthops.Master(w))
    ensures n.Type() == 11 ==> Nexthops.DecodeNexthop(family, n) == Ok(Nexthops.Fdb)
    ensures n.Type() in {0, 8} || n.Type() > 11 ==> Nexthops.DecodeNexthop(family, n) == Ok(Nexthops.Other(n))
  {
    hide Get32, Get16, DecodeAddress, Nexthops.DecodeGroups;
  }

  /** An unknown multicast-database attribute is kept without the flag bits of its type. */
  lemma MdbTypes(n: Nla)
    ensures n.Type() == 1 ==> Bridging.DecodeMdb(n) == Ok(Bridging.MdbTable(n.value))
    ensures n.Type() == 2 ==> Bridging.DecodeMdb(n) == Ok(Bridging.Mroute(n.value))
    ensures n.Type() == 3 ==> Bridging.DecodeMdb(n) == Ok(Bridging.ExtAttrs(n.value))
    ensures n.Type() !in {1, 2, 3} ==> Bridging.DecodeMdb(n) == Ok(Bridging.MdbOther(Nla(n.Type(), n.value)))
  {
  }

  // ---- links ----

  lemma LinkForms(t: u16)
    ensures t in {1, 2, 54} ==> FormOf(t) == IsOctets
    ensures t in {3, 6, 20, 38} ==> FormOf(t) == IsText
    ensures t in {16, 17, 33, 39} ==> FormOf(t) == IsByte
    ensures t in {4, 5, 10, 13, 19, 21, 27, 28, 30, 31, 32, 35, 37, 40, 41, 45, 46, 47, 48, 49, 50, 51} ==> FormOf(t) == IsWord
    ensures t in {7, 11, 12, 14, 22, 23, 24, 25, 34, 36, 43, 44} ==> FormOf(t) == IsKept
    ensures t in {0, 8, 9, 15, 42, 53} || t > 55 ==> FormOf(t) == IsOther
  {
  }

  /** Link attributes that hold octets, text, one octet or one word, by type. */
  lemma LinkScalarTypes(n: Nla, family: AddressFamily)
    ensures n.Type() in {1, 2, 54} ==> DecodeLinkLeaf(n, family) == Ok(LinkAttributes.Octets(n.Type(), n.value))
    ensures n.Type() in {3, 6, 20, 38} ==> DecodeLinkLeaf(n, family) == Ok(Text(n.Type(), ParseString(n.value)))
    ensures n.Type() in {16, 17, 33, 39} ==> DecodeLinkLeaf(n, family) == Then(ParseU8(n.value), v => Byte(n.Type(), v))
    ensures n.Type() in {4, 5, 10, 13, 19, 21, 27, 28, 30, 31, 32, 35, 37, 40, 41, 45, 46, 47, 48, 49, 50, 51} ==>
            DecodeLinkLeaf(n, family) == Then(ParseU32(n.value), w => Word(n.Type(), w))
    ensures n.Type() in {7, 11, 12, 14, 22, 23, 24, 25, 34, 36, 43, 44} ==> DecodeLinkLeaf(n, family) == Ok(Kept(n))
  {
    LinkForms(n.Type());
    hide Get32, ParseString, DecodeList, Split, FormOf;
  }

  /** Link attributes that hold lists, and the extension mask, by type and family. */
  lemma LinkListTypes(n: Nla, family: AddressFamily)
    ensures n.Type() == 52 ==> DecodeLinkLeaf(n, family) == Then(DecodeList(n.value, DecodeProp), ps => PropList(ps))
    ensures n.Type() == 55 ==>
            DecodeLinkLeaf(n, family) == Then(DecodeList(n.value, DecodeReason), rs => ProtoDownReason(rs))
    ensures n.Type() == 26 && family == Unspec ==>
            DecodeLinkLeaf(n, family) == Then(DecodeList(n.value, DecodeKept), bs => AfSpecUnspec(bs))
    ensures n.Type() == 26 && family == Bridge ==>
            DecodeLinkLeaf(n, family) == Then(DecodeList(n.value, DecodeSpec), ss => AfSpecIsBridge(ss))
    ensures n.Type() == 26 && family !in {Unspec, Bridge} ==> DecodeLinkLeaf(n, family) == Ok(AfSpecUnknown(n.value))
    ensures n.Type() == 29 ==> DecodeLinkLeaf(n, family) == Then(ParseU32(n.value), d => ExtMasks(Split(d)))
    ensures n.Type() in {0, 8, 9, 15, 42, 53} || n.Type() > 55 ==>
            DecodeLinkLeaf(n, family) == Ok(LinkAttributes.Other(n))
  {
    LinkForms(n.Type());
    hide Get32, ParseString, DecodeList, Split, FormOf;
  }

  /** Type 18 holds infos, and their types say what they are in a state of the machine. */
  lemma LinkInfoTypes(n: Nla, family: AddressFamily, st: Links.InfoState)
    ensures n.Type() == 18 ==>
            Links.DecodeAttribute(n, family) ==
            Then(Links.DecodeInfos(Scan(n.value).nlas, Scan(n.value).clean, Links.START), xs => Links.LinkInfos(xs))
    ensures n.Type() != 18 ==> Links.DecodeAttribute(n, family) == Then(DecodeLinkLeaf(n, family), l => Links.Plain(l))
    ensures n.Type() == 1 ==> Links.DecodeInfo(n, st) == Ok(Links.Kind(ParseString(n.value)))
    ensures n.Type() == 2 && st.kind.None? ==> Links.DecodeInfo(n, st) == Err
    ensures n.Type() == 2 && st.kind.Some? ==>
            Links.DecodeInfo(n, st) == Then(Links.DecodeData(n.value, st.kind.value), d => Links.Data(d))
    ensures n.Type() == 3 ==> Links.DecodeInfo(n, st) == if st.kind.None? then Err else Ok(Links.Xstats(n.value))
    ensures n.Type() == 4 ==> Links.DecodeInfo(n, st) == Ok(Links.PortKind(ParseString(n.value)))
    ensures n.Type() == 5 && st.port.None? ==> Links.DecodeInfo(n, st) == Err
    ensures n.Type() == 5 && st.port.Some? ==>
            Links.DecodeInfo(n, st) == Then(DecodePortData(n.value, st.port.value), d => Links.PortData(d))
    ensures n.Type() == 0 || n.Type() > 5 ==> Links.DecodeInfo(n, st) == Ok(Links.InfoOther(n))
    ensures Links.START == Links.InfoState(None, None)
  {
    hide ParseString, DecodePortData, DecodeLinkLeaf, Links.DecodeData, Scan, Links.DecodeInfos;
  }

  lemma LinkElementTypes(n: Nla)
    ensures n.Type() == 53 ==> DecodeProp(n) == Ok(AltIfName(ParseString(n.value)))
    ensures n.Type() != 53 ==> DecodeProp(n) == Ok(PropOther(n))
    ensures n.Type() == 1 ==> DecodeReason(n) == Then(ParseU32(n.value), w => ReasonMask(w))
    ensures n.Type() == 2 ==> DecodeReason(n) == Then(ParseU32(n.value), w => ReasonValue(w))
    ensures n.Type() !in {1, 2} ==> DecodeReason(n) == Ok(ReasonOther(n))
    ensures n.Type() == 0 ==> DecodeSpec(n) == Then(ParseU16(n.value), w => BridgeFlags(w))
    ensures n.Type() == 2 ==>
            DecodeSpec(n) == if |n.value| == 4 then Ok(VlanInfo(Get16(n.value[0..2]), Get16(n.value[2..4]))) else Err
    ensures n.Type() !in {0, 2} ==> DecodeSpec(n) == Ok(SpecOther(n))
    ensures n.Type() == 1 ==> DecodeVrf(n) == Then(ParseU32(n.value), w => TableId(w))
    ensures n.Type() != 1 ==> DecodeVrf(n) == Ok(VrfOther(n))
  {
    hide Get32, Get16, ParseString;
  }

  // ---- traffic control ----

  /** Statistics of an action or attribute: records may be followed by anything, a short one
      panics. */
  lemma StatsTypes(n: Nla, kind: Bytes)
    ensures n.Type() == 1 ==> DecodeStats2(n, kind) == if |n.value| < 12 then Panic else Ok(Basic(GetWords(n.value, 3)))
    ensures n.Type() == 7 ==> DecodeStats2(n, kind) == if |n.value| < 12 then Panic else Ok(BasicHw(GetWords(n.value, 3)))
    ensures n.Type() == 3 ==> DecodeStats2(n, kind) == if |n.value| < 20 then Panic else Ok(Queue(GetWords(n.value, 5)))
    ensures n.Type() == 4 ==> DecodeStats2(n, kind) == Then(DecodeXstats(n.value, kind), x => App(x))
    ensures n.Type() !in {1, 3, 4, 7} ==> DecodeStats2(n, kind) == Ok(StatsOther(n))
  {
    hide GetWords, DecodeXstats;
  }

  lemma ActionTypes(n: Nla, kind: Bytes)
    ensures n.Type() == 1 ==> DecodeActionAttribute(n, kind) == Ok(ActKind(ParseString(n.value)))
    ensures n.Type() == 2 ==>
            DecodeActionAttribute(n, kind) ==
            Then(DecodeList(n.value, ActionOptionDecoder(EngineOf(kind))), os => ActOptions(os))
    ensures n.Type() == 3 ==> DecodeActionAttribute(n, kind) == Then(ParseU32(n.value), w => ActIndex(w))
    ensures n.Type() == 4 ==>
            DecodeActionAttribute(n, kind) == Then(DecodeList(n.value, Stats2Decoder(kind)), ss => ActStats(ss))
    ensures n.Type() == 6 ==> DecodeActionAttribute(n, kind) == Ok(ActCookie(n.value))
    ensures n.Type() == 10 ==> DecodeActionAttribute(n, kind) == Then(ParseU32(n.value), w => ActInHwCount(w))
    ensures n.Type() !in {1, 2, 3, 4, 6, 10} ==> DecodeActionAttribute(n, kind) == Ok(ActOther(n))
  {
    hide Get32, ParseString, DecodeList, EngineOf;
  }

  lemma TcTypes(n: Nla, kind: Bytes)
    ensures n.Type() == 1 ==> Tc.DecodeAttribute(n, kind) == Ok(Tc.Kind(ParseString(n.value)))
    ensures n.Type() == 3 ==>
            Tc.DecodeAttribute(n, kind) == if |n.value| < 40 then Err else Ok(Tc.Stats(GetWords(n.value, 9)))
    ensures n.Type() == 4 ==> Tc.DecodeAttribute(n, kind) == Then(DecodeXstats(n.value, kind), x => Tc.Xstats(x))
    ensures n.Type() in {5, 6, 8} ==> Tc.DecodeAttribute(n, kind) == Ok(Tc.Plain(n.Type(), n.value))
    ensures n.Type() == 7 ==>
            Tc.DecodeAttribute(n, kind) == Then(DecodeList(n.value, Stats2Decoder(kind)), ss => Tc.Stats2(ss))
    ensures n.Type() == 10 ==> Tc.DecodeAttribute(n, kind) == Ok(Tc.DumpInvisible(true))
    ensures n.Type() == 11 ==> Tc.DecodeAttribute(n, kind) == Then(ParseU32(n.value), w => Tc.Chain(w))
    ensures n.Type() == 12 ==> Tc.DecodeAttribute(n, kind) == Then(ParseU8(n.value), b => Tc.HwOffload(b))
    ensures n.Type() in {0, 9} || n.Type() > 12 ==> Tc.DecodeAttribute(n, kind) == Ok(Tc.Other(n))
  {
    hide Get32, ParseString, DecodeList, DecodeXstats, GetWords, Tc.DecodeOptions, Tc.OwnerOf;
  }

  // ---- what is emitted besides the fields ----

  /** The nested flag is set on property lists, counters, flavors, action options and nexthop
      encapsulations. */
  lemma NestedKinds(ps: seq<Prop>, cs: seq<Counter>, fs: seq<Flavor>, os: seq<TcActionOption>, es: seq<TunnelEncap>)
    ensures RawLinkLeaf(PropList(ps)).kind == 0x8034
    ensures RawLocal(Counters(cs)).kind == 0x800A && RawLocal(Flavors(fs)).kind == 0x800B
    ensures RawActionAttribute(ActOptions(os)).kind == 0x8002
    ensures Nexthops.RawNexthop(Nexthops.Encaps(es)).kind == 0x8008
  {
    hide EncodeNlas, EncodeEncaps;
  }

  /** No other attribute that fits has a flag in its kind, unless it is kept as it was framed. */
  lemma PlainKinds(l: Routes.RouteLeaf, k: LinkLeaf, family: AddressFamily, a: Tc.TcAttribute, kind: Bytes, x: TcActionAttribute,
                   i: Links.LinkInfo, h: Nexthops.NexthopAttribute, e: Seg6Local)
    requires k.Fits(family) && a.Fits(kind)
    ensures !l.Other? ==> Routes.LeafKind(l) < 0x4000
    ensures !k.PropList? && !k.Kept? && !k.Other? ==> RawLinkLeaf(k).kind < 0x4000
    ensures !a.Other? ==> Tc.RawAttribute(a).kind < 0x4000
    ensures !x.ActOptions? && !x.ActOther? ==> RawActionAttribute(x).kind < 0x4000
    ensures !i.InfoOther? ==> Links.RawInfo(i).kind < 0x4000
    ensures !h.Encaps? && !h.Other? ==> Nexthops.RawNexthop(h).kind < 0x4000
    ensures !e.Counters? && !e.Flavors? && !e.LocalOther? ==> RawLocal(e).kind < 0x4000
  {
    hide EncodeNlas, EncodeEncaps, EncodeSrh, Put32, Put16, PutWords, PutString, EncodeStats2List, Links.EncodeData,
      EncodePortData, Tc.EncodeOptions, EncodeXstats, EncodeAddress, Nexthops.EncodeGroups, Tc.OptionsFit, FormOf,
      Stats2ListFits, TcXstats.Fits, Sum, Canonical;
  }

  /** Padding and reserved octets are zero. */
  lemma ReservedOctets(n: Nla, l: Links.LinkHeader, t: Tc.TcHeader, m: Bridging.MdbMessage, s: Selectors.TcU32Selector,
                       u: Tunnels.TunnelMessage)
    ensures EncodeNla(n)[4 + |n.value|..] == Zeros(Pad(|n.value|))
    ensures Links.EncodeHeader(l)[1] == 0
    ensures Tc.EncodeHeader(t)[1] == 0 && Tc.EncodeHeader(t)[2] == 0 && Tc.EncodeHeader(t)[3] == 0
    ensures Bridging.MdbFixedPart(m)[1] == 0 && Bridging.MdbFixedPart(m)[2] == 0 && Bridging.MdbFixedPart(m)[3] == 0
    ensures Selectors.EncodeFixed(s)[3] == 0
    ensures Tunnels.TunnelFixedPart(u)[2] == 0 && Tunnels.TunnelFixedPart(u)[3] == 0
  {
    hide Put16, Put32, PutWords;
  }

  /** The records that leave octets unwritten leave them zero. */
  lemma RecordTails(w: Words3, x: Words9)
    ensures RawStats2(Basic(w)).value == PutWords(w) + [0, 0, 0, 0]
    ensures RawStats2(BasicHw(w)).value == PutWords(w) + [0, 0, 0, 0]
    ensures Tc.RawAttribute(Tc.Stats(x)).value == PutWords(x) + [0, 0, 0, 0]
  {
    hide PutWords;
  }
}
