/**
 The link attributes that do not recurse: src/link/attribute.rs, prop_list.rs,
 down_reason.rs, af_spec/bridge.rs, link_info/vrf.rs, link_info/info_port.rs.
 */
module LinkAttributes {
  import opened Wire
  import opened Framing
  import opened Families
  import opened ExtMask

  // ---- nested lists of known and unknown attributes ----

  datatype Prop = AltIfName(name: Bytes) | PropOther(nla: Nla) {
    predicate Valid() {
      PropOther? ==> nla.Type() != 53
    }
  }

  function RawProp(p: Prop): Nla {
    match p
    case AltIfName(s) => Nla(53, PutString(s))
    case PropOther(n) => n
  }

  function DecodeProp(n: Nla): Result<Prop> {
    if n.Type() == 53 then Ok(AltIfName(ParseString(n.value))) else Ok(PropOther(n))
  }

  datatype DownReason = ReasonMask(v: u32) | ReasonValue(v: u32) | ReasonOther(nla: Nla) {
    predicate Valid() {
      ReasonOther? ==> nla.Type() !in {1, 2}
    }
  }

  function RawReason(r: DownReason): Nla {
    match r
    case ReasonMask(v) => Nla(1, Put32(v))
    case ReasonValue(v) => Nla(2, Put32(v))
    case ReasonOther(n) => n
  }

  function DecodeReason(n: Nla): Result<DownReason> {
    match n.Type()
    case 1 =>
      var v :- ParseU32(n.value);
      Ok(ReasonMask(v))
    case 2 =>
      var v :- ParseU32(n.value);
      Ok(ReasonValue(v))
    case _ => Ok(ReasonOther(n))
  }

  datatype AfSpecBridge = BridgeFlags(flags: u16) | VlanInfo(flags: u16, vid: u16) | SpecOther(nla: Nla) {
    predicate Valid() {
      SpecOther? ==> nla.Type() !in {0, 2}
    }
  }

  function RawSpec(s: AfSpecBridge): Nla {
    match s
    case BridgeFlags(f) => Nla(0, Put16(f))
    case VlanInfo(f, v) => Nla(2, Put16(f) + Put16(v))
    case SpecOther(n) => n
  }

  function DecodeSpec(n: Nla): Result<AfSpecBridge> {
    match n.Type()
    case 0 =>
      var f :- ParseU16(n.value);
      Ok(BridgeFlags(f))
    case 2 => if |n.value| == 4 then Ok(VlanInfo(Get16(n.value[0..2]), Get16(n.value[2..4]))) else Err
    case _ => Ok(SpecOther(n))
  }

  datatype InfoVrf = TableId(v: u32) | VrfOther(nla: Nla) {
    predicate Valid() {
      VrfOther? ==> nla.Type() != 1
    }
  }

  function RawVrf(x: InfoVrf): Nla {
    match x
    case TableId(v) => Nla(1, Put32(v))
    case VrfOther(n) => n
  }

  function DecodeVrf(n: Nla): Result<InfoVrf> {
    if n.Type() == 1 then
      var v :- ParseU32(n.value);
      Ok(TableId(v))
    else Ok(VrfOther(n))
  }

  /** Attributes whose contents are kept as they are framed. */
  function KeepNla(n: Nla): Nla {
    n
  }

  function DecodeKept(n: Nla): Result<Nla> {
    Ok(n)
  }

  lemma ElementsRoundTrip(p: Prop, r: DownReason, s: AfSpecBridge, x: InfoVrf)
    ensures DecodeProp(RawProp(p)) == Ok(p) <==> p.Valid()
    ensures DecodeReason(RawReason(r)) == Ok(r) <==> r.Valid()
    ensures DecodeSpec(RawSpec(s)) == Ok(s) <==> s.Valid()
    ensures DecodeVrf(RawVrf(x)) == Ok(x) <==> x.Valid()
  {
    hide Put32, Get32, Put16, Get16;
    if s.VlanInfo? {
      var b := RawSpec(s).value;
      assert b[0..2] == Put16(s.flags) && b[2..4] == Put16(s.vid);
    }
  }

  // ---- IFLA_INFO_PORT_DATA: the port kind decides the form ----

  const BOND: Bytes := Ascii("bond")
  const BRIDGE: Bytes := Ascii("bridge")
  const VRF: Bytes := Ascii("vrf")

  /** The elements of bond and bridge ports are kept as attributes. */
  datatype InfoPortData = BondPort(nlas: seq<Nla>) | BridgePort(nlas: seq<Nla>) | VrfPort(vrfs: seq<InfoVrf>) | RawPort(octets: Bytes) {
    predicate FitsPortKind(kind: Bytes) {
      if kind == BOND then BondPort?
      else if kind == BRIDGE then BridgePort?
      else if kind == VRF then VrfPort? && forall i :: 0 <= i < |vrfs| ==> vrfs[i].Valid()
      else RawPort?
    }
  }

  function EncodePortData(d: InfoPortData): Bytes {
    match d
    case BondPort(ns) => EncodeNlas(Map(ns, KeepNla))
    case BridgePort(ns) => EncodeNlas(Map(ns, KeepNla))
    case VrfPort(vs) => EncodeNlas(Map(vs, RawVrf))
    case RawPort(b) => b
  }

  function DecodePortData(b: Bytes, kind: Bytes): Result<InfoPortData> {
    if kind == BOND then
      var ns :- DecodeList(b, DecodeKept);
      Ok(BondPort(ns))
    else if kind == BRIDGE then
      var ns :- DecodeList(b, DecodeKept);
      Ok(BridgePort(ns))
    else if kind == VRF then
      var vs :- DecodeList(b, DecodeVrf);
      Ok(VrfPort(vs))
    else Ok(RawPort(b))
  }

  lemma KeptRoundTrip(ns: seq<Nla>)
    requires |EncodeNlas(Map(ns, KeepNla))| <= 0xFFFF
    ensures DecodeList(EncodeNlas(Map(ns, KeepNla)), DecodeKept) == Ok(ns)
  {
    MembersFit(Map(ns, KeepNla));
    ListExact(ns, KeepNla, DecodeKept);
  }

  lemma VrfsRoundTrip(vs: seq<InfoVrf>)
    requires |EncodeNlas(Map(vs, RawVrf))| <= 0xFFFF
    requires forall i :: 0 <= i < |vs| ==> vs[i].Valid()
    ensures DecodeList(EncodeNlas(Map(vs, RawVrf)), DecodeVrf) == Ok(vs)
  {
    MembersFit(Map(vs, RawVrf));
    forall i | 0 <= i < |vs| ensures DecodeVrf(RawVrf(vs[i])) == Ok(vs[i]) {
      ElementsRoundTrip(AltIfName([]), ReasonMask(0), BridgeFlags(0), vs[i]);
    }
    hide DecodeVrf, RawVrf;
    ListExact(vs, RawVrf, DecodeVrf);
  }

  lemma VrfsSound(b: Bytes)
    requires DecodeList(b, DecodeVrf).Ok?
    ensures forall i :: 0 <= i < |DecodeList(b, DecodeVrf).value| ==> DecodeList(b, DecodeVrf).value[i].Valid()
  {
    ListSound(b, DecodeVrf, (x: InfoVrf) => x.Valid());
  }

  lemma PortDataRoundTrip(d: InfoPortData, kind: Bytes)
    requires d.FitsPortKind(kind) && |EncodePortData(d)| <= 0xFFFF
    ensures DecodePortData(EncodePortData(d), kind) == Ok(d)
  {
    hide EncodeNlas, DecodeList;
    match d
    case BondPort(ns) => KeptRoundTrip(ns);
    case BridgePort(ns) => KeptRoundTrip(ns);
    case VrfPort(vs) => VrfsRoundTrip(vs);
    case RawPort(_) =>
  }

  lemma PortDataSound(b: Bytes, kind: Bytes)
    requires DecodePortData(b, kind).Ok?
    ensures DecodePortData(b, kind).value.FitsPortKind(kind)
  {
    hide DecodeList;
    if kind != BOND && kind != BRIDGE && kind == VRF {
      VrfsSound(b);
    }
  }

  // ---- the attributes ----

  const OCTET_TYPES: set<u16> := {1, 2, 54}
  const TEXT_TYPES: set<u16> := {3, 6, 20, 38}
  const BYTE_TYPES: set<u16> := {16, 17, 33, 39}
  const WORD_TYPES: set<u16> := {4, 5, 10, 13, 19, 21, 27, 28, 30, 31, 32, 35, 37, 40, 41, 45, 46, 47, 48, 49, 50, 51}
  /** Attributes whose own codecs are not modelled; they are kept as framed. */
  const KEPT_TYPES: set<u16> := {7, 11, 12, 14, 22, 23, 24, 25, 34, 36, 43, 44}
  const IFLA_LINKINFO: u16 := 18

  /** The arms of the decoder, by how they read the value. */
  datatype Form = IsNested | IsOctets | IsText | IsByte | IsWord | IsKept | IsOther

  function FormOf(t: u16): (form: Form)
    ensures form.IsOther? || t < 0x40
    ensures form.IsNested? <==> t in {18, 26, 29, 52, 55}
  {
    if t in {18, 26, 29, 52, 55} then IsNested
    else if t in OCTET_TYPES then IsOctets
    else if t in TEXT_TYPES then IsText
    else if t in BYTE_TYPES then IsByte
    else if t in WORD_TYPES then IsWord
    else if t in KEPT_TYPES then IsKept
    else IsOther
  }

  /** One constructor per wire form; `code` tells the attributes of that form apart. A
      signed word is kept as its bit pattern. */
  datatype LinkLeaf =
    | PropList(props: seq<Prop>)
    | ProtoDownReason(reasons: seq<DownReason>)
    | AfSpecUnspec(blocks: seq<Nla>)
    | AfSpecIsBridge(specs: seq<AfSpecBridge>)
    | AfSpecUnknown(octets: Bytes)
    | ExtMasks(masks: seq<ExtentMask>)
    | Octets(code: u16, octets: Bytes)
    | Text(code: u16, octets: Bytes)
    | Byte(code: u16, value: u8)
    | Word(code: u16, word: u32)
    | Kept(nla: Nla)
    | Other(nla: Nla)
  {
    predicate Fits(family: AddressFamily) {
      match this
      case PropList(ps) => forall i :: 0 <= i < |ps| ==> ps[i].Valid()
      case ProtoDownReason(rs) => forall i :: 0 <= i < |rs| ==> rs[i].Valid()
      case AfSpecUnspec(_) => family.Unspec?
      case AfSpecIsBridge(ss) => family.Bridge? && forall i :: 0 <= i < |ss| ==> ss[i].Valid()
      case AfSpecUnknown(_) => !family.Unspec? && !family.Bridge?
      case ExtMasks(l) => Canonical(l, 0)
      case Octets(c, _) => FormOf(c).IsOctets?
      case Text(c, _) => FormOf(c).IsText?
      case Byte(c, _) => FormOf(c).IsByte?
      case Word(c, _) => FormOf(c).IsWord?
      case Kept(n) => FormOf(n.Type()).IsKept?
      case Other(n) => FormOf(n.Type()).IsOther?
    }
  }

  function RawLinkLeaf(l: LinkLeaf): Nla {
    match l
    case PropList(ps) => Nla(52 + NLA_F_NESTED, EncodeNlas(Map(ps, RawProp)))
    case ProtoDownReason(rs) => Nla(55, EncodeNlas(Map(rs, RawReason)))
    case AfSpecUnspec(bs) => Nla(26, EncodeNlas(Map(bs, KeepNla)))
    case AfSpecIsBridge(ss) => Nla(26, EncodeNlas(Map(ss, RawSpec)))
    case AfSpecUnknown(b) => Nla(26, b)
    case ExtMasks(ms) => Nla(29, Put32(Sum(ms)))
    case Octets(c, b) => Nla(c, b)
    case Text(c, b) => Nla(c, PutString(b))
    case Byte(c, v) => Nla(c, [v])
    case Word(c, v) => Nla(c, Put32(v))
    case Kept(n) => n
    case Other(n) => n
  }

  function DecodeLinkLeaf(n: Nla, family: AddressFamily): Result<LinkLeaf> {
    var t := n.Type();
    if t == 52 then
      var ps :- DecodeList(n.value, DecodeProp);
      Ok(PropList(ps))
    else if t == 55 then
      var rs :- DecodeList(n.value, DecodeReason);
      Ok(ProtoDownReason(rs))
    else if t == 26 then
      if family.Unspec? then
        var bs :- DecodeList(n.value, DecodeKept);
        Ok(AfSpecUnspec(bs))
      else if family.Bridge? then
        var ss :- DecodeList(n.value, DecodeSpec);
        Ok(AfSpecIsBridge(ss))
      else Ok(AfSpecUnknown(n.value))
    else if t == 29 then
      var d :- ParseU32(n.value);
      Ok(ExtMasks(Split(d)))
    else match FormOf(t)
      case IsOctets => Ok(Octets(t, n.value))
      case IsText => Ok(Text(t, ParseString(n.value)))
      case IsByte =>
        var v :- ParseU8(n.value);
        Ok(Byte(t, v))
      case IsWord =>
        var v :- ParseU32(n.value);
        Ok(Word(t, v))
      case IsKept => Ok(Kept(n))
      case _ => Ok(Other(n))
  }

  lemma PropsRoundTrip(ps: seq<Prop>)
    requires |EncodeNlas(Map(ps, RawProp))| <= 0xFFFF
    requires forall i :: 0 <= i < |ps| ==> ps[i].Valid()
    ensures DecodeList(EncodeNlas(Map(ps, RawProp)), DecodeProp) == Ok(ps)
  {
    MembersFit(Map(ps, RawProp));
    forall i | 0 <= i < |ps| ensures DecodeProp(RawProp(ps[i])) == Ok(ps[i]) {
      ElementsRoundTrip(ps[i], ReasonMask(0), BridgeFlags(0), TableId(0));
    }
    hide DecodeProp, RawProp;
    ListExact(ps, RawProp, DecodeProp);
  }

  lemma ReasonsRoundTrip(rs: seq<DownReason>)
    requires |EncodeNlas(Map(rs, RawReason))| <= 0xFFFF
    requires forall i :: 0 <= i < |rs| ==> rs[i].Valid()
    ensures DecodeList(EncodeNlas(Map(rs, RawReason)), DecodeReason) == Ok(rs)
  {
    MembersFit(Map(rs, RawReason));
    forall i | 0 <= i < |rs| ensures DecodeReason(RawReason(rs[i])) == Ok(rs[i]) {
      ElementsRoundTrip(AltIfName([]), rs[i], BridgeFlags(0), TableId(0));
    }
    hide DecodeReason, RawReason;
    ListExact(rs, RawReason, DecodeReason);
  }

  lemma SpecsRoundTrip(ss: seq<AfSpecBridge>)
    requires |EncodeNlas(Map(ss, RawSpec))| <= 0xFFFF
    requires forall i :: 0 <= i < |ss| ==> ss[i].Valid()
    ensures DecodeList(EncodeNlas(Map(ss, RawSpec)), DecodeSpec) == Ok(ss)
  {
    MembersFit(Map(ss, RawSpec));
    forall i | 0 <= i < |ss| ensures DecodeSpec(RawSpec(ss[i])) == Ok(ss[i]) {
      ElementsRoundTrip(AltIfName([]), ReasonMask(0), ss[i], TableId(0));
    }
    hide DecodeSpec, RawSpec;
    ListExact(ss, RawSpec, DecodeSpec);
  }

  lemma NestedLeafRoundTrip(l: LinkLeaf, family: AddressFamily)
    requires l.PropList? || l.ProtoDownReason? || l.AfSpecUnspec? || l.AfSpecIsBridge?
    requires l.Fits(family) && RawLinkLeaf(l).Fits()
    ensures DecodeLinkLeaf(RawLinkLeaf(l), family) == Ok(l)
  {
    hide DecodeProp, RawProp, DecodeReason, RawReason, DecodeSpec, RawSpec, EncodeNlas, DecodeList, FormOf;
    match l
    case PropList(ps) => PropsRoundTrip(ps);
    case ProtoDownReason(rs) => ReasonsRoundTrip(rs);
    case AfSpecUnspec(bs) => KeptRoundTrip(bs);
    case AfSpecIsBridge(ss) => SpecsRoundTrip(ss);
  }

  lemma PlainLeafRoundTrip(l: LinkLeaf, family: AddressFamily)
    requires !(l.PropList? || l.ProtoDownReason? || l.AfSpecUnspec? || l.AfSpecIsBridge?)
    requires l.Fits(family)
    ensures DecodeLinkLeaf(RawLinkLeaf(l), family) == Ok(l)
  {
    hide Put32, Get32, PutString, ParseString, Split, Sum, Canonical, FormOf, EncodeNlas, DecodeList;
    if l.ExtMasks? {
      SplitOfSum(l.masks);
    }
  }

  lemma LinkLeafRoundTrip(l: LinkLeaf, family: AddressFamily)
    requires l.Fits(family) && RawLinkLeaf(l).Fits()
    ensures DecodeLinkLeaf(RawLinkLeaf(l), family) == Ok(l)
    ensures RawLinkLeaf(l).Type() != IFLA_LINKINFO
  {
    hide EncodeNlas, DecodeList, FormOf, DecodeLinkLeaf;
    if l.PropList? || l.ProtoDownReason? || l.AfSpecUnspec? || l.AfSpecIsBridge? {
      NestedLeafRoundTrip(l, family);
    } else {
      PlainLeafRoundTrip(l, family);
    }
  }

  lemma LinkLeafSound(n: Nla, family: AddressFamily)
    requires n.Type() != IFLA_LINKINFO && DecodeLinkLeaf(n, family).Ok?
    ensures DecodeLinkLeaf(n, family).value.Fits(family)
  {
    hide DecodeList, Split, ParseString, Canonical, FormOf;
    if n.Type() == 52 {
      ListSound(n.value, DecodeProp, (p: Prop) => p.Valid());
    } else if n.Type() == 55 {
      ListSound(n.value, DecodeReason, (r: DownReason) => r.Valid());
    } else if n.Type() == 26 {
      if family.Bridge? {
        ListSound(n.value, DecodeSpec, (s: AfSpecBridge) => s.Valid());
      }
    } else if n.Type() == 29 && |n.value| == 4 {
      SplitCanonical(Get32(n.value));
    }
  }
}
