/**
 Emitting a link in place: `value_len` and `buffer_len` through the veth recursion, and the
 running offsets that write every level straight into one buffer.
 */
module LinkEmit {
  import opened Wire
  import opened Framing
  import opened Families
  import opened ExtMask
  import opened LinkAttributes
  import opened Link

  // ---- value_len and buffer_len ----

  function LeafLen(l: LinkLeaf): nat {
    match l
    case PropList(ps) => NlasLen(Map(ps, RawProp))
    case ProtoDownReason(rs) => NlasLen(Map(rs, RawReason))
    case AfSpecUnspec(bs) => NlasLen(Map(bs, KeepNla))
    case AfSpecIsBridge(ss) => NlasLen(Map(ss, RawSpec))
    case AfSpecUnknown(b) => |b|
    case ExtMasks(_) => 4
    case Octets(_, b) => |b|
    case Text(_, s) => |s| + 1
    case Byte(_, _) => 1
    case Word(_, _) => 4
    case Kept(n) => |n.value|
    case Other(n) => |n.value|
  }

  function PortLen(d: InfoPortData): nat {
    match d
    case BondPort(ns) => NlasLen(Map(ns, KeepNla))
    case BridgePort(ns) => NlasLen(Map(ns, KeepNla))
    case VrfPort(vs) => NlasLen(Map(vs, RawVrf))
    case RawPort(b) => |b|
  }

  function LinkLen(m: LinkMessage): nat
    decreases m
  {
    LINK_HEADER_LEN + AttributesLen(m.attributes)
  }

  function AttributesLen(xs: seq<LinkAttribute>): nat
    decreases xs
  {
    if xs == [] then 0 else PaddedLen(AttributeLen(xs[0])) + AttributesLen(xs[1..])
  }

  function AttributeLen(a: LinkAttribute): nat
    decreases a
  {
    match a
    case LinkInfos(infos) => InfosLen(infos)
    case Plain(l) => LeafLen(l)
  }

  function InfosLen(infos: seq<LinkInfo>): nat
    decreases infos
  {
    if infos == [] then 0 else PaddedLen(InfoLen(infos[0])) + InfosLen(infos[1..])
  }

  function InfoLen(i: LinkInfo): nat
    decreases i
  {
    match i
    case Kind(s) => |s| + 1
    case Data(d) => DataLen(d)
    case Xstats(b) => |b|
    case PortKind(s) => |s| + 1
    case PortData(d) => PortLen(d)
    case InfoOther(n) => |n.value|
  }

  function DataLen(d: InfoData): nat
    decreases d
  {
    match d
    case VethData(v) => PaddedLen(VethLen(v))
    case VrfData(vs) => NlasLen(Map(vs, RawVrf))
    case ListData(_, ns) => NlasLen(Map(ns, KeepNla))
    case RawData(b) => |b|
  }

  function VethLen(v: InfoVeth): nat
    decreases v
  {
    match v
    case Peer(m) => LinkLen(m)
    case VethOther(n) => |n.value|
  }

  // ---- the announced sizes are the emitted sizes ----

  lemma LeafLenIs(l: LinkLeaf)
    ensures |RawLinkLeaf(l).value| == LeafLen(l)
  {
    hide EncodeNlas, NlasLen;
    match l
    case PropList(ps) => NlasLenIs(Map(ps, RawProp));
    case ProtoDownReason(rs) => NlasLenIs(Map(rs, RawReason));
    case AfSpecUnspec(bs) => NlasLenIs(Map(bs, KeepNla));
    case AfSpecIsBridge(ss) => NlasLenIs(Map(ss, RawSpec));
    case _ =>
  }

  lemma PortLenIs(d: InfoPortData)
    ensures |EncodePortData(d)| == PortLen(d)
  {
    hide EncodeNlas, NlasLen;
    match d
    case BondPort(ns) => NlasLenIs(Map(ns, KeepNla));
    case BridgePort(ns) => NlasLenIs(Map(ns, KeepNla));
    case VrfPort(vs) => NlasLenIs(Map(vs, RawVrf));
    case RawPort(_) =>
  }

  /** At every level of peers, `buffer_len` is the number of octets that are emitted. */
  lemma {:induction false} LinkLenIs(m: LinkMessage)
    ensures |EncodeLink(m)| == LinkLen(m)
    decreases m
  {
    AttributesLenIs(m.attributes);
  }

  lemma {:induction false} AttributesLenIs(xs: seq<LinkAttribute>)
    ensures |EncodeNlas(RawAttributes(xs))| == AttributesLen(xs)
    decreases xs
  {
    hide RawAttribute, AttributeLen;
    if xs != [] {
      AttributeLenIs(xs[0]);
      AttributesLenIs(xs[1..]);
      assert RawAttributes(xs)[1..] == RawAttributes(xs[1..]);
    }
  }

  lemma {:induction false} AttributeLenIs(a: LinkAttribute)
    ensures |RawAttribute(a).value| == AttributeLen(a)
    decreases a
  {
    hide EncodeNlas, RawLinkLeaf, LeafLen;
    match a
    case LinkInfos(infos) => InfosLenIs(infos);
    case Plain(l) => LeafLenIs(l);
  }

  lemma {:induction false} InfosLenIs(infos: seq<LinkInfo>)
    ensures |EncodeNlas(RawInfos(infos))| == InfosLen(infos)
    decreases infos
  {
    hide RawInfo, InfoLen;
    if infos != [] {
      InfoLenIs(infos[0]);
      InfosLenIs(infos[1..]);
      assert RawInfos(infos)[1..] == RawInfos(infos[1..]);
    }
  }

  lemma {:induction false} InfoLenIs(i: LinkInfo)
    ensures |RawInfo(i).value| == InfoLen(i)
    decreases i
  {
    hide EncodePortData, PortLen;
    match i
    case Data(d) => DataLenIs(d);
    case PortData(d) => PortLenIs(d);
    case _ =>
  }

  lemma {:induction false} DataLenIs(d: InfoData)
    ensures |EncodeData(d)| == DataLen(d)
    decreases d
  {
    hide EncodeNlas, NlasLen;
    match d
    case VethData(v) => VethLenIs(v);
    case VrfData(vs) => NlasLenIs(Map(vs, RawVrf));
    case ListData(_, ns) => NlasLenIs(Map(ns, KeepNla));
    case RawData(_) =>
  }

  lemma {:induction false} VethLenIs(v: InfoVeth)
    ensures |RawVeth(v).value| == VethLen(v)
    decreases v
  {
    hide EncodeLink, LinkLen;
    match v
    case Peer(m) => LinkLenIs(m);
    case VethOther(_) =>
  }

  // ---- writing in place ----

  /** Header, value and padding written one after the other are the framed attribute. */
  lemma FrameIsThreeWrites(s: Bytes, off: nat, n: Nla)
    requires off + |EncodeNla(n)| <= |s|
    ensures var k := |n.value|;
            Splice(Splice(Splice(s, off, Header(n.kind, k)), off + 4, n.value), off + 4 + k, Zeros(Pad(k))) ==
            Splice(s, off, EncodeNla(n))
  {
    var k := |n.value|;
    SpliceTwice(s, off, Header(n.kind, k), n.value);
    SpliceTwice(s, off, Header(n.kind, k) + n.value, Zeros(Pad(k)));
  }

  method EmitLink(buf: array<u8>, off: nat, m: LinkMessage)
    requires off + |EncodeLink(m)| <= buf.Length
    modifies buf
    ensures buf[..] == Splice(old(buf[..]), off, EncodeLink(m))
    decreases m, 0
  {
    ghost var s := buf[..];
    hide EncodeHeader, RawAttributes, EncodeNlas, Splice;
    CopyInto(buf, off, EncodeHeader(m.header));
    EmitAttributes(buf, off + LINK_HEADER_LEN, m.attributes);
    SpliceTwice(s, off, EncodeHeader(m.header), EncodeNlas(RawAttributes(m.attributes)));
  }

  lemma {:induction false} RawAttributesAt(xs: seq<LinkAttribute>, i: nat)
    requires i < |xs|
    ensures RawAttributes(xs)[i] == RawAttribute(xs[i])
  {
    hide RawAttribute;
    if i > 0 {
      RawAttributesAt(xs[1..], i - 1);
    }
  }

  lemma {:induction false} RawInfosAt(infos: seq<LinkInfo>, i: nat)
    requires i < |infos|
    ensures RawInfos(infos)[i] == RawInfo(infos[i])
  {
    hide RawInfo;
    if i > 0 {
      RawInfosAt(infos[1..], i - 1);
    }
  }

  /** `end = start + attr_len; attr.emit(&mut buffer[start..end]); start = end`. */
  method EmitAttributes(buf: array<u8>, off: nat, xs: seq<LinkAttribute>)
    requires off + |EncodeNlas(RawAttributes(xs))| <= buf.Length
    modifies buf
    ensures buf[..] == Splice(old(buf[..]), off, EncodeNlas(RawAttributes(xs)))
    decreases xs, 0
  {
    ghost var s := buf[..];
    ghost var nlas := RawAttributes(xs);
    var start := off;
    ghost var done: Bytes := [];
    SpliceNothing(s, off);
    assert EncodeNlas(nlas[..0]) == [] && nlas[..|nlas|] == nlas;
    hide EncodeNlas, EncodeNla, RawAttributes, RawAttribute, AttributeLen, PaddedLen, Splice;
    for i := 0 to |xs|
      invariant done == EncodeNlas(nlas[..i]) && start == off + |done| <= buf.Length
      invariant buf[..] == Splice(s, off, done)
    {
      ghost var e := EncodeNla(RawAttribute(xs[i]));
      RawAttributesAt(xs, i);
      EncodeStep(nlas, i);
      AttributeLenIs(xs[i]);
      var end := start + PaddedLen(AttributeLen(xs[i]));
      EmitAttribute(buf, start, xs[i]);
      SpliceTwice(s, off, done, e);
      done := done + e;
      start := end;
    }
  }

  method EmitAttribute(buf: array<u8>, off: nat, a: LinkAttribute)
    requires off + |EncodeNla(RawAttribute(a))| <= buf.Length
    modifies buf
    ensures buf[..] == Splice(old(buf[..]), off, EncodeNla(RawAttribute(a)))
    decreases a, 1
  {
    hide Splice, AttributeLen, RawAttribute, EncodeNla, Header, Zeros, Pad;
    ghost var s := buf[..];
    AttributeLenIs(a);
    FrameIsThreeWrites(s, off, RawAttribute(a));
    var n := AttributeLen(a);
    CopyInto(buf, off, Header(RawAttribute(a).kind, n));
    EmitValue(buf, off + 4, a);
    CopyInto(buf, off + 4 + n, Zeros(Pad(n)));
  }

  method EmitValue(buf: array<u8>, off: nat, a: LinkAttribute)
    requires off + |RawAttribute(a).value| <= buf.Length
    modifies buf
    ensures buf[..] == Splice(old(buf[..]), off, RawAttribute(a).value)
    decreases a, 0
  {
    hide Splice, EncodeNlas;
    match a {
      case LinkInfos(infos) => EmitInfos(buf, off, infos);
      case Plain(l) => CopyInto(buf, off, RawLinkLeaf(l).value);
    }
  }

  method EmitInfos(buf: array<u8>, off: nat, infos: seq<LinkInfo>)
    requires off + |EncodeNlas(RawInfos(infos))| <= buf.Length
    modifies buf
    ensures buf[..] == Splice(old(buf[..]), off, EncodeNlas(RawInfos(infos)))
    decreases infos, 0
  {
    ghost var s := buf[..];
    ghost var nlas := RawInfos(infos);
    var start := off;
    ghost var done: Bytes := [];
    SpliceNothing(s, off);
    assert EncodeNlas(nlas[..0]) == [] && nlas[..|nlas|] == nlas;
    hide EncodeNlas, EncodeNla, RawInfos, RawInfo, InfoLen, PaddedLen, Splice;
    for i := 0 to |infos|
      invariant done == EncodeNlas(nlas[..i]) && start == off + |done| <= buf.Length
      invariant buf[..] == Splice(s, off, done)
    {
      ghost var e := EncodeNla(RawInfo(infos[i]));
      RawInfosAt(infos, i);
      EncodeStep(nlas, i);
      InfoLenIs(infos[i]);
      var end := start + PaddedLen(InfoLen(infos[i]));
      EmitInfo(buf, start, infos[i]);
      SpliceTwice(s, off, done, e);
      done := done + e;
      start := end;
    }
  }

  method EmitInfo(buf: array<u8>, off: nat, i: LinkInfo)
    requires off + |EncodeNla(RawInfo(i))| <= buf.Length
    modifies buf
    ensures buf[..] == Splice(old(buf[..]), off, EncodeNla(RawInfo(i)))
    decreases i, 1
  {
    hide Splice, InfoLen, RawInfo, EncodeNla, Header, Zeros, Pad;
    ghost var s := buf[..];
    InfoLenIs(i);
    FrameIsThreeWrites(s, off, RawInfo(i));
    var n := InfoLen(i);
    CopyInto(buf, off, Header(RawInfo(i).kind, n));
    EmitInfoValue(buf, off + 4, i);
    CopyInto(buf, off + 4 + n, Zeros(Pad(n)));
  }

  method EmitInfoValue(buf: array<u8>, off: nat, i: LinkInfo)
    requires off + |RawInfo(i).value| <= buf.Length
    modifies buf
    ensures buf[..] == Splice(old(buf[..]), off, RawInfo(i).value)
    decreases i, 0
  {
    hide Splice, EncodeData;
    match i {
      case Data(d) => EmitData(buf, off, d);
      case _ => CopyInto(buf, off, RawInfo(i).value);
    }
  }

  method EmitData(buf: array<u8>, off: nat, d: InfoData)
    requires off + |EncodeData(d)| <= buf.Length
    modifies buf
    ensures buf[..] == Splice(old(buf[..]), off, EncodeData(d))
    decreases d, 0
  {
    hide Splice, EncodeNlas, RawVrf;
    match d {
      case VethData(v) => EmitVeth(buf, off, v);
      case VrfData(vs) => EmitNlas(buf, off, Map(vs, RawVrf));
      case ListData(_, ns) => EmitNlas(buf, off, Map(ns, KeepNla));
      case RawData(b) => CopyInto(buf, off, b);
    }
  }

  /** The peer is written in place, header first. */
  method EmitVeth(buf: array<u8>, off: nat, v: InfoVeth)
    requires off + |EncodeNla(RawVeth(v))| <= buf.Length
    modifies buf
    ensures buf[..] == Splice(old(buf[..]), off, EncodeNla(RawVeth(v)))
    decreases v, 0
  {
    ghost var s := buf[..];
    VethLenIs(v);
    FrameIsThreeWrites(s, off, RawVeth(v));
    var n := VethLen(v);
    hide Splice, VethLen, EncodeLink;
    match v {
      case Peer(m) =>
        CopyInto(buf, off, Header(VETH_INFO_PEER, n));
        EmitLink(buf, off + 4, m);
      case VethOther(a) =>
        CopyInto(buf, off, Header(a.kind, n));
        CopyInto(buf, off + 4, a.value);
    }
    CopyInto(buf, off + 4 + n, Zeros(Pad(n)));
  }

  /** Emitting into a buffer of exactly `buffer_len` octets. */
  method EmitMessage(m: LinkMessage) returns (buf: array<u8>)
    ensures fresh(buf) && buf.Length == LinkLen(m) && buf[..] == EncodeLink(m)
  {
    hide EncodeLink, LinkLen;
    LinkLenIs(m);
    buf := new u8[LinkLen(m)](i => 0);
    assert Splice(buf[..], 0, EncodeLink(m)) == EncodeLink(m);
    EmitLink(buf, 0, m);
  }
}
