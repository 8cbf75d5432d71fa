/**
 Lightweight-tunnel encapsulations: src/route/lwtunnel.rs, mpls.rs, seg6.rs, seg6local.rs.

 Each attribute type comes as a quadruple: `RawX` (kind and value as emitted),
 `DecodeX`, the set of values `DecodeX` can return, and what is left of such a value
 after one emit and one parse.
 */
module Encap {
  import opened Wire
  import opened Framing
  import opened Mpls
  import opened Srv6

  // ---- RouteLwEnCapType ----

  datatype EncapType =
    | NoEncap | MplsEncap | Ip | Ila | Ip6 | Seg6Encap | Bpf | Seg6LocalEncap | Rpl | Ioam6 | Xfrm
    | OtherEncap(code: u16)
  {
    function Code(): u16 {
      match this
      case NoEncap => 0
      case MplsEncap => 1
      case Ip => 2
      case Ila => 3
      case Ip6 => 4
      case Seg6Encap => 5
      case Bpf => 6
      case Seg6LocalEncap => 7
      case Rpl => 8
      case Ioam6 => 9
      case Xfrm => 10
      case OtherEncap(c) => c
    }

    predicate Canonical() {
      OtherEncap? ==> code > 10
    }
  }

  function EncapTypeOf(code: u16): EncapType {
    match code
    case 0 => NoEncap
    case 1 => MplsEncap
    case 2 => Ip
    case 3 => Ila
    case 4 => Ip6
    case 5 => Seg6Encap
    case 6 => Bpf
    case 7 => Seg6LocalEncap
    case 8 => Rpl
    case 9 => Ioam6
    case 10 => Xfrm
    case _ => OtherEncap(code)
  }

  lemma EncapTypeRoundTrip(t: EncapType, code: u16)
    ensures EncapTypeOf(t.Code()) == t <==> t.Canonical()
    ensures EncapTypeOf(code).Canonical() && EncapTypeOf(code).Code() == code
  {
  }

  // ---- RouteMplsIpTunnel ----

  datatype MplsTunnel = MplsDestination(labels: seq<MplsLabel>) | MplsTtl(ttl: u8) | MplsOther(nla: Nla) {
    predicate Valid() {
      match this
      case MplsDestination(ls) => AllValid(ls)
      case MplsTtl(_) => true
      case MplsOther(n) => n.Type() !in {1, 2}
    }
  }

  function RawMpls(x: MplsTunnel): Nla {
    match x
    case MplsDestination(ls) => Nla(1, EncodeLabels(ls))
    case MplsTtl(t) => Nla(2, [t])
    case MplsOther(n) => n
  }

  function DecodeMpls(n: Nla): Result<MplsTunnel> {
    match n.Type()
    case 1 => Ok(MplsDestination(DecodeLabels(n.value)))
    case 2 =>
      var t :- ParseU8(n.value);
      Ok(MplsTtl(t))
    case _ => Ok(MplsOther(n))
  }

  lemma MplsTunnelRoundTrip(x: MplsTunnel)
    requires x.Valid()
    ensures DecodeMpls(RawMpls(x)) == Ok(x)
  {
    hide EncodeLabels, DecodeLabels;
    if x.MplsDestination? {
      LabelsRoundTrip(x.labels);
    }
  }

  lemma MplsTunnelSound(n: Nla)
    requires DecodeMpls(n).Ok?
    ensures DecodeMpls(n).value.Valid()
  {
    hide EncodeLabels, DecodeLabels;
    LabelsPrefix(n.value);
  }

  // ---- RouteSeg6IpTunnel ----

  datatype Seg6Tunnel = Seg6Srh(encap: Seg6IpTunnelEncap) | Seg6Other(nla: Nla) {
    predicate Valid() {
      match this
      case Seg6Srh(t) => t.Single()
      case Seg6Other(n) => n.Type() != 1
    }

    function Normal(): Seg6Tunnel {
      if Seg6Srh? && encap.Single() then Seg6Srh(encap.WithoutTlvs()) else this
    }
  }

  function RawSeg6(x: Seg6Tunnel): Nla {
    match x
    case Seg6Srh(t) => Nla(1, EncodeTunnel(t))
    case Seg6Other(n) => n
  }

  function DecodeSeg6(n: Nla): Result<Seg6Tunnel> {
    if n.Type() == 1 then
      var t :- DecodeTunnel(n.value);
      Ok(Seg6Srh(t))
    else Ok(Seg6Other(n))
  }

  lemma Seg6RoundTrip(x: Seg6Tunnel)
    requires x.Valid()
    ensures DecodeSeg6(RawSeg6(x)) == Ok(x.Normal())
  {
    if x.Seg6Srh? {
      TunnelNormalises(x.encap);
    }
  }

  // ---- the nested lists of a local segment: counters and flavors ----

  datatype Counter = CntUnspec | CntPadding(len: nat) | Packets(v: u64) | Octets(v: u64) | Errors(v: u64) | CntOther(nla: Nla) {
    predicate Valid() {
      CntOther? ==> nla.Type() !in {0, 1, 2, 3, 4}
    }
  }

  /** `Padding` reserves octets and writes none of them; in a fresh buffer they are zero. */
  function RawCounter(c: Counter): Nla {
    match c
    case CntUnspec => Nla(0, [])
    case CntPadding(n) => Nla(1, Zeros(n))
    case Packets(v) => Nla(2, Put64(v))
    case Octets(v) => Nla(3, Put64(v))
    case Errors(v) => Nla(4, Put64(v))
    case CntOther(n) => n
  }

  function DecodeCounter(n: Nla): Result<Counter> {
    match n.Type()
    case 0 => Ok(CntUnspec)
    case 1 => Ok(CntPadding(|n.value|))
    case 2 =>
      var v :- ParseU64(n.value);
      Ok(Packets(v))
    case 3 =>
      var v :- ParseU64(n.value);
      Ok(Octets(v))
    case 4 =>
      var v :- ParseU64(n.value);
      Ok(Errors(v))
    case _ => Ok(CntOther(n))
  }

  datatype Flavor = Operation(op: u32) | Lblen(n: u8) | Nflen(n: u8) | FlavorOther(nla: Nla) {
    predicate Valid() {
      FlavorOther? ==> nla.Type() !in {1, 2, 3}
    }
  }

  function RawFlavor(f: Flavor): Nla {
    match f
    case Operation(op) => Nla(1, Put32(op))
    case Lblen(n) => Nla(2, [n])
    case Nflen(n) => Nla(3, [n])
    case FlavorOther(n) => n
  }

  function DecodeFlavor(n: Nla): Result<Flavor> {
    match n.Type()
    case 1 =>
      var op :- ParseU32(n.value);
      Ok(Operation(op))
    case 2 =>
      var v :- ParseU8(n.value);
      Ok(Lblen(v))
    case 3 =>
      var v :- ParseU8(n.value);
      Ok(Nflen(v))
    case _ => Ok(FlavorOther(n))
  }

  predicate AllCounters(cs: seq<Counter>) {
    forall i :: 0 <= i < |cs| ==> cs[i].Valid()
  }

  predicate AllFlavors(fs: seq<Flavor>) {
    forall i :: 0 <= i < |fs| ==> fs[i].Valid()
  }

  lemma CounterRoundTrip(c: Counter)
    requires c.Valid()
    ensures DecodeCounter(RawCounter(c)) == Ok(c)
  {
    hide Put64, Get64;
  }

  lemma CountersRoundTrip(cs: seq<Counter>)
    requires AllCounters(cs) && |EncodeNlas(Map(cs, RawCounter))| <= 0xFFFF
    ensures DecodeList(EncodeNlas(Map(cs, RawCounter)), DecodeCounter) == Ok(cs)
  {
    MembersFit(Map(cs, RawCounter));
    forall i | 0 <= i < |cs| ensures DecodeCounter(RawCounter(cs[i])) == Ok(cs[i]) {
      CounterRoundTrip(cs[i]);
    }
    hide RawCounter, DecodeCounter;
    ListExact(cs, RawCounter, DecodeCounter);
  }

  lemma FlavorRoundTrip(f: Flavor)
    requires f.Valid()
    ensures DecodeFlavor(RawFlavor(f)) == Ok(f)
  {
  }

  lemma FlavorsRoundTrip(fs: seq<Flavor>)
    requires AllFlavors(fs) && |EncodeNlas(Map(fs, RawFlavor))| <= 0xFFFF
    ensures DecodeList(EncodeNlas(Map(fs, RawFlavor)), DecodeFlavor) == Ok(fs)
  {
    MembersFit(Map(fs, RawFlavor));
    forall i | 0 <= i < |fs| ensures DecodeFlavor(RawFlavor(fs[i])) == Ok(fs[i]) {
      FlavorRoundTrip(fs[i]);
    }
    hide RawFlavor, DecodeFlavor;
    ListExact(fs, RawFlavor, DecodeFlavor);
  }

  lemma CountersSound(b: Bytes)
    requires DecodeList(b, DecodeCounter).Ok?
    ensures AllCounters(DecodeList(b, DecodeCounter).value)
  {
    DecodeAllOk(Scan(b).nlas, Scan(b).clean, DecodeCounter, DecodeList(b, DecodeCounter).value);
  }

  lemma FlavorsSound(b: Bytes)
    requires DecodeList(b, DecodeFlavor).Ok?
    ensures AllFlavors(DecodeList(b, DecodeFlavor).value)
  {
    DecodeAllOk(Scan(b).nlas, Scan(b).clean, DecodeFlavor, DecodeList(b, DecodeFlavor).value);
  }

  // ---- RouteSeg6LocalIpTunnel ----

  datatype Seg6Local =
    | Action(action: u32)
    | Srh(hdr: Ipv6SrHdr)
    | LocalTable(v: u32)
    | Nh4(v4: Ipv4)
    | Nh6(v6: Ipv6)
    | LocalIif(v: u32)
    | LocalOif(v: u32)
    | VrfTable(v: u32)
    | Counters(counters: seq<Counter>)
    | Flavors(flavors: seq<Flavor>)
    | LocalOther(nla: Nla)
  {
    predicate Valid() {
      match this
      case Srh(h) => h.Counted()
      case Counters(cs) => AllCounters(cs)
      case Flavors(fs) => AllFlavors(fs)
      case LocalOther(n) => n.Type() !in {1, 2, 3, 4, 5, 6, 7, 9, 10, 11}
      case _ => true
    }

    function Normal(): Seg6Local {
      if Srh? then Srh(hdr.WithoutTlvs()) else this
    }
  }

  function RawLocal(x: Seg6Local): Nla {
    match x
    case Action(a) => Nla(1, Put32(a))
    case Srh(h) => Nla(2, EncodeSrh(h))
    case LocalTable(v) => Nla(3, Put32(v))
    case Nh4(a) => Nla(4, a)
    case Nh6(a) => Nla(5, a)
    case LocalIif(v) => Nla(6, Put32(v))
    case LocalOif(v) => Nla(7, Put32(v))
    case VrfTable(v) => Nla(9, Put32(v))
    case Counters(cs) => Nla(10 + NLA_F_NESTED, EncodeNlas(Map(cs, RawCounter)))
    case Flavors(fs) => Nla(11 + NLA_F_NESTED, EncodeNlas(Map(fs, RawFlavor)))
    case LocalOther(n) => n
  }

  function DecodeLocal(n: Nla): Result<Seg6Local> {
    match n.Type()
    case 1 =>
      var a :- ParseU32(n.value);
      Ok(Action(a))
    case 2 =>
      var h :- DecodeSrh(n.value);
      Ok(Srh(h))
    case 3 =>
      var v :- ParseU32(n.value);
      Ok(LocalTable(v))
    case 4 => if |n.value| == 4 then Ok(Nh4(n.value)) else Err
    case 5 => if |n.value| == 16 then Ok(Nh6(n.value)) else Err
    case 6 =>
      var v :- ParseU32(n.value);
      Ok(LocalIif(v))
    case 7 =>
      var v :- ParseU32(n.value);
      Ok(LocalOif(v))
    case 9 =>
      var v :- ParseU32(n.value);
      Ok(VrfTable(v))
    case 10 =>
      var cs :- DecodeList(n.value, DecodeCounter);
      Ok(Counters(cs))
    case 11 =>
      var fs :- DecodeList(n.value, DecodeFlavor);
      Ok(Flavors(fs))
    case _ => Ok(LocalOther(n))
  }

  lemma LocalRoundTrip(x: Seg6Local)
    requires x.Valid() && RawLocal(x).Fits()
    ensures DecodeLocal(RawLocal(x)) == Ok(x.Normal())
  {
    hide EncodeNlas, EncodeSrh, DecodeSrh, DecodeAll;
    match x
    case Srh(h) => SrhNormalises(h);
    case Counters(cs) => CountersRoundTrip(cs);
    case Flavors(fs) => FlavorsRoundTrip(fs);
    case _ =>
  }

  lemma LocalSound(n: Nla)
    requires DecodeLocal(n).Ok?
    ensures DecodeLocal(n).value.Valid()
  {
    hide DecodeAll, DecodeSrh;
    match n.Type()
    case 2 => SrhCounted(n.value);
    case 10 => CountersSound(n.value);
    case 11 => FlavorsSound(n.value);
    case _ =>
  }

  // ---- RouteLwTunnelEncap: the encap type decides the variant ----

  datatype TunnelEncap = MplsVariant(mpls: MplsTunnel) | Seg6Variant(seg6: Seg6Tunnel) | LocalVariant(local: Seg6Local) | OtherVariant(nla: Nla) {
    predicate FitsType(t: EncapType) {
      match t
      case MplsEncap => MplsVariant? && mpls.Valid()
      case Seg6Encap => Seg6Variant? && seg6.Valid()
      case Seg6LocalEncap => LocalVariant? && local.Valid()
      case _ => OtherVariant?
    }

    /** No header in it carries a TLV. */
    predicate TlvFree() {
      match this
      case Seg6Variant(Seg6Srh(t)) => forall i :: 0 <= i < |t.headers| ==> t.headers[i].tlvs == []
      case LocalVariant(Srh(h)) => h.tlvs == []
      case _ => true
    }

    /** Without the TLVs that `emit` does not write. */
    function Normal(): TunnelEncap {
      match this
      case Seg6Variant(s) => Seg6Variant(s.Normal())
      case LocalVariant(l) => LocalVariant(l.Normal())
      case _ => this
    }
  }

  function RawEncap(x: TunnelEncap): Nla {
    match x
    case MplsVariant(m) => RawMpls(m)
    case Seg6Variant(s) => RawSeg6(s)
    case LocalVariant(l) => RawLocal(l)
    case OtherVariant(n) => n
  }

  function DecodeEncap(t: EncapType, n: Nla): Result<TunnelEncap> {
    match t
    case MplsEncap =>
      var m :- DecodeMpls(n);
      Ok(MplsVariant(m))
    case Seg6Encap =>
      var s :- DecodeSeg6(n);
      Ok(Seg6Variant(s))
    case Seg6LocalEncap =>
      var l :- DecodeLocal(n);
      Ok(LocalVariant(l))
    case _ => Ok(OtherVariant(n))
  }

  function EncapDecoder(t: EncapType): Nla -> Result<TunnelEncap> {
    n => DecodeEncap(t, n)
  }

  function NormalEncaps(xs: seq<TunnelEncap>): seq<TunnelEncap> {
    Map(xs, (x: TunnelEncap) => x.Normal())
  }

  predicate AllFitType(xs: seq<TunnelEncap>, t: EncapType) {
    forall i :: 0 <= i < |xs| ==> xs[i].FitsType(t)
  }

  function EncodeEncaps(xs: seq<TunnelEncap>): Bytes {
    EncodeNlas(Map(xs, RawEncap))
  }

  function DecodeEncaps(t: EncapType, b: Bytes): Result<seq<TunnelEncap>> {
    DecodeList(b, EncapDecoder(t))
  }

  lemma EncapRoundTrip(t: EncapType, x: TunnelEncap)
    requires x.FitsType(t) && RawEncap(x).Fits()
    ensures DecodeEncap(t, RawEncap(x)) == Ok(x.Normal())
  {
    hide RawMpls, DecodeMpls, RawSeg6, DecodeSeg6, RawLocal, DecodeLocal;
    match x
    case MplsVariant(m) => MplsTunnelRoundTrip(m);
    case Seg6Variant(s) => Seg6RoundTrip(s);
    case LocalVariant(l) => LocalRoundTrip(l);
    case OtherVariant(_) =>
  }

  lemma EncapsRoundTrip(t: EncapType, xs: seq<TunnelEncap>)
    requires AllFitType(xs, t) && |EncodeEncaps(xs)| <= 0xFFFF
    ensures DecodeEncaps(t, EncodeEncaps(xs)) == Ok(NormalEncaps(xs))
  {
    hide DecodeEncap, RawEncap;
    MembersFit(Map(xs, RawEncap));
    var norm := (x: TunnelEncap) => x.Normal();
    forall i | 0 <= i < |xs| ensures EncapDecoder(t)(RawEncap(xs[i])) == Ok(norm(xs[i])) {
      EncapRoundTrip(t, xs[i]);
    }
    ListRoundTrip(xs, RawEncap, EncapDecoder(t), norm);
  }

  lemma EncapsSound(t: EncapType, b: Bytes)
    requires DecodeEncaps(t, b).Ok?
    ensures AllFitType(DecodeEncaps(t, b).value, t)
  {
    hide DecodeMpls, DecodeSeg6, DecodeLocal;
    var xs := DecodeEncaps(t, b).value;
    DecodeAllOk(Scan(b).nlas, Scan(b).clean, EncapDecoder(t), xs);
    forall i | 0 <= i < |xs| ensures xs[i].FitsType(t) {
      var n := Scan(b).nlas[i];
      assert DecodeEncap(t, n) == Ok(xs[i]);
      if t.MplsEncap? {
        MplsTunnelSound(n);
      } else if t.Seg6Encap? {
        Seg6Sound(n);
      } else if t.Seg6LocalEncap? {
        LocalSound(n);
      }
    }
  }

  lemma Seg6Sound(n: Nla)
    requires DecodeSeg6(n).Ok?
    ensures DecodeSeg6(n).value.Valid()
  {
  }

  lemma NormalEncapsIsIdentity(xs: seq<TunnelEncap>, t: EncapType)
    requires AllFitType(xs, t)
    ensures NormalEncaps(xs) == xs <==> forall i :: 0 <= i < |xs| ==> xs[i].TlvFree()
  {
    forall i | 0 <= i < |xs| ensures xs[i].Normal() == xs[i] <==> xs[i].TlvFree() {
      NormalIsIdentity(xs[i], t);
    }
  }

  lemma NormalIsIdentity(x: TunnelEncap, t: EncapType)
    requires x.FitsType(t)
    ensures x.Normal() == x <==> x.TlvFree()
  {
    if x.Seg6Variant? && x.seg6.Seg6Srh? {
      assert x.seg6.encap.headers == [x.seg6.encap.headers[0]];
    }
  }
}
