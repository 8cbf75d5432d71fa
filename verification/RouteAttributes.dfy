/**
 Every route attribute except the recursive one: src/route/attribute.rs, and the small
 codecs it uses (metrics.rs, realm.rs, preference.rs, mfc_stats.rs, cache_info.rs).
 */
module RouteAttributes {
  import opened Wire
  import opened Framing
  import opened Mpls
  import opened Families
  import opened Encap

  datatype RouteType =
    | TypeUnspec | Unicast | TypeLocal | Broadcast | Anycast | Multicast | BlackHole | Unreachable
    | Prohibit | Throw | Nat | ExternalResolve | TypeOther(code: u8)
  {
    function Code(): u8 {
      match this
      case TypeUnspec => 0
      case Unicast => 1
      case TypeLocal => 2
      case Broadcast => 3
      case Anycast => 4
      case Multicast => 5
      case BlackHole => 6
      case Unreachable => 7
      case Prohibit => 8
      case Throw => 9
      case Nat => 10
      case ExternalResolve => 11
      case TypeOther(c) => c
    }

    predicate Canonical() {
      TypeOther? ==> code > 11
    }
  }

  function RouteTypeOf(code: u8): RouteType {
    match code
    case 0 => TypeUnspec
    case 1 => Unicast
    case 2 => TypeLocal
    case 3 => Broadcast
    case 4 => Anycast
    case 5 => Multicast
    case 6 => BlackHole
    case 7 => Unreachable
    case 8 => Prohibit
    case 9 => Throw
    case 10 => Nat
    case 11 => ExternalResolve
    case _ => TypeOther(code)
  }

  lemma RouteTypeRoundTrip(t: RouteType, code: u8)
    ensures RouteTypeOf(t.Code()) == t <==> t.Canonical()
    ensures RouteTypeOf(code).Canonical()
  {
  }

  /** What an attribute's decoding depends on besides its own octets. */
  datatype Context = Context(family: AddressFamily, routeType: RouteType, encap: EncapType)

  // ---- enumerations with a catch-all ----

  datatype Preference = Low | Medium | High | Invalid | PreferenceOther(code: u8) {
    function Code(): u8 {
      match this
      case Medium => 0
      case High => 1
      case Invalid => 2
      case Low => 3
      case PreferenceOther(c) => c
    }

    predicate Canonical() {
      PreferenceOther? ==> code > 3
    }
  }

  function PreferenceOf(code: u8): Preference {
    match code
    case 0 => Medium
    case 1 => High
    case 2 => Invalid
    case 3 => Low
    case _ => PreferenceOther(code)
  }

  datatype TtlPropagation = PropDefault | PropEnabled | PropDisabled | PropOther(code: u8) {
    function Code(): u8 {
      match this
      case PropDefault => 0
      case PropEnabled => 1
      case PropDisabled => 2
      case PropOther(c) => c
    }

    predicate Canonical() {
      PropOther? ==> code > 2
    }
  }

  function TtlPropagationOf(code: u8): TtlPropagation {
    match code
    case 0 => PropDefault
    case 1 => PropEnabled
    case 2 => PropDisabled
    case _ => PropOther(code)
  }

  // ---- RTA_METRICS: seventeen u32 metrics, told apart by their code ----

  datatype RouteMetric = Metric(code: u16, value: u32) | MetricOther(nla: Nla) {
    predicate Valid() {
      match this
      case Metric(c, _) => 1 <= c <= 17
      case MetricOther(n) => !(1 <= n.Type() <= 17)
    }
  }

  function RawMetric(m: RouteMetric): Nla {
    match m
    case Metric(c, v) => Nla(c, Put32(v))
    case MetricOther(n) => n
  }

  function DecodeMetric(n: Nla): Result<RouteMetric> {
    if 1 <= n.Type() <= 17 then
      var v :- ParseU32(n.value);
      Ok(Metric(n.Type(), v))
    else Ok(MetricOther(n))
  }

  predicate AllMetrics(ms: seq<RouteMetric>) {
    forall i :: 0 <= i < |ms| ==> ms[i].Valid()
  }

  function EncodeMetrics(ms: seq<RouteMetric>): Bytes {
    EncodeNlas(Map(ms, RawMetric))
  }

  lemma MetricsRoundTrip(ms: seq<RouteMetric>)
    requires AllMetrics(ms) && |EncodeMetrics(ms)| <= 0xFFFF
    ensures DecodeList(EncodeMetrics(ms), DecodeMetric) == Ok(ms)
  {
    MembersFit(Map(ms, RawMetric));
    forall i | 0 <= i < |ms| ensures DecodeMetric(RawMetric(ms[i])) == Ok(ms[i]) {
    }
    hide RawMetric, DecodeMetric;
    ListExact(ms, RawMetric, DecodeMetric);
  }

  lemma MetricsSound(b: Bytes)
    requires DecodeList(b, DecodeMetric).Ok?
    ensures AllMetrics(DecodeList(b, DecodeMetric).value)
  {
    DecodeAllOk(Scan(b).nlas, Scan(b).clean, DecodeMetric, DecodeList(b, DecodeMetric).value);
  }

  // ---- RTA_FLOW: two 16-bit halves of one word ----

  function EncodeRealm(source: u16, destination: u16): (b: Bytes)
    ensures |b| == 4
  {
    Put32(source as int * 0x1_0000 + destination as int)
  }

  /** Four octets are read before the length is looked at. */
  function DecodeRealm(b: Bytes): Result<RouteLeaf> {
    if |b| < 4 then Panic
    else if |b| != 4 then Err
    else Ok(Realm(Get32(b) / 0x1_0000, Get32(b) % 0x1_0000))
  }

  // ---- the attributes ----

  datatype RouteLeaf =
    | Metrics(metrics: seq<RouteMetric>)
    | MfcStats(packets: u64, octets: u64, wrongIf: u64)
    | CacheInfo(words: seq<u32>)
    | Destination(addr: RouteAddress)
    | Source(addr: RouteAddress)
    | Gateway(addr: RouteAddress)
    | PrefSource(addr: RouteAddress)
    | Via(via: RouteVia)
    | NewDestination(labels: seq<MplsLabel>)
    | Pref(preference: Preference)
    | EncapTypeIs(encapType: EncapType)
    | Encaps(encaps: seq<TunnelEncap>)
    | Expires(u32v: u32)
    | MulticastExpires(u64v: u64)
    | Uid(u32v: u32)
    | TtlPropagate(propagation: TtlPropagation)
    | Iif(u32v: u32)
    | Oif(u32v: u32)
    | Priority(u32v: u32)
    | Realm(source: u16, destination: u16)
    | Table(u32v: u32)
    | Mark(u32v: u32)
    | Nhid(u32v: u32)
    | Other(nla: Nla)
  {
    /** This attribute is one that decoding under `c` can produce. `Nhid` is never
        produced: there is no arm for its type, so it is read back as `Other`. */
    predicate Fits(c: Context) {
      match this
      case Metrics(ms) => AllMetrics(ms)
      case CacheInfo(ws) => |ws| == 8
      case Destination(a) => a.FitsFamily(c.family)
      case Source(a) => a.FitsFamily(c.family)
      case Gateway(a) => a.FitsFamily(c.family)
      case PrefSource(a) => a.FitsFamily(c.family)
      case Via(v) => v.Canonical()
      case NewDestination(ls) => AllValid(ls)
      case Pref(p) => p.Canonical()
      case EncapTypeIs(t) => t.Canonical()
      case Encaps(es) => AllFitType(es, c.encap)
      case Expires(_) => !c.routeType.Multicast?
      case MulticastExpires(_) => c.routeType.Multicast?
      case TtlPropagate(p) => p.Canonical()
      case Nhid(_) => false
      case Other(n) => n.Type() !in KNOWN_TYPES
      case _ => true
    }

    /** Without the segment-routing TLVs that are never written. */
    function Normal(): RouteLeaf {
      if Encaps? then Encaps(NormalEncaps(encaps)) else this
    }
  }

  const RTA_MULTIPATH: u16 := 9
  const RTA_ENCAP_TYPE: u16 := 21
  const KNOWN_TYPES: set<u16> := {1, 2, 3, 4, 5, 6, 7, 8, 9, 11, 12, 15, 16, 17, 18, 19, 20, 21, 22, 23, 25, 26}

  function LeafKind(l: RouteLeaf): u16 {
    match l
    case Destination(_) => 1
    case Source(_) => 2
    case Iif(_) => 3
    case Oif(_) => 4
    case Gateway(_) => 5
    case Priority(_) => 6
    case PrefSource(_) => 7
    case Metrics(_) => 8
    case Realm(_, _) => 11
    case CacheInfo(_) => 12
    case Table(_) => 15
    case Mark(_) => 16
    case MfcStats(_, _, _) => 17
    case Via(_) => 18
    case NewDestination(_) => 19
    case Pref(_) => 20
    case EncapTypeIs(_) => 21
    case Encaps(_) => 22
    case Expires(_) => 23
    case MulticastExpires(_) => 23
    case Uid(_) => 25
    case TtlPropagate(_) => 26
    case Nhid(_) => 30
    case Other(n) => n.kind
  }

  function LeafValue(l: RouteLeaf): Bytes {
    match l
    case Destination(a) => EncodeAddress(a)
    case Source(a) => EncodeAddress(a)
    case Gateway(a) => EncodeAddress(a)
    case PrefSource(a) => EncodeAddress(a)
    case Via(v) => EncodeVia(v)
    case NewDestination(ls) => EncodeLabels(ls)
    case Encaps(es) => EncodeEncaps(es)
    case TtlPropagate(p) => [p.Code()]
    case Pref(p) => [p.Code()]
    case CacheInfo(ws) => PutWords(ws)
    case MfcStats(p, o, w) => Put64(p) + Put64(o) + Put64(w)
    case Metrics(ms) => EncodeMetrics(ms)
    case EncapTypeIs(t) => Put16(t.Code())
    case Realm(s, d) => EncodeRealm(s, d)
    case MulticastExpires(v) => Put64(v)
    case Other(n) => n.value
    case _ => Put32(l.u32v)
  }

  /** `value_len`. */
  function LeafLen(l: RouteLeaf): nat {
    match l
    case Destination(a) => AddressLen(a)
    case Source(a) => AddressLen(a)
    case Gateway(a) => AddressLen(a)
    case PrefSource(a) => AddressLen(a)
    case Via(v) => (
      match v
      case ViaInet(_) => 4 + 2
      case ViaInet6(_) => 16 + 2
      case ViaPacket(a) => |a| + 2
      case ViaOther(_, a) => |a| + 2)
    case NewDestination(ls) => |ls| * 4
    case Encaps(es) => NlasLen(Map(es, RawEncap))
    case TtlPropagate(_) => 1
    case Pref(_) => 1
    case CacheInfo(ws) => 4 * |ws|
    case MfcStats(_, _, _) => 24
    case Metrics(ms) => NlasLen(Map(ms, RawMetric))
    case EncapTypeIs(_) => 2
    case MulticastExpires(_) => 8
    case Other(n) => |n.value|
    case _ => 4
  }

  function AddressLen(a: RouteAddress): nat {
    match a
    case V4(_) => 4
    case V6(_) => 16
    case Label(_) => 4
    case Raw(o) => |o|
  }

  /** What `value_len` announces is what `emit_value` writes. */
  lemma LeafLenIs(l: RouteLeaf)
    ensures |LeafValue(l)| == LeafLen(l)
  {
    hide RawEncap, RawMetric, EncodeNlas;
    match l
    case Encaps(es) => NlasLenIs(Map(es, RawEncap));
    case Metrics(ms) => NlasLenIs(Map(ms, RawMetric));
    case _ =>
  }

  /** The arms of `parse_with_param` other than RTA_MULTIPATH. */
  function DecodeLeaf(n: Nla, c: Context): Result<RouteLeaf> {
    match n.Type()
    case 1 =>
      var a :- DecodeAddress(c.family, n.value);
      Ok(Destination(a))
    case 2 =>
      var a :- DecodeAddress(c.family, n.value);
      Ok(Source(a))
    case 5 =>
      var a :- DecodeAddress(c.family, n.value);
      Ok(Gateway(a))
    case 7 =>
      var a :- DecodeAddress(c.family, n.value);
      Ok(PrefSource(a))
    case 18 =>
      var v :- DecodeVia(n.value);
      Ok(Via(v))
    case 19 => Ok(NewDestination(DecodeLabels(n.value)))
    case 20 =>
      var p :- ParseU8(n.value);
      Ok(Pref(PreferenceOf(p)))
    case 22 =>
      var es :- DecodeEncaps(c.encap, n.value);
      Ok(Encaps(es))
    case 23 =>
      if c.routeType.Multicast? then
        var v :- ParseU64(n.value);
        Ok(MulticastExpires(v))
      else
        var v :- ParseU32(n.value);
        Ok(Expires(v))
    case 25 =>
      var v :- ParseU32(n.value);
      Ok(Uid(v))
    case 26 =>
      var p :- ParseU8(n.value);
      Ok(TtlPropagate(TtlPropagationOf(p)))
    case 21 =>
      var t :- ParseU16(n.value);
      Ok(EncapTypeIs(EncapTypeOf(t)))
    case 3 =>
      var v :- ParseU32(n.value);
      Ok(Iif(v))
    case 4 =>
      var v :- ParseU32(n.value);
      Ok(Oif(v))
    case 6 =>
      var v :- ParseU32(n.value);
      Ok(Priority(v))
    case 11 => DecodeRealm(n.value)
    case 15 =>
      var v :- ParseU32(n.value);
      Ok(Table(v))
    case 16 =>
      var v :- ParseU32(n.value);
      Ok(Mark(v))
    case 12 => if |n.value| < 32 then Err else Ok(CacheInfo(GetWords(n.value, 8)))
    case 17 =>
      if |n.value| < 24 then Err
      else Ok(MfcStats(Get64(n.value[..8]), Get64(n.value[8..16]), Get64(n.value[16..24])))
    case 8 =>
      var ms :- DecodeList(n.value, DecodeMetric);
      Ok(Metrics(ms))
    case _ => Ok(Other(n))
  }

  function RawLeaf(l: RouteLeaf): Nla {
    Nla(LeafKind(l), LeafValue(l))
  }

  lemma LeafType(l: RouteLeaf, c: Context)
    requires l.Fits(c)
    ensures RawLeaf(l).Type() != RTA_MULTIPATH
    ensures RawLeaf(l).Type() == RTA_ENCAP_TYPE <==> l.EncapTypeIs?
  {
    hide LeafValue;
  }

  lemma AddressLeafRoundTrip(l: RouteLeaf, c: Context)
    requires l.Destination? || l.Source? || l.Gateway? || l.PrefSource?
    requires l.Fits(c)
    ensures DecodeLeaf(RawLeaf(l), c) == Ok(l)
  {
    hide EncodeAddress, DecodeAddress;
    AddressRoundTrip(c.family, l.addr);
  }

  lemma ScalarLeafRoundTrip(l: RouteLeaf, c: Context)
    requires l.Uid? || l.Iif? || l.Oif? || l.Priority? || l.Table? || l.Mark? || l.Expires? || l.MulticastExpires?
    requires l.Fits(c)
    ensures DecodeLeaf(RawLeaf(l), c) == Ok(l)
  {
    hide Put32, Get32, Put64, Get64, EncodeAddress, DecodeAddress, EncodeVia, DecodeVia, EncodeLabels, DecodeLabels, EncodeEncaps, DecodeEncaps,
      EncodeMetrics, DecodeList;
  }

  lemma CodeLeafRoundTrip(l: RouteLeaf, c: Context)
    requires l.Pref? || l.TtlPropagate? || l.EncapTypeIs? || l.Other?
    requires l.Fits(c)
    ensures DecodeLeaf(RawLeaf(l), c) == Ok(l)
  {
    if l.EncapTypeIs? {
      EncapTypeRoundTrip(l.encapType, 0);
    }
  }

  lemma RealmRoundTrip(source: u16, destination: u16)
    ensures DecodeRealm(EncodeRealm(source, destination)) == Ok(Realm(source, destination))
  {
    SplitWord(destination, source);
    hide Put32, Get32;
  }

  lemma CacheInfoRoundTrip(ws: seq<u32>)
    requires |ws| == 8
    ensures |PutWords(ws)| == 32 && GetWords(PutWords(ws), 8) == ws
  {
    WordsRoundTrip(ws, []);
    assert PutWords(ws) + [] == PutWords(ws);
  }

  lemma MfcStatsSlices(p: u64, o: u64, w: u64)
    ensures var b := Put64(p) + Put64(o) + Put64(w);
            b[..8] == Put64(p) && b[8..16] == Put64(o) && b[16..24] == Put64(w)
  {
    hide Put64;
  }

  lemma RecordLeafRoundTrip(l: RouteLeaf, c: Context)
    requires l.Realm? || l.CacheInfo? || l.MfcStats?
    requires l.Fits(c)
    ensures DecodeLeaf(RawLeaf(l), c) == Ok(l)
  {
    hide Put64, Get64, PutWords, GetWords, EncodeRealm, DecodeRealm, EncodeAddress, DecodeAddress, EncodeVia, DecodeVia, EncodeLabels, DecodeLabels, EncodeEncaps, DecodeEncaps,
      EncodeMetrics, DecodeList;
    match l
    case Realm(s, d) => RealmRoundTrip(s, d);
    case CacheInfo(ws) => CacheInfoRoundTrip(ws);
    case MfcStats(p, o, w) => MfcStatsSlices(p, o, w);
  }

  lemma ListLeafRoundTrip(l: RouteLeaf, c: Context)
    requires l.Metrics? || l.Via? || l.NewDestination? || l.Encaps?
    requires l.Fits(c) && |LeafValue(l)| <= 0xFFFF
    ensures DecodeLeaf(RawLeaf(l), c) == Ok(l.Normal())
  {
    hide EncodeVia, DecodeVia, EncodeLabels, DecodeLabels, EncodeEncaps, DecodeEncaps, EncodeMetrics, DecodeList;
    match l
    case Metrics(ms) => MetricsRoundTrip(ms);
    case Via(v) => ViaRoundTrip(v);
    case NewDestination(ls) => LabelsRoundTrip(ls);
    case Encaps(es) => EncapsRoundTrip(c.encap, es);
  }

  /** Emitting and parsing under the same context loses exactly what `Normal` drops. */
  lemma LeafRoundTrip(l: RouteLeaf, c: Context)
    requires l.Fits(c) && |LeafValue(l)| <= 0xFFFF
    ensures DecodeLeaf(RawLeaf(l), c) == Ok(l.Normal())
  {
    if l.Destination? || l.Source? || l.Gateway? || l.PrefSource? {
      AddressLeafRoundTrip(l, c);
    } else if l.Metrics? || l.Via? || l.NewDestination? || l.Encaps? {
      ListLeafRoundTrip(l, c);
    } else if l.Realm? || l.CacheInfo? || l.MfcStats? {
      RecordLeafRoundTrip(l, c);
    } else if l.Pref? || l.TtlPropagate? || l.EncapTypeIs? || l.Other? {
      CodeLeafRoundTrip(l, c);
    } else {
      ScalarLeafRoundTrip(l, c);
    }
  }

  /** Whatever is decoded under a context fits that context. */
  lemma LeafSound(n: Nla, c: Context)
    requires n.Type() != RTA_MULTIPATH
    requires DecodeLeaf(n, c).Ok?
    ensures DecodeLeaf(n, c).value.Fits(c)
  {
    hide DecodeAddress, DecodeVia, DecodeLabels, DecodeEncaps, DecodeList, EncapTypeOf;
    match n.Type()
    case 1 => AddressSound(c.family, n.value);
    case 2 => AddressSound(c.family, n.value);
    case 5 => AddressSound(c.family, n.value);
    case 7 => AddressSound(c.family, n.value);
    case 8 => MetricsSound(n.value);
    case 18 => ViaSound(n.value);
    case 19 => LabelsPrefix(n.value);
    case 21 =>
      if |n.value| == 2 {
        EncapTypeRoundTrip(NoEncap, Get16(n.value));
      }
    case 22 => EncapsSound(c.encap, n.value);
    case _ =>
  }

  /** The one attribute that no context lets survive: a next-hop id is written under
      type 30, which the parser does not know. */
  lemma NhidIsLost(v: u32, c: Context)
    ensures DecodeLeaf(RawLeaf(Nhid(v)), c) == Ok(Other(Nla(30, Put32(v))))
  {
    hide Put32;
  }
}
