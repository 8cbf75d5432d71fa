/** The bridge multicast database: src/mdb/entry.rs, message.rs, attribute.rs, header.rs. */
module Mdb {
  import opened Wire
  import opened Framing
  import opened Families

  const MDBA_MDB_ENTRY: u16 := 1
  const MDBA_MDB_ENTRY_INFO: u16 := 1
  const EATTR_SOURCE: u16 := 4
  const EATTR_DST: u16 := 6
  const EATTR_VNI: u16 := 8
  const EATTR_SRC_VNI: u16 := 10
  const ETH_P_IP: u16 := 0x0800
  const ETH_P_IPV6: u16 := 0x86DD
  const BR_MDB_ENTRY_LEN: nat := 28

  datatype IpAddr = Ip4(v4: Ipv4) | Ip6(v6: Ipv6)

  datatype MdbGroup = GroupV4(v4: Ipv4) | GroupV6(v6: Ipv6) | GroupMac(mac: Bytes)

  /** What the per-entry attributes contribute. */
  datatype Eattrs = Eattrs(source: Option<IpAddr>, dst: Option<IpAddr>, vni: Option<u32>)

  datatype MdbEntry = MdbEntry(portIfindex: u32, state: u8, flags: u8, vid: u16, group: MdbGroup, eattrs: Eattrs)

  // ---- one entry ----

  function IpFromNla(b: Bytes): Option<IpAddr> {
    if |b| == 4 then Some(Ip4(b)) else if |b| == 16 then Some(Ip6(b)) else None
  }

  function GroupOf(v: Bytes): MdbGroup
    requires |v| >= BR_MDB_ENTRY_LEN
  {
    var proto := GetBe16(v[24..26]);
    if proto == ETH_P_IP then GroupV4(v[8..12])
    else if proto == ETH_P_IPV6 then GroupV6(v[8..24])
    else GroupMac(v[8..14])
  }

  predicate IsVni(n: Nla) {
    n.Type() == EATTR_VNI || n.Type() == EATTR_SRC_VNI
  }

  /** An address attribute always overwrites, even with nothing; a VNI only overwrites
      when it has four octets. */
  function Absorb(e: Eattrs, n: Nla): Eattrs {
    if n.Type() == EATTR_SOURCE then e.(source := IpFromNla(n.value))
    else if n.Type() == EATTR_DST then e.(dst := IpFromNla(n.value))
    else if IsVni(n) && |n.value| == 4 then e.(vni := Some(Get32(n.value)))
    else e
  }

  function AbsorbAll(e: Eattrs, nlas: seq<Nla>): Eattrs
    decreases |nlas|
  {
    if nlas == [] then e else AbsorbAll(Absorb(e, nlas[0]), nlas[1..])
  }

  const NO_EATTRS: Eattrs := Eattrs(None, None, None)

  function EntryOf(v: Bytes): MdbEntry
    requires |v| >= BR_MDB_ENTRY_LEN
  {
    MdbEntry(Get32(v[0..4]), v[4], v[5], Get16(v[6..8]), GroupOf(v), AbsorbAll(NO_EATTRS, Scan(v[BR_MDB_ENTRY_LEN..]).nlas))
  }

  function DecodeInfo(v: Bytes): Option<MdbEntry> {
    if |v| < BR_MDB_ENTRY_LEN then None else Some(EntryOf(v))
  }

  /** `source` is the decoding of the last source attribute, ill-sized or not. */
  lemma {:induction false} LastSource(e: Eattrs, nlas: seq<Nla>, i: nat)
    requires i < |nlas| && nlas[i].Type() == EATTR_SOURCE
    requires forall j :: i < j < |nlas| ==> nlas[j].Type() != EATTR_SOURCE
    ensures AbsorbAll(e, nlas).source == IpFromNla(nlas[i].value)
    decreases |nlas|
  {
    if i == 0 {
      KeepsSource(Absorb(e, nlas[0]), nlas[1..]);
    } else {
      LastSource(Absorb(e, nlas[0]), nlas[1..], i - 1);
    }
  }

  lemma {:induction false} KeepsSource(e: Eattrs, nlas: seq<Nla>)
    requires forall j :: 0 <= j < |nlas| ==> nlas[j].Type() != EATTR_SOURCE
    ensures AbsorbAll(e, nlas).source == e.source
    decreases |nlas|
  {
    if nlas != [] {
      KeepsSource(Absorb(e, nlas[0]), nlas[1..]);
    }
  }

  lemma {:induction false} LastDst(e: Eattrs, nlas: seq<Nla>, i: nat)
    requires i < |nlas| && nlas[i].Type() == EATTR_DST
    requires forall j :: i < j < |nlas| ==> nlas[j].Type() != EATTR_DST
    ensures AbsorbAll(e, nlas).dst == IpFromNla(nlas[i].value)
    decreases |nlas|
  {
    if i == 0 {
      KeepsDst(Absorb(e, nlas[0]), nlas[1..]);
    } else {
      LastDst(Absorb(e, nlas[0]), nlas[1..], i - 1);
    }
  }

  lemma {:induction false} KeepsDst(e: Eattrs, nlas: seq<Nla>)
    requires forall j :: 0 <= j < |nlas| ==> nlas[j].Type() != EATTR_DST
    ensures AbsorbAll(e, nlas).dst == e.dst
    decreases |nlas|
  {
    if nlas != [] {
      KeepsDst(Absorb(e, nlas[0]), nlas[1..]);
    }
  }

  /** `vni` is the last four-octet value among both VNI attributes. */
  lemma {:induction false} LastVni(e: Eattrs, nlas: seq<Nla>, i: nat)
    requires i < |nlas| && IsVni(nlas[i]) && |nlas[i].value| == 4
    requires forall j :: i < j < |nlas| ==> !(IsVni(nlas[j]) && |nlas[j].value| == 4)
    ensures AbsorbAll(e, nlas).vni == Some(Get32(nlas[i].value))
    decreases |nlas|
  {
    if i == 0 {
      KeepsVni(Absorb(e, nlas[0]), nlas[1..]);
    } else {
      LastVni(Absorb(e, nlas[0]), nlas[1..], i - 1);
    }
  }

  lemma {:induction false} KeepsVni(e: Eattrs, nlas: seq<Nla>)
    requires forall j :: 0 <= j < |nlas| ==> !(IsVni(nlas[j]) && |nlas[j].value| == 4)
    ensures AbsorbAll(e, nlas).vni == e.vni
    decreases |nlas|
  {
    if nlas != [] {
      KeepsVni(Absorb(e, nlas[0]), nlas[1..]);
    }
  }

  // ---- what the fixed part and the attributes of an entry hold ----

  /** A group with the protocol that goes with it; a link-layer group can have any protocol
      that is neither IPv4 nor IPv6. */
  predicate GroupFits(g: MdbGroup, proto: u16) {
    match g
    case GroupV4(_) => proto == 0x0800
    case GroupV6(_) => proto == 0x86DD
    case GroupMac(m) => |m| == 6 && proto != 0x0800 && proto != 0x86DD
  }

  /** `struct br_mdb_entry`: the index, state, flags and vid, 16 octets of address, the
      protocol in network order, two octets of padding. */
  function EntryOctets(portIfindex: u32, state: u8, flags: u8, vid: u16, g: MdbGroup, proto: u16): (b: Bytes)
    requires GroupFits(g, proto)
    ensures |b| == 28
  {
    var address := match g case GroupV4(a) => a + Zeros(12) case GroupV6(a) => a case GroupMac(m) => m + Zeros(10);
    Put32(portIfindex) + [state, flags] + Put16(vid) + address + PutBe16(proto) + [0, 0]
  }

  lemma EntryFields(portIfindex: u32, state: u8, flags: u8, vid: u16, g: MdbGroup, proto: u16, tail: Bytes)
    requires GroupFits(g, proto)
    ensures var v := EntryOctets(portIfindex, state, flags, vid, g, proto) + tail;
            Get32(v[0..4]) == portIfindex && v[4] == state && v[5] == flags && Get16(v[6..8]) == vid &&
            GroupOf(v) == g && v[28..] == tail
  {
    hide Put32, Get32, Put16, Get16, PutBe16, GetBe16;
    var v := EntryOctets(portIfindex, state, flags, vid, g, proto) + tail;
    assert v[0..4] == Put32(portIfindex);
    assert v[6..8] == Put16(vid);
    assert v[24..26] == PutBe16(proto);
    match g
    case GroupV4(a) => assert v[8..12] == a;
    case GroupV6(a) => assert v[8..24] == a;
    case GroupMac(m) => assert v[8..14] == m;
  }

  /** An info written field by field, with any attributes after it, decodes to those fields
      and to what the attributes contribute. */
  lemma InfoIsRead(portIfindex: u32, state: u8, flags: u8, vid: u16, g: MdbGroup, proto: u16, eattrs: seq<Nla>)
    requires GroupFits(g, proto) && AllFit(eattrs)
    ensures DecodeInfo(EntryOctets(portIfindex, state, flags, vid, g, proto) + EncodeNlas(eattrs)) ==
            Some(MdbEntry(portIfindex, state, flags, vid, g, AbsorbAll(NO_EATTRS, eattrs)))
  {
    EntryFields(portIfindex, state, flags, vid, g, proto, EncodeNlas(eattrs));
    ScanExact(eattrs);
    hide EntryOctets, GroupOf, EncodeNlas, Scan, AbsorbAll;
  }

  /** On any octets, the group is a link-layer one exactly when the protocol, in octets 24 and
      25, is neither IPv4 nor IPv6. */
  lemma GroupByProtocol(v: Bytes)
    requires |v| >= 28
    ensures DecodeInfo(v).Some?
    ensures var g, proto := DecodeInfo(v).value.group, 0x100 * v[24] as int + v[25] as int;
            (g.GroupV4? <==> proto == 0x0800) && (g.GroupV6? <==> proto == 0x86DD) &&
            (g.GroupMac? <==> proto != 0x0800 && proto != 0x86DD)
  {
    hide AbsorbAll, Scan;
  }

  /** What one attribute of an entry changes, by its type. */
  lemma EattrByType(e: Eattrs, n: Nla)
    ensures n.Type() == 4 ==> Absorb(e, n) == e.(source := Absorb(e, n).source)
    ensures n.Type() == 6 ==> Absorb(e, n) == e.(dst := Absorb(e, n).dst)
    ensures n.Type() == 4 && |n.value| == 4 ==> Absorb(e, n).source == Some(Ip4(n.value))
    ensures n.Type() == 4 && |n.value| == 16 ==> Absorb(e, n).source == Some(Ip6(n.value))
    ensures n.Type() == 4 && |n.value| !in {4, 16} ==> Absorb(e, n).source == None
    ensures n.Type() == 6 && |n.value| == 4 ==> Absorb(e, n).dst == Some(Ip4(n.value))
    ensures n.Type() == 6 && |n.value| == 16 ==> Absorb(e, n).dst == Some(Ip6(n.value))
    ensures n.Type() == 6 && |n.value| !in {4, 16} ==> Absorb(e, n).dst == None
    ensures n.Type() in {8, 10} && |n.value| == 4 ==> Absorb(e, n) == e.(vni := Some(Get32(n.value)))
    ensures n.Type() in {8, 10} && |n.value| != 4 ==> Absorb(e, n) == e
    ensures n.Type() !in {4, 6, 8, 10} ==> Absorb(e, n) == e
  {
    hide Get32;
  }

  // ---- the two container levels ----

  function InfosIn(nlas: seq<Nla>): seq<MdbEntry> {
    if nlas == [] then []
    else
      (if nlas[0].Type() == MDBA_MDB_ENTRY_INFO && |nlas[0].value| >= BR_MDB_ENTRY_LEN
       then [EntryOf(nlas[0].value)] else []) + InfosIn(nlas[1..])
  }

  function EntriesIn(nlas: seq<Nla>): seq<MdbEntry> {
    if nlas == [] then []
    else
      (if nlas[0].Type() == MDBA_MDB_ENTRY then InfosIn(Scan(nlas[0].value).nlas) else []) + EntriesIn(nlas[1..])
  }

  /** Errors at any level end that level and nothing else. */
  function DecodeEntries(raw: Bytes): seq<MdbEntry> {
    EntriesIn(Scan(raw).nlas)
  }

  lemma {:induction false} InfosConcat(a: seq<Nla>, b: seq<Nla>)
    ensures InfosIn(a + b) == InfosIn(a) + InfosIn(b)
  {
    hide EntryOf;
    if a == [] {
      assert a + b == b;
    } else {
      assert (a + b)[1..] == a[1..] + b;
      InfosConcat(a[1..], b);
    }
  }

  lemma {:induction false} EntriesConcat(a: seq<Nla>, b: seq<Nla>)
    ensures EntriesIn(a + b) == EntriesIn(a) + EntriesIn(b)
  {
    if a == [] {
      assert a + b == b;
    } else {
      assert (a + b)[1..] == a[1..] + b;
      EntriesConcat(a[1..], b);
    }
  }

  /** Decoding well-framed octets followed by any octets is decoding each and appending. */
  lemma DecodeConcat(a: Bytes, b: Bytes)
    requires Scan(a).clean && |a| % 4 == 0
    ensures DecodeEntries(a + b) == DecodeEntries(a) + DecodeEntries(b)
  {
    hide Scan;
    ScanConcat(a, b);
    EntriesConcat(Scan(a).nlas, Scan(b).nlas);
  }

  /** An attribute of another type between entries changes nothing. */
  lemma OtherBetweenEntries(before: seq<Nla>, n: Nla, after: Bytes)
    requires AllFit(before) && n.Fits() && n.Type() != MDBA_MDB_ENTRY
    ensures DecodeEntries(EncodeNlas(before) + EncodeNla(n) + after) == DecodeEntries(EncodeNlas(before) + after)
  {
    hide Scan, EncodeNlas, EncodeNla;
    assert EncodeNlas(before) + EncodeNla(n) + after == EncodeNlas(before) + (EncodeNla(n) + after);
    ScanEncode(before, EncodeNla(n) + after);
    ScanCons(n, after);
    ScanEncode(before, after);
    EntriesConcat(before, [n] + Scan(after).nlas);
    EntriesConcat([n], Scan(after).nlas);
    EntriesConcat(before, Scan(after).nlas);
    assert [n][1..] == [];
    assert EntriesIn([n]) == [];
    assert [] + EntriesIn(Scan(after).nlas) == EntriesIn(Scan(after).nlas);
  }

  /** Nor does one between the infos of an entry. */
  lemma OtherBetweenInfos(before: seq<Nla>, n: Nla, after: Bytes)
    requires AllFit(before) && n.Fits() && n.Type() != MDBA_MDB_ENTRY_INFO
    ensures InfosIn(Scan(EncodeNlas(before) + EncodeNla(n) + after).nlas) == InfosIn(Scan(EncodeNlas(before) + after).nlas)
  {
    hide Scan, EncodeNlas, EncodeNla, InfosIn;
    assert EncodeNlas(before) + EncodeNla(n) + after == EncodeNlas(before) + (EncodeNla(n) + after);
    ScanEncode(before, EncodeNla(n) + after);
    ScanCons(n, after);
    ScanEncode(before, after);
    InfosConcat(before, [n] + Scan(after).nlas);
    InfosConcat(before, Scan(after).nlas);
    SkipsOther(n, Scan(after).nlas);
  }

  lemma SkipsOther(n: Nla, more: seq<Nla>)
    requires n.Type() != MDBA_MDB_ENTRY_INFO
    ensures InfosIn([n] + more) == InfosIn(more)
  {
    hide EntryOf;
    assert ([n] + more)[1..] == more;
  }

  lemma InfosOfOne(n: Nla)
    ensures InfosIn([n]) == if n.Type() == 1 && DecodeInfo(n.value).Some? then [DecodeInfo(n.value).value] else []
  {
    hide EntryOf;
    assert [n][1..] == [];
  }

  lemma EntriesOfOne(n: Nla)
    ensures EntriesIn([n]) == if n.Type() == 1 then InfosIn(Scan(n.value).nlas) else []
  {
    hide Scan, InfosIn;
    assert [n][1..] == [];
  }

  /** One info in an entry in a table comes out as its decoding; both container types are 1. */
  lemma OneEntry(info: Bytes)
    requires |info| + 12 <= 0xFFFF
    ensures DecodeEntries(EncodeNla(Nla(1, EncodeNla(Nla(1, info))))) ==
            if DecodeInfo(info).Some? then [DecodeInfo(info).value] else []
  {
    hide EncodeNla, Scan, InfosIn, EntriesIn, DecodeInfo;
    OneNested(Nla(1, info), Nla(1, EncodeNla(Nla(1, info))));
  }

  lemma OneNested(inner: Nla, outer: Nla)
    requires inner.Type() == 1 && outer.Type() == 1 && outer.value == EncodeNla(inner)
    requires inner.Fits() && outer.Fits()
    ensures DecodeEntries(EncodeNla(outer)) ==
            if DecodeInfo(inner.value).Some? then [DecodeInfo(inner.value).value] else []
  {
    hide EncodeNla, Scan, InfosIn, EntriesIn, DecodeInfo;
    ScanAlone(inner);
    ScanAlone(outer);
    InfosOfOne(inner);
    EntriesOfOne(outer);
  }

  // ---- what comes out, in which order ----

  /** Every entry-info value inside every entry, in order. */
  function InfoValues(nlas: seq<Nla>): seq<Bytes> {
    if nlas == [] then []
    else (if nlas[0].Type() == MDBA_MDB_ENTRY_INFO then [nlas[0].value] else []) + InfoValues(nlas[1..])
  }

  function AllInfoValues(nlas: seq<Nla>): seq<Bytes> {
    if nlas == [] then []
    else (if nlas[0].Type() == MDBA_MDB_ENTRY then InfoValues(Scan(nlas[0].value).nlas) else []) + AllInfoValues(nlas[1..])
  }

  function LongEnough(vs: seq<Bytes>): (ws: seq<Bytes>)
    ensures forall i :: 0 <= i < |ws| ==> |ws[i]| >= BR_MDB_ENTRY_LEN
  {
    if vs == [] then []
    else (if |vs[0]| >= BR_MDB_ENTRY_LEN then [vs[0]] else []) + LongEnough(vs[1..])
  }

  lemma {:induction false} LongEnoughConcat(a: seq<Bytes>, b: seq<Bytes>)
    ensures LongEnough(a + b) == LongEnough(a) + LongEnough(b)
  {
    if a == [] {
      assert a + b == b;
    } else {
      assert (a + b)[1..] == a[1..] + b;
      LongEnoughConcat(a[1..], b);
    }
  }

  predicate Decodes(vs: seq<Bytes>, out: seq<MdbEntry>) {
    && |out| == |vs|
    && (forall i :: 0 <= i < |vs| ==> |vs[i]| >= BR_MDB_ENTRY_LEN)
    && (forall i :: 0 <= i < |vs| ==> out[i] == EntryOf(vs[i]))
  }

  lemma DecodesConcat(va: seq<Bytes>, a: seq<MdbEntry>, vb: seq<Bytes>, b: seq<MdbEntry>)
    requires Decodes(va, a) && Decodes(vb, b)
    ensures Decodes(va + vb, a + b)
  {
    hide EntryOf;
  }

  lemma {:induction false} InfosAreLongValues(nlas: seq<Nla>)
    ensures Decodes(LongEnough(InfoValues(nlas)), InfosIn(nlas))
  {
    hide EntryOf;
    if nlas != [] {
      var first := if nlas[0].Type() == MDBA_MDB_ENTRY_INFO then [nlas[0].value] else [];
      InfosAreLongValues(nlas[1..]);
      LongEnoughConcat(first, InfoValues(nlas[1..]));
      assert first != [] ==> first[1..] == [];
      var out := if nlas[0].Type() == MDBA_MDB_ENTRY_INFO && |nlas[0].value| >= BR_MDB_ENTRY_LEN
                 then [EntryOf(nlas[0].value)] else [];
      DecodesConcat(LongEnough(first), out, LongEnough(InfoValues(nlas[1..])), InfosIn(nlas[1..]));
    }
  }

  lemma {:induction false} EntriesAreLongValues(nlas: seq<Nla>)
    ensures Decodes(LongEnough(AllInfoValues(nlas)), EntriesIn(nlas))
  {
    hide EntryOf, Scan, Decodes;
    if nlas == [] {
      InfosAreLongValues([]);
    } else {
      var inner := Scan(nlas[0].value).nlas;
      var first := if nlas[0].Type() == MDBA_MDB_ENTRY then InfoValues(inner) else [];
      var out := if nlas[0].Type() == MDBA_MDB_ENTRY then InfosIn(inner) else [];
      EntriesAreLongValues(nlas[1..]);
      InfosAreLongValues(inner);
      InfosAreLongValues([]);
      LongEnoughConcat(first, AllInfoValues(nlas[1..]));
      DecodesConcat(LongEnough(first), out, LongEnough(AllInfoValues(nlas[1..])), EntriesIn(nlas[1..]));
    }
  }

  /** The result has exactly one entry, in order, for each entry-info value of at least 28 octets. */
  lemma OutputsAreLongInfos(raw: Bytes)
    ensures Decodes(LongEnough(AllInfoValues(Scan(raw).nlas)), DecodeEntries(raw))
  {
    EntriesAreLongValues(Scan(raw).nlas);
  }

  // ---- the loops ----

  method ParseEntryInfo(value: Bytes) returns (r: Option<MdbEntry>)
    ensures r == DecodeInfo(value)
  {
    if |value| < BR_MDB_ENTRY_LEN {
      return None;
    }
    var source: Option<IpAddr>, dst: Option<IpAddr>, vni: Option<u32> := None, None, None;
    var payload := value[BR_MDB_ENTRY_LEN..];
    var it := Iterate(payload);
    assert it.Rest() == payload;
    while it.Item().Some?
      invariant it.buffer == payload
      invariant AbsorbAll(Eattrs(source, dst, vni), Scan(it.Rest()).nlas) == AbsorbAll(NO_EATTRS, Scan(payload).nlas)
      decreases |payload| - it.position
    {
      var item := it.Item().value;
      if item.Ok? {
        var n := item.value;
        assert Scan(it.Rest()).nlas[0] == n && Scan(it.Rest()).nlas[1..] == Scan(AfterHead(it.Rest())).nlas;
        if n.Type() == EATTR_SOURCE {
          source := IpFromNla(n.value);
        } else if n.Type() == EATTR_DST {
          dst := IpFromNla(n.value);
        } else if n.Type() == EATTR_VNI || n.Type() == EATTR_SRC_VNI {
          if |n.value| == 4 {
            vni := Some(Get32(n.value));
          }
        }
      }
      it := it.Advance();
    }
    return Some(MdbEntry(Get32(value[0..4]), value[4], value[5], Get16(value[6..8]), GroupOf(value), Eattrs(source, dst, vni)));
  }

  /** `out` and then every info in the payload `b`. */
  function WithInfos(out: seq<MdbEntry>, b: Bytes): seq<MdbEntry> {
    out + InfosIn(Scan(b).nlas)
  }

  lemma WithInfosStep(out: seq<MdbEntry>, b: Bytes)
    ensures b == [] || !HeadOk(b) ==> WithInfos(out, b) == out
    ensures b != [] && HeadOk(b) ==>
              var first := if Head(b).Type() == MDBA_MDB_ENTRY_INFO && DecodeInfo(Head(b).value).Some?
                           then [DecodeInfo(Head(b).value).value] else [];
              WithInfos(out, b) == WithInfos(out + first, AfterHead(b))
  {
    hide EntryOf, HeadOk, Head, AfterHead;
    if b != [] && HeadOk(b) {
      var nlas, more := Scan(b).nlas, Scan(AfterHead(b)).nlas;
      assert nlas[0] == Head(b) && nlas[1..] == more;
      hide Scan;
      var first := if Head(b).Type() == MDBA_MDB_ENTRY_INFO && DecodeInfo(Head(b).value).Some?
                   then [DecodeInfo(Head(b).value).value] else [];
      assert InfosIn(nlas) == first + InfosIn(more);
      assert out + (first + InfosIn(more)) == out + first + InfosIn(more);
    }
  }

  /** The inner loop of `parse_mdb_entries`. */
  method ParseEntryPayload(payload: Bytes, out: seq<MdbEntry>) returns (r: seq<MdbEntry>)
    ensures r == WithInfos(out, payload)
  {
    hide WithInfos, DecodeInfo;
    r := out;
    var it := Iterate(payload);
    assert it.Rest() == payload;
    while it.Item().Some?
      invariant it.buffer == payload
      invariant WithInfos(r, it.Rest()) == WithInfos(out, payload)
      decreases |payload| - it.position
    {
      var item := it.Item().value;
      WithInfosStep(r, it.Rest());
      if item.Ok? {
        assert r + [] == r;
        if item.value.Type() == MDBA_MDB_ENTRY_INFO {
          var decoded := ParseEntryInfo(item.value.value);
          if decoded.Some? {
            r := r + [decoded.value];
          }
        }
      } else {
        WithInfosStep(r, []);
      }
      it := it.Advance();
    }
    WithInfosStep(r, []);
  }

  /** `out` and then every entry in the octets `b`. */
  function WithEntries(out: seq<MdbEntry>, b: Bytes): seq<MdbEntry> {
    out + EntriesIn(Scan(b).nlas)
  }

  lemma WithEntriesStep(out: seq<MdbEntry>, b: Bytes)
    ensures b == [] || !HeadOk(b) ==> WithEntries(out, b) == out
    ensures b != [] && HeadOk(b) && Head(b).Type() != MDBA_MDB_ENTRY ==>
              WithEntries(out, b) == WithEntries(out, AfterHead(b))
    ensures b != [] && HeadOk(b) && Head(b).Type() == MDBA_MDB_ENTRY ==>
              WithEntries(out, b) == WithEntries(WithInfos(out, Head(b).value), AfterHead(b))
  {
    hide InfosIn;
    if b != [] && HeadOk(b) {
      assert Scan(b).nlas[0] == Head(b) && Scan(b).nlas[1..] == Scan(AfterHead(b)).nlas;
    }
  }

  /** The nested loops of `parse_mdb_entries`, pushing into one vector. */
  method ParseEntries(raw: Bytes) returns (out: seq<MdbEntry>)
    ensures out == DecodeEntries(raw)
  {
    out := [];
    var it := Iterate(raw);
    assert it.Rest() == raw;
    assert WithEntries(out, raw) == DecodeEntries(raw);
    hide WithInfos, WithEntries, DecodeEntries;
    while it.Item().Some?
      invariant it.buffer == raw
      invariant WithEntries(out, it.Rest()) == DecodeEntries(raw)
      decreases |raw| - it.position
    {
      var item := it.Item().value;
      WithEntriesStep(out, it.Rest());
      if item.Ok? {
        if item.value.Type() == MDBA_MDB_ENTRY {
          out := ParseEntryPayload(item.value.value, out);
        }
      } else {
        WithEntriesStep(out, []);
      }
      it := it.Advance();
    }
    WithEntriesStep(out, []);
  }

  // ---- messages ----

  datatype MdbAttribute = MdbTable(raw: Bytes) | Mroute(raw: Bytes) | ExtAttrs(raw: Bytes) | MdbOther(nla: Nla) {
    /** `Other` keeps the kind without its flag bits. */
    predicate Valid() {
      MdbOther? ==> nla.kind < 0x4000 && nla.kind !in {1, 2, 3}
    }
  }

  datatype MdbMessage = MdbMessage(family: AddressFamily, index: u32, attributes: seq<MdbAttribute>)

  function RawMdb(a: MdbAttribute): Nla {
    match a
    case MdbTable(b) => Nla(1, b)
    case Mroute(b) => Nla(2, b)
    case ExtAttrs(b) => Nla(3, b)
    case MdbOther(n) => n
  }

  function DecodeMdb(n: Nla): Result<MdbAttribute> {
    match n.Type()
    case 1 => Ok(MdbTable(n.value))
    case 2 => Ok(Mroute(n.value))
    case 3 => Ok(ExtAttrs(n.value))
    case t => Ok(MdbOther(Nla(t, n.value)))
  }

  function MdbFixedPart(m: MdbMessage): (b: Bytes)
    ensures |b| == 8
  {
    [m.family.Code(), 0, 0, 0] + Put32(m.index)
  }

  function EncodeMdbMessage(m: MdbMessage): Bytes {
    MdbFixedPart(m) + EncodeNlas(Map(m.attributes, RawMdb))
  }

  function DecodeMdbMessage(b: Bytes): Result<MdbMessage> {
    if |b| < 8 then Err
    else
      var xs :- DecodeList(b[8..], DecodeMdb);
      Ok(MdbMessage(FamilyOf(b[0]), Get32(b[4..8]), xs))
  }

  /** A size-bounded message comes back exactly when its family is canonical and no `Other`
      carries flag bits or a known type. */
  lemma MdbMessageRoundTrip(m: MdbMessage)
    requires AllFit(Map(m.attributes, RawMdb))
    ensures DecodeMdbMessage(EncodeMdbMessage(m)) == Ok(m) <==>
            m.family.Canonical() && forall i :: 0 <= i < |m.attributes| ==> m.attributes[i].Valid()
  {
    hide Scan, EncodeNlas, FamilyOf;
    var b := EncodeMdbMessage(m);
    assert b[8..] == EncodeNlas(Map(m.attributes, RawMdb));
    assert b[4..8] == Put32(m.index);
    FamilyRoundTrip(m.family, 0);
    ScanExact(Map(m.attributes, RawMdb));
    DecodeAllOk(Map(m.attributes, RawMdb), true, DecodeMdb, m.attributes);
    forall i | 0 <= i < |m.attributes|
      ensures DecodeMdb(RawMdb(m.attributes[i])) == Ok(m.attributes[i]) <==> m.attributes[i].Valid()
    {
    }
  }

  /** `entries`: every table attribute decoded, in order. */
  function Entries(xs: seq<MdbAttribute>): seq<MdbEntry> {
    if xs == [] then []
    else (if xs[0].MdbTable? then DecodeEntries(xs[0].raw) else []) + Entries(xs[1..])
  }

  function Tables(xs: seq<MdbAttribute>): Bytes {
    if xs == [] then [] else (if xs[0].MdbTable? then xs[0].raw else []) + Tables(xs[1..])
  }

  /** Splitting a table over several attributes does not change its entries. */
  lemma {:induction false} EntriesOfTables(xs: seq<MdbAttribute>)
    requires forall i :: 0 <= i < |xs| && xs[i].MdbTable? ==> Scan(xs[i].raw).clean && |xs[i].raw| % 4 == 0
    ensures Entries(xs) == DecodeEntries(Tables(xs))
  {
    hide Scan;
    if xs == [] {
      ScanExact([]);
    } else {
      EntriesOfTables(xs[1..]);
      if xs[0].MdbTable? {
        DecodeConcat(xs[0].raw, Tables(xs[1..]));
      } else {
        assert Tables(xs) == Tables(xs[1..]);
      }
    }
  }

  /** `emit`: octets 1 to 3 are cleared, the index goes to 4..8, the attributes follow. */
  method EmitMdbMessage(m: MdbMessage) returns (buf: array<u8>)
    ensures fresh(buf) && buf[..] == EncodeMdbMessage(m)
  {
    var nlas := Map(m.attributes, RawMdb);
    hide EncodeNlas, RawMdb, Map;
    NlasLenIs(nlas);
    buf := new u8[8 + NlasLen(nlas)](i => 0);
    ghost var s := buf[..];
    assert Splice(s, 0, EncodeMdbMessage(m)) == EncodeMdbMessage(m);
    hide Splice;
    CopyInto(buf, 0, MdbFixedPart(m));
    EmitNlas(buf, 8, nlas);
    SpliceTwice(s, 0, MdbFixedPart(m), EncodeNlas(nlas));
  }
}
