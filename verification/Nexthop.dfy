/** Nexthop objects: src/nexthop/attribute.rs, group.rs, message.rs, header.rs. */
module Nexthop {
  import opened Wire
  import opened Framing
  import opened Families
  import opened Encap

  // ---- group members: 8-octet records ----

  datatype NexthopGroup = NexthopGroup(id: u32, weight: u8, weightHigh: u8, resvd2: u16)

  function EncodeGroup(g: NexthopGroup): (b: Bytes)
    ensures |b| == 8
  {
    Put32(g.id) + [g.weight, g.weightHigh] + Put16(g.resvd2)
  }

  function DecodeGroup(b: Bytes): NexthopGroup
    requires |b| == 8
  {
    NexthopGroup(Get32(b[..4]), b[4], b[5], Get16(b[6..8]))
  }

  lemma GroupRoundTrip(g: NexthopGroup)
    ensures DecodeGroup(EncodeGroup(g)) == g
  {
    hide Put32, Get32, Put16, Get16;
    var b := EncodeGroup(g);
    assert b[..4] == Put32(g.id) && b[6..8] == Put16(g.resvd2);
  }

  lemma GroupOctets(b: Bytes)
    requires |b| == 8
    ensures EncodeGroup(DecodeGroup(b)) == b
  {
    PutGet32(b[..4]);
    PutGet16(b[6..8]);
    hide Put32, Get32, Put16, Get16;
    assert b == b[..4] + [b[4], b[5]] + b[6..8];
  }

  function EncodeGroups(gs: seq<NexthopGroup>): (b: Bytes)
    ensures |b| == 8 * |gs|
  {
    if gs == [] then [] else EncodeGroup(gs[0]) + EncodeGroups(gs[1..])
  }

  function DecodeGroups(b: Bytes): seq<NexthopGroup> {
    if |b| < 8 then [] else [DecodeGroup(b[..8])] + DecodeGroups(b[8..])
  }

  lemma {:induction false} GroupsRoundTrip(gs: seq<NexthopGroup>)
    ensures DecodeGroups(EncodeGroups(gs)) == gs
  {
    hide EncodeGroup, DecodeGroup;
    if gs != [] {
      var b := EncodeGroups(gs);
      assert b[..8] == EncodeGroup(gs[0]);
      assert b[8..] == EncodeGroups(gs[1..]);
      GroupRoundTrip(gs[0]);
      GroupsRoundTrip(gs[1..]);
    }
  }

  /** A payload keeps its whole 8-octet records and loses what is left over. */
  lemma {:induction false} GroupsPrefix(b: Bytes)
    ensures EncodeGroups(DecodeGroups(b)) == b[..|b| - |b| % 8]
    decreases |b|
  {
    hide EncodeGroup, DecodeGroup;
    if |b| >= 8 {
      var n := |b[8..]| - |b[8..]| % 8;
      GroupsPrefix(b[8..]);
      GroupOctets(b[..8]);
      assert DecodeGroups(b)[1..] == DecodeGroups(b[8..]);
      assert b[..8] + b[8..][..n] == b[..n + 8];
    }
  }

  /** `while i + 8 <= payload.len()`. */
  method ParseGroups(payload: Bytes) returns (groups: seq<NexthopGroup>)
    ensures groups == DecodeGroups(payload)
  {
    hide DecodeGroup;
    groups := [];
    var i := 0;
    while i + 8 <= |payload|
      invariant 0 <= i <= |payload|
      invariant groups + DecodeGroups(payload[i..]) == DecodeGroups(payload)
    {
      assert payload[i..][..8] == payload[i..i + 8];
      assert payload[i..][8..] == payload[i + 8..];
      var g := DecodeGroup(payload[i..i + 8]);
      assert groups + ([g] + DecodeGroups(payload[i + 8..])) == groups + [g] + DecodeGroups(payload[i + 8..]);
      groups := groups + [g];
      i := i + 8;
    }
    assert groups + [] == groups;
  }

  lemma {:induction false} EncodeGroupsSnoc(gs: seq<NexthopGroup>, g: NexthopGroup)
    ensures EncodeGroups(gs + [g]) == EncodeGroups(gs) + EncodeGroup(g)
  {
    hide EncodeGroup;
    if gs == [] {
      assert [g][1..] == [];
    } else {
      assert (gs + [g])[1..] == gs[1..] + [g];
      EncodeGroupsSnoc(gs[1..], g);
    }
  }

  /** The running `offset` of the group arm. */
  method EmitGroups(buf: array<u8>, off: nat, gs: seq<NexthopGroup>)
    requires off + 8 * |gs| <= buf.Length
    modifies buf
    ensures buf[..] == Splice(old(buf[..]), off, EncodeGroups(gs))
  {
    ghost var s := buf[..];
    SpliceNothing(s, off);
    assert EncodeGroups(gs[..0]) == [];
    assert gs[..|gs|] == gs;
    hide EncodeGroup, EncodeGroups, Splice;
    var offset := off;
    ghost var done: Bytes := [];
    for i := 0 to |gs|
      invariant offset == off + 8 * i && |done| == 8 * i
      invariant done == EncodeGroups(gs[..i]) && buf[..] == Splice(s, off, done)
    {
      CopyInto(buf, offset, EncodeGroup(gs[i]));
      assert gs[..i + 1] == gs[..i] + [gs[i]];
      EncodeGroupsSnoc(gs[..i], gs[i]);
      SpliceTwice(s, off, done, EncodeGroup(gs[i]));
      done := done + EncodeGroup(gs[i]);
      offset := offset + 8;
    }
  }

  // ---- attributes ----

  datatype NexthopAttribute =
    | Id(v: u32)
    | Group(groups: seq<NexthopGroup>)
    | GroupType(t: u16)
    | Blackhole
    | Oif(v: u32)
    | Gateway(addr: RouteAddress)
    | EncapTypeIs(t: u16)
    | Encaps(encaps: seq<TunnelEncap>)
    | Groups
    | Master(v: u32)
    | Fdb
    | Other(nla: Nla)
  {
    predicate Fits(family: AddressFamily) {
      match this
      case Gateway(a) => a.FitsFamily(family)
      case Other(n) => n.Type() !in {1, 2, 3, 4, 5, 6, 7, 9, 10, 11}
      case _ => true
    }

    /** There is no arm for NHA_ENCAP: an encapsulation is read back as its raw attribute. */
    function AsDecoded(): NexthopAttribute {
      if Encaps? then Other(RawNexthop(this)) else this
    }
  }

  function RawNexthop(a: NexthopAttribute): Nla {
    match a
    case Id(v) => Nla(1, Put32(v))
    case Group(gs) => Nla(2, EncodeGroups(gs))
    case GroupType(t) => Nla(3, Put16(t))
    case Blackhole => Nla(4, [])
    case Oif(v) => Nla(5, Put32(v))
    case Gateway(a) => Nla(6, EncodeAddress(a))
    case EncapTypeIs(t) => Nla(7, Put16(t))
    case Encaps(es) => Nla(8 + NLA_F_NESTED, EncodeEncaps(es))
    case Groups => Nla(9, [])
    case Master(v) => Nla(10, Put32(v))
    case Fdb => Nla(11, [])
    case Other(n) => n
  }

  function DecodeNexthop(family: AddressFamily, n: Nla): Result<NexthopAttribute> {
    match n.Type()
    case 1 =>
      var v :- ParseU32(n.value);
      Ok(Id(v))
    case 2 => Ok(Group(DecodeGroups(n.value)))
    case 3 =>
      var t :- ParseU16(n.value);
      Ok(GroupType(t))
    case 4 => Ok(Blackhole)
    case 5 =>
      var v :- ParseU32(n.value);
      Ok(Oif(v))
    case 6 =>
      var a :- DecodeAddress(family, n.value);
      Ok(Gateway(a))
    case 7 =>
      var t :- ParseU16(n.value);
      Ok(EncapTypeIs(t))
    case 9 => Ok(Groups)
    case 10 =>
      var v :- ParseU32(n.value);
      Ok(Master(v))
    case 11 => Ok(Fdb)
    case _ => Ok(Other(n))
  }

  function NexthopDecoder(family: AddressFamily): Nla -> Result<NexthopAttribute> {
    n => DecodeNexthop(family, n)
  }

  lemma NexthopAttributeDecodes(family: AddressFamily, a: NexthopAttribute)
    requires a.Fits(family)
    ensures DecodeNexthop(family, RawNexthop(a)) == Ok(a.AsDecoded())
    ensures RawNexthop(a.AsDecoded()) == RawNexthop(a)
  {
    hide Put32, Get32, Put16, Get16, EncodeGroups, DecodeGroups, EncodeAddress, DecodeAddress, EncodeEncaps;
    match a
    case Group(gs) => GroupsRoundTrip(gs);
    case Gateway(addr) => AddressRoundTrip(family, addr);
    case _ =>
  }

  /** What is emitted for an encapsulation is what the encapsulation codec reads back under
      the encap type of its variants, under NHA_ENCAP with the nested flag. */
  lemma EncapsAreReadable(t: EncapType, es: seq<TunnelEncap>)
    requires AllFitType(es, t) && |RawNexthop(Encaps(es)).value| <= 0xFFFF
    ensures RawNexthop(Encaps(es)).kind == 0x8008 && RawNexthop(Encaps(es)).Type() == 8
    ensures DecodeEncaps(t, RawNexthop(Encaps(es)).value) == Ok(NormalEncaps(es))
  {
    hide EncodeEncaps, DecodeEncaps, AllFitType;
    EncapsRoundTrip(t, es);
  }

  lemma NexthopAttributeSound(family: AddressFamily, n: Nla)
    requires DecodeNexthop(family, n).Ok?
    ensures DecodeNexthop(family, n).value.Fits(family) && !DecodeNexthop(family, n).value.Encaps?
  {
    hide DecodeAddress, DecodeGroups;
    if n.Type() == 6 {
      AddressSound(family, n.value);
    }
  }

  // ---- messages ----

  datatype NexthopMessage = NexthopMessage(
    family: AddressFamily, scope: u8, protocol: u8, resvd: u8, flags: u32, attributes: seq<NexthopAttribute>)

  function NexthopFixedPart(m: NexthopMessage): (b: Bytes)
    ensures |b| == 8
  {
    [m.family.Code(), m.scope, m.protocol, m.resvd] + Put32(m.flags)
  }

  function RawNexthops(m: NexthopMessage): seq<Nla> {
    Map(m.attributes, RawNexthop)
  }

  function EncodeNexthopMessage(m: NexthopMessage): Bytes {
    NexthopFixedPart(m) + EncodeNlas(RawNexthops(m))
  }

  function DecodeNexthopMessage(b: Bytes): Result<NexthopMessage> {
    if |b| < 8 then Err
    else
      var family := FamilyOf(b[0]);
      var xs :- DecodeList(b[8..], NexthopDecoder(family));
      Ok(NexthopMessage(family, b[1], b[2], b[3], Get32(b[4..8]), xs))
  }

  predicate FitsItsFamily(m: NexthopMessage) {
    m.family.Canonical() && forall i :: 0 <= i < |m.attributes| ==> m.attributes[i].Fits(m.family)
  }

  function AsDecoded(m: NexthopMessage): NexthopMessage {
    m.(attributes := Map(m.attributes, (a: NexthopAttribute) => a.AsDecoded()))
  }

  lemma DecodeEncoded(m: NexthopMessage)
    requires AllFit(RawNexthops(m)) && m.family.Canonical()
    ensures DecodeNexthopMessage(EncodeNexthopMessage(m)) ==
            match DecodeAll(RawNexthops(m), true, NexthopDecoder(m.family))
            case Ok(xs) => Ok(m.(attributes := xs))
            case Err => Err
            case Panic => Panic
  {
    hide Scan, EncodeNlas, FamilyOf, DecodeAll, RawNexthops;
    var b := EncodeNexthopMessage(m);
    assert b[8..] == EncodeNlas(RawNexthops(m));
    assert b[4..8] == Put32(m.flags);
    FamilyRoundTrip(m.family, 0);
    ScanExact(RawNexthops(m));
  }

  /** Emit, parse, emit: a message that fits its family gives the same octets again, even
      though its encapsulations come back as raw attributes. */
  lemma ByteStable(m: NexthopMessage)
    requires AllFit(RawNexthops(m)) && FitsItsFamily(m)
    ensures DecodeNexthopMessage(EncodeNexthopMessage(m)) == Ok(AsDecoded(m))
    ensures EncodeNexthopMessage(AsDecoded(m)) == EncodeNexthopMessage(m)
  {
    hide EncodeNlas, RawNexthop, DecodeNexthop, DecodeNexthopMessage;
    var nlas, xs := RawNexthops(m), AsDecoded(m).attributes;
    forall i | 0 <= i < |nlas|
      ensures NexthopDecoder(m.family)(nlas[i]) == Ok(xs[i]) && RawNexthop(xs[i]) == nlas[i]
    {
      NexthopAttributeDecodes(m.family, m.attributes[i]);
    }
    DecodeAllOk(nlas, true, NexthopDecoder(m.family), xs);
    DecodeEncoded(m);
    assert RawNexthops(AsDecoded(m)) == nlas;
  }

  /** It comes back unchanged exactly when it fits its family and holds no encapsulation. */
  lemma NexthopRoundTrip(m: NexthopMessage)
    requires AllFit(RawNexthops(m))
    ensures DecodeNexthopMessage(EncodeNexthopMessage(m)) == Ok(m) <==>
            FitsItsFamily(m) && forall i :: 0 <= i < |m.attributes| ==> !m.attributes[i].Encaps?
  {
    var b := EncodeNexthopMessage(m);
    FamilyRoundTrip(m.family, b[0]);
    if FitsItsFamily(m) && forall i :: 0 <= i < |m.attributes| ==> !m.attributes[i].Encaps? {
      ByteStable(m);
      assert AsDecoded(m).attributes == m.attributes;
    }
    if DecodeNexthopMessage(b) == Ok(m) {
      DecodeAllOk(Scan(b[8..]).nlas, Scan(b[8..]).clean, NexthopDecoder(m.family), m.attributes);
      hide DecodeNexthop, RawNexthop;
      forall i | 0 <= i < |m.attributes| ensures m.attributes[i].Fits(m.family) && !m.attributes[i].Encaps? {
        NexthopAttributeSound(m.family, Scan(b[8..]).nlas[i]);
      }
    }
  }
}
