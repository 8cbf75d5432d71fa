/** VXLAN VNI-filter messages: src/tunnel/message.rs, src/tunnel/header.rs. */
module Tunnel {
  import opened Wire
  import opened Framing
  import opened Families

  const VNIFILTER_ENTRY: u16 := 1
  const VNIFILTER_ENTRY_START: u16 := 1
  const TUNNEL_HEADER_LEN: nat := 8
  const ENTRY_LEN: nat := 4 + 4 + 4

  datatype TunnelMessage = TunnelMessage(family: AddressFamily, flags: u8, index: u32, vnis: seq<u32>)

  // ---- the encoding, in terms of nested attributes ----

  function RawEntry(vni: u32): Nla {
    Nla(VNIFILTER_ENTRY + NLA_F_NESTED, EncodeNla(Nla(VNIFILTER_ENTRY_START, Put32(vni))))
  }

  function TunnelFixedPart(m: TunnelMessage): (b: Bytes)
    ensures |b| == TUNNEL_HEADER_LEN
  {
    [m.family.Code(), m.flags, 0, 0] + Put32(m.index)
  }

  function EncodeTunnelMessage(m: TunnelMessage): Bytes {
    TunnelFixedPart(m) + EncodeNlas(Map(m.vnis, RawEntry))
  }

  // ---- decoding ----

  /** The VNI an attribute of an entry adds, if it adds one. */
  function VniOf(n: Nla): seq<u32> {
    if n.Type() == VNIFILTER_ENTRY_START && |n.value| == 4 then [Get32(n.value)] else []
  }

  function VnisIn(nlas: seq<Nla>): seq<u32> {
    if nlas == [] then [] else VniOf(nlas[0]) + VnisIn(nlas[1..])
  }

  function EntriesIn(nlas: seq<Nla>): seq<u32> {
    if nlas == [] then []
    else (if nlas[0].Type() == VNIFILTER_ENTRY then VnisIn(Scan(nlas[0].value).nlas) else []) + EntriesIn(nlas[1..])
  }

  function DecodeTunnelMessage(b: Bytes): Result<TunnelMessage> {
    if |b| < TUNNEL_HEADER_LEN then Err
    else Ok(TunnelMessage(FamilyOf(b[0]), b[1], Get32(b[4..8]), EntriesIn(Scan(b[TUNNEL_HEADER_LEN..]).nlas)))
  }

  lemma EntryHoldsVni(vni: u32)
    ensures RawEntry(vni).Fits() && RawEntry(vni).Type() == VNIFILTER_ENTRY
    ensures VnisIn(Scan(RawEntry(vni).value).nlas) == [vni]
  {
    var inner := Nla(VNIFILTER_ENTRY_START, Put32(vni));
    ScanCons(inner, []);
    assert EncodeNla(inner) + [] == EncodeNla(inner);
    assert Scan(EncodeNla(inner)) == Join([inner], Scan([]));
    assert Scan([]).nlas == [];
    hide Scan;
    assert Scan(RawEntry(vni).value).nlas == [inner];
    assert [inner][1..] == [];
  }

  lemma {:induction false} EntriesRoundTrip(vnis: seq<u32>)
    ensures AllFit(Map(vnis, RawEntry)) && EntriesIn(Map(vnis, RawEntry)) == vnis
  {
    hide RawEntry, Scan, VnisIn;
    forall i | 0 <= i < |vnis| ensures Map(vnis, RawEntry)[i].Fits() {
      EntryHoldsVni(vnis[i]);
    }
    if vnis != [] {
      EntryHoldsVni(vnis[0]);
      EntriesRoundTrip(vnis[1..]);
      assert Map(vnis, RawEntry)[1..] == Map(vnis[1..], RawEntry);
      assert vnis == [vnis[0]] + vnis[1..];
    }
  }

  /** Every list of VNIs comes back; the header does exactly when its family is canonical. */
  lemma TunnelRoundTrip(m: TunnelMessage)
    ensures DecodeTunnelMessage(EncodeTunnelMessage(m)) == Ok(m) <==> m.family.Canonical()
    ensures DecodeTunnelMessage(EncodeTunnelMessage(m)).Ok?
    ensures DecodeTunnelMessage(EncodeTunnelMessage(m)).value.vnis == m.vnis
  {
    hide RawEntry, Scan, EncodeNlas, EntriesIn, FamilyOf;
    var nlas := Map(m.vnis, RawEntry);
    var b := EncodeTunnelMessage(m);
    assert b[TUNNEL_HEADER_LEN..] == EncodeNlas(nlas);
    assert b[4..8] == Put32(m.index);
    EntriesRoundTrip(m.vnis);
    ScanExact(nlas);
    FamilyRoundTrip(m.family, 0);
  }

  // ---- what adds a VNI and what does not ----

  lemma {:induction false} VnisConcat(a: seq<Nla>, b: seq<Nla>)
    ensures VnisIn(a + b) == VnisIn(a) + VnisIn(b)
  {
    hide VniOf;
    if a == [] {
      assert a + b == b;
    } else {
      assert (a + b)[1..] == a[1..] + b;
      VnisConcat(a[1..], b);
    }
  }

  lemma {:induction false} EntriesConcat(a: seq<Nla>, b: seq<Nla>)
    ensures EntriesIn(a + b) == EntriesIn(a) + EntriesIn(b)
  {
    if a == [] {
      assert a + b == b;
    } else {
      assert (a + b)[1..] == a[1..] + b;
      EntriesConcat(a[1..], b);
    }
  }

  /** Inside an entry, an attribute of type 1 with four octets adds its VNI at its place, and
      any other attribute adds nothing. */
  lemma InnerAdds(before: seq<Nla>, n: Nla, after: seq<Nla>)
    ensures VnisIn(before + [n] + after) ==
            VnisIn(before) + (if n.Type() == 1 && |n.value| == 4 then [Get32(n.value)] else []) + VnisIn(after)
  {
    VnisConcat(before + [n], after);
    VnisConcat(before, [n]);
    assert [n][1..] == [];
    assert VnisIn([n]) == VniOf(n) + VnisIn([n][1..]);
    hide Get32;
  }

  /** Among the attributes of a message, one of type 1 adds the VNIs inside it at its place, and
      any other adds nothing. */
  lemma OuterAdds(before: seq<Nla>, n: Nla, after: seq<Nla>)
    ensures EntriesIn(before + [n] + after) ==
            EntriesIn(before) + (if n.Type() == 1 then VnisIn(Scan(n.value).nlas) else []) + EntriesIn(after)
  {
    EntriesConcat(before + [n], after);
    EntriesConcat(before, [n]);
    hide VnisIn, Scan;
    assert [n][1..] == [];
    assert EntriesIn([n][1..]) == [];
  }

  // ---- the hand-offset encoder ----

  /** The five writes for one VNI, at offsets 0, 2, 4, 6 and 8 of its entry. */
  function EntryOctets(vni: u32): (b: Bytes)
    ensures |b| == ENTRY_LEN
  {
    Put16(ENTRY_LEN) + Put16(VNIFILTER_ENTRY + NLA_F_NESTED) + Put16(8) + Put16(VNIFILTER_ENTRY_START) + Put32(vni)
  }

  lemma EntryOctetsAreNested(vni: u32)
    ensures EntryOctets(vni) == EncodeNla(RawEntry(vni))
  {
    hide Put16, Put32;
    var inner := Nla(VNIFILTER_ENTRY_START, Put32(vni));
    assert Zeros(0) == [];
    assert EncodeNla(inner) == Put16(8) + Put16(VNIFILTER_ENTRY_START) + Put32(vni);
    assert EncodeNla(RawEntry(vni)) == Put16(ENTRY_LEN) + Put16(VNIFILTER_ENTRY + NLA_F_NESTED) + EncodeNla(inner);
  }

  /** The octets around a VNI: length 12, type 1 with the nested flag, length 8, type 1. */
  lemma EntryHeaders(vni: u32)
    ensures EntryOctets(vni) == [12, 0, 1, 0x80, 8, 0, 1, 0] + Put32(vni)
  {
    hide Put32;
  }

  method EmitEntry(buf: array<u8>, off: nat, vni: u32)
    requires off + ENTRY_LEN <= buf.Length
    modifies buf
    ensures buf[..] == Splice(old(buf[..]), off, EntryOctets(vni))
  {
    hide Splice, Put16, Put32;
    ghost var s := buf[..];
    ghost var done := Put16(ENTRY_LEN);
    CopyInto(buf, off, Put16(ENTRY_LEN));
    CopyInto(buf, off + 2, Put16(VNIFILTER_ENTRY + NLA_F_NESTED));
    SpliceTwice(s, off, done, Put16(VNIFILTER_ENTRY + NLA_F_NESTED));
    done := done + Put16(VNIFILTER_ENTRY + NLA_F_NESTED);
    CopyInto(buf, off + 4, Put16(8));
    SpliceTwice(s, off, done, Put16(8));
    done := done + Put16(8);
    CopyInto(buf, off + 6, Put16(VNIFILTER_ENTRY_START));
    SpliceTwice(s, off, done, Put16(VNIFILTER_ENTRY_START));
    done := done + Put16(VNIFILTER_ENTRY_START);
    CopyInto(buf, off + 8, Put32(vni));
    SpliceTwice(s, off, done, Put32(vni));
  }

  lemma {:induction false} EntriesLen(vnis: seq<u32>)
    ensures |EncodeNlas(Map(vnis, RawEntry))| == 12 * |vnis|
  {
    hide RawEntry;
    if vnis != [] {
      EntryOctetsAreNested(vnis[0]);
      EntriesLen(vnis[1..]);
      assert Map(vnis, RawEntry)[1..] == Map(vnis[1..], RawEntry);
    }
  }

  /** The header and the entries of the first `i` VNIs. */
  function Prefix(m: TunnelMessage, i: nat): (b: Bytes)
    requires i <= |m.vnis|
  {
    TunnelFixedPart(m) + EncodeNlas(Map(m.vnis[..i], RawEntry))
  }

  lemma PrefixStep(m: TunnelMessage, i: nat)
    requires i < |m.vnis|
    ensures Prefix(m, i + 1) == Prefix(m, i) + EntryOctets(m.vnis[i])
    ensures |Prefix(m, i)| == TUNNEL_HEADER_LEN + 12 * i
  {
    hide RawEntry, EncodeNlas, EntryOctets;
    var vnis := m.vnis;
    assert Map(vnis[..i + 1], RawEntry) == Map(vnis[..i], RawEntry) + [RawEntry(vnis[i])];
    EncodeSnoc(Map(vnis[..i], RawEntry), RawEntry(vnis[i]));
    EntryOctetsAreNested(vnis[i]);
    EntriesLen(vnis[..i]);
  }

  lemma PrefixEnds(m: TunnelMessage)
    ensures Prefix(m, 0) == TunnelFixedPart(m)
    ensures Prefix(m, |m.vnis|) == EncodeTunnelMessage(m)
    ensures |EncodeTunnelMessage(m)| == TUNNEL_HEADER_LEN + 12 * |m.vnis|
  {
    EntriesLen(m.vnis);
    assert m.vnis[..|m.vnis|] == m.vnis;
    assert Map(m.vnis[..0], RawEntry) == [];
  }

  /** The loop with its running `off`: from the fixed part to the whole message. */
  method EmitEntries(buf: array<u8>, m: TunnelMessage, ghost s: Bytes)
    requires buf.Length == |s| == TUNNEL_HEADER_LEN + 12 * |m.vnis|
    requires buf[..] == Splice(s, 0, Prefix(m, 0))
    modifies buf
    ensures |Prefix(m, |m.vnis|)| == buf.Length
    ensures buf[..] == Splice(s, 0, Prefix(m, |m.vnis|))
  {
    PrefixEnds(m);
    hide Splice, TunnelFixedPart, EncodeTunnelMessage, EntryOctets, Prefix;
    var off := TUNNEL_HEADER_LEN;
    ghost var done: Bytes := Prefix(m, 0);
    for i := 0 to |m.vnis|
      invariant off == TUNNEL_HEADER_LEN + 12 * i == |done|
      invariant done == Prefix(m, i) && buf[..] == Splice(s, 0, done)
    {
      PrefixStep(m, i);
      EmitEntry(buf, off, m.vnis[i]);
      SpliceTwice(s, 0, done, EntryOctets(m.vnis[i]));
      done := done + EntryOctets(m.vnis[i]);
      off := off + ENTRY_LEN;
    }
  }

  /** The hand-written offsets write exactly the nested-attribute encoding, in 8 + 12 n octets. */
  method EmitTunnelMessage(m: TunnelMessage) returns (buf: array<u8>)
    ensures fresh(buf) && buf.Length == TUNNEL_HEADER_LEN + 12 * |m.vnis|
    ensures buf[..] == EncodeTunnelMessage(m)
  {
    PrefixEnds(m);
    buf := new u8[TUNNEL_HEADER_LEN + 12 * |m.vnis|](i => 0);
    ghost var s := buf[..];
    assert Splice(s, 0, EncodeTunnelMessage(m)) == EncodeTunnelMessage(m);
    hide Splice, TunnelFixedPart, EncodeTunnelMessage, Prefix;
    CopyInto(buf, 0, TunnelFixedPart(m));
    EmitEntries(buf, m, s);
  }

  // ---- the parsing loops ----

  function WithVnis(out: seq<u32>, b: Bytes): seq<u32> {
    out + VnisIn(Scan(b).nlas)
  }

  lemma WithVnisEnd(out: seq<u32>, b: Bytes)
    requires b == [] || !HeadOk(b)
    ensures WithVnis(out, b) == out
  {
  }

  lemma WithVnisStep(out: seq<u32>, b: Bytes)
    requires b != [] && HeadOk(b)
    ensures WithVnis(out, b) == WithVnis(out + VniOf(Head(b)), AfterHead(b))
  {
    hide HeadOk, Head, AfterHead, VniOf;
    var nlas, more := Scan(b).nlas, Scan(AfterHead(b)).nlas;
    assert nlas[0] == Head(b) && nlas[1..] == more;
    var first := VniOf(Head(b));
    assert out + (first + VnisIn(more)) == out + first + VnisIn(more);
  }

  method ParseEntry(payload: Bytes, out: seq<u32>) returns (vnis: seq<u32>)
    ensures vnis == WithVnis(out, payload)
  {
    hide WithVnis;
    vnis := out;
    var it := Iterate(payload);
    assert it.Rest() == payload;
    while it.Item().Some?
      invariant it.buffer == payload
      invariant WithVnis(vnis, it.Rest()) == WithVnis(out, payload)
      decreases |payload| - it.position
    {
      var item := it.Item().value;
      if item.Ok? {
        WithVnisStep(vnis, it.Rest());
        assert vnis + [] == vnis;
        if item.value.Type() == VNIFILTER_ENTRY_START && |item.value.value| == 4 {
          vnis := vnis + [Get32(item.value.value)];
        }
      } else {
        WithVnisEnd(vnis, it.Rest());
        WithVnisEnd(vnis, []);
      }
      it := it.Advance();
    }
    WithVnisEnd(vnis, []);
  }

  function WithEntries(out: seq<u32>, b: Bytes): seq<u32> {
    out + EntriesIn(Scan(b).nlas)
  }

  lemma WithEntriesStep(out: seq<u32>, b: Bytes)
    ensures b == [] || !HeadOk(b) ==> WithEntries(out, b) == out
    ensures b != [] && HeadOk(b) ==>
              WithEntries(out, b) ==
              WithEntries(if Head(b).Type() == VNIFILTER_ENTRY then WithVnis(out, Head(b).value) else out, AfterHead(b))
  {
    hide VnisIn;
    if b != [] && HeadOk(b) {
      assert Scan(b).nlas[0] == Head(b) && Scan(b).nlas[1..] == Scan(AfterHead(b)).nlas;
    }
  }

  method ParseTunnelMessage(b: Bytes) returns (r: Result<TunnelMessage>)
    ensures r == DecodeTunnelMessage(b)
  {
    if |b| < TUNNEL_HEADER_LEN {
      return Err;
    }
    var payload := b[TUNNEL_HEADER_LEN..];
    var vnis: seq<u32> := [];
    assert WithEntries(vnis, payload) == EntriesIn(Scan(payload).nlas);
    hide WithVnis, WithEntries, EntriesIn;
    var it := Iterate(payload);
    assert it.Rest() == payload;
    while it.Item().Some?
      invariant it.buffer == payload
      invariant WithEntries(vnis, it.Rest()) == EntriesIn(Scan(payload).nlas)
      decreases |payload| - it.position
    {
      var item := it.Item().value;
      WithEntriesStep(vnis, it.Rest());
      if item.Ok? {
        if item.value.Type() == VNIFILTER_ENTRY {
          vnis := ParseEntry(item.value.value, vnis);
        }
      } else {
        WithEntriesStep(vnis, []);
      }
      it := it.Advance();
    }
    WithEntriesStep(vnis, []);
    return Ok(TunnelMessage(FamilyOf(b[0]), b[1], Get32(b[4..8]), vnis));
  }
}
