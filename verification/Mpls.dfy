/** MPLS label stack entries (section 2.1 of RFC 3032), src/route/mpls.rs. */
module Mpls {
  import opened Wire
  import opened Bits

  const LABEL_MASK: u32 := 0xFFFF_F000
  const LABEL_SHIFT: nat := 12
  const TC_MASK: u32 := 0x0000_0E00
  const TC_SHIFT: nat := 9
  const S_MASK: u32 := 0x0000_0100
  const S_SHIFT: nat := 8
  const TTL_MASK: u32 := 0x0000_00FF

  datatype MplsLabel = MplsLabel(labelValue: u32, trafficClass: u8, bottomOfStack: bool, ttl: u8) {
    /** The fields stay within the 20, 3, 1 and 8 bits they have on the wire. */
    predicate Valid() {
      labelValue < 0x10_0000 && trafficClass < 8
    }
  }

  function FromU32(d: u32): MplsLabel {
    LabelFields(d);
    MplsLabel(
      Shr(And(d, LABEL_MASK), LABEL_SHIFT),
      Shr(And(d, TC_MASK), TC_SHIFT),
      And(d, S_MASK) > 0,
      And(d, TTL_MASK))
  }

  /** A `u32` left shift drops what leaves the word; a field too wide for its slot is or-ed over its neighbour. */
  function ToU32(v: MplsLabel): u32 {
    var s := if v.bottomOfStack then 1 else 0;
    var w := Or(Or(Or(Shl(v.labelValue, LABEL_SHIFT) % 0x1_0000_0000, Shl(v.trafficClass, TC_SHIFT)), Shl(s, S_SHIFT)), v.ttl);
    ShiftedFieldsFit(v.labelValue, v.trafficClass, s, v.ttl);
    w
  }

  // ---- the masks and shifts as arithmetic ----

  lemma Shl20(x: nat)
    ensures Shl(x, 20) == 0x10_0000 * x
  {
    assert Shl(x, 10) == 0x400 * x;
  }

  lemma {:induction false} OrBound(a: nat, b: nat, k: nat)
    requires a < Shl(1, k) && b < Shl(1, k)
    ensures Or(a, b) < Shl(1, k)
    decreases k
  {
    if k > 0 {
      OrBound(a / 2, b / 2, k - 1);
    }
  }

  lemma Shl32()
    ensures Shl(1, 32) == 0x1_0000_0000
  {
    assert Shl(1, 10) == 0x400;
    Shl20(1);
    assert Shl(1, 30) == 0x4000_0000;
  }

  lemma ShiftedFieldsFit(value: u32, tc: u8, s: nat, ttl: u8)
    requires s <= 1
    ensures Or(Or(Or(Shl(value, LABEL_SHIFT) % 0x1_0000_0000, Shl(tc, TC_SHIFT)), Shl(s, S_SHIFT)), ttl) < 0x1_0000_0000
  {
    hide Shl, Or;
    Shl32();
    Shl8(tc);
    Shl8(s);
    var a := Shl(value, LABEL_SHIFT) % 0x1_0000_0000;
    OrBound(a, Shl(tc, 9), 32);
    OrBound(Or(a, Shl(tc, 9)), Shl(s, 8), 32);
    OrBound(Or(Or(a, Shl(tc, 9)), Shl(s, 8)), ttl, 32);
  }

  lemma Masks()
    ensures Shl(1, 20) == 0x10_0000 && Shl(0xF_FFFF, 12) == LABEL_MASK
    ensures Shl(1, 3) == 8 && Shl(7, 9) == TC_MASK
    ensures Shl(1, 1) == 2 && Shl(1, 8) == S_MASK
    ensures Shl(0xFF, 0) == TTL_MASK
  {
    Shl20(1);
  }

  lemma ShiftsDown(d: nat)
    ensures Shr(d, 8) == d / 0x100
    ensures Shr(d, 9) == d / 0x200
    ensures Shr(d, 12) == d / 0x1000
  {
    assert Shr(d, 4) == d / 0x10;
  }

  lemma LowBits(d: nat)
    ensures Low(d, 1) == d % 2
    ensures Low(d, 8) == d % 0x100
  {
    hide Low, Shl, Shr;
    LowRemainder(d, 8);
    Shl8(Shr(d, 8));
    ShiftsDown(d);
    LowRemainder(d, 1);
    ShiftOne(d);
  }

  lemma ShiftOne(d: nat)
    ensures Shl(Shr(d, 1), 1) == 2 * (d / 2)
    ensures Shl(Shr(d, 3), 3) == 8 * (d / 8)
  {
    assert Shr(d, 3) == d / 8;
  }

  lemma Low3(d: nat)
    ensures Low(d, 3) == d % 8
  {
    hide Low, Shl, Shr;
    LowRemainder(d, 3);
    ShiftOne(d);
  }

  lemma LabelField(d: u32)
    ensures Shr(And(d, LABEL_MASK), LABEL_SHIFT) == d / 0x1000
  {
    hide Shl, Shr, And, Low;
    Masks();
    ShiftsDown(d);
    FieldAt(d, 12, 20);
    LowSmall(d / 0x1000, 20);
  }

  lemma TrafficClassField(d: u32)
    ensures Shr(And(d, TC_MASK), TC_SHIFT) == d / 0x200 % 8
  {
    hide Shl, Shr, And, Low;
    Masks();
    ShiftsDown(d);
    FieldAt(d, 9, 3);
    Low3(d / 0x200);
  }

  lemma BottomOfStackField(d: u32)
    ensures And(d, S_MASK) == 0x100 * (d / 0x100 % 2)
  {
    hide Shl, Shr, And, Low;
    Masks();
    ShiftsDown(d);
    FieldAt(d, 8, 1);
    LowBits(d / 0x100);
    Shl8(d / 0x100 % 2);
  }

  lemma TtlField(d: u32)
    ensures And(d, TTL_MASK) == d % 0x100
  {
    hide Shl, And, Low;
    Masks();
    FieldAt(d, 0, 8);
    LowBits(d);
    assert Shr(d, 0) == d;
  }

  lemma LabelFields(d: u32)
    ensures Shr(And(d, LABEL_MASK), LABEL_SHIFT) == d / 0x1000
    ensures Shr(And(d, TC_MASK), TC_SHIFT) == d / 0x200 % 8
    ensures And(d, S_MASK) == 0x100 * (d / 0x100 % 2)
    ensures And(d, TTL_MASK) == d % 0x100
  {
    LabelField(d);
    TrafficClassField(d);
    BottomOfStackField(d);
    TtlField(d);
  }

  lemma OrBelow12(x: nat, b: nat)
    requires b < 0x1000
    ensures Or(0x1000 * x, b) == 0x1000 * x + b
  {
    hide Shl, Or;
    Shl8(x);
    Shl8(1);
    OrBelow(x, 12, b);
  }

  lemma Shl8(x: nat)
    ensures Shl(x, 8) == 0x100 * x
    ensures Shl(x, 9) == 0x200 * x
    ensures Shl(x, 12) == 0x1000 * x
  {
    assert Shl(x, 4) == 0x10 * x;
  }

  lemma PackTrafficClass(x: u32, tc: u8)
    requires x < 0x10_0000 && tc < 8
    ensures Or(Shl(x, 12) % 0x1_0000_0000, Shl(tc, 9)) == 0x1000 * x as int + 0x200 * tc as int
  {
    hide Shl, Or;
    Shl8(tc);
    Shl8(x);
    OrBelow12(x, 0x200 * tc as int);
  }

  lemma PackBottomOfStack(b: nat, s: nat)
    requires s <= 1
    ensures Or(0x200 * b, Shl(s, 8)) == 0x200 * b + 0x100 * s
  {
    hide Shl, Or;
    Shl8(b);
    Shl8(s);
    Shl8(1);
    OrBelow(b, 9, Shl(s, 8));
  }

  lemma PackTtl(c: nat, ttl: u8)
    ensures Or(0x100 * c, ttl) == 0x100 * c + ttl as int
  {
    hide Shl, Or;
    Shl8(c);
    Shl8(1);
    OrBelow(c, 8, ttl);
  }

  lemma PackFields(v: MplsLabel)
    requires v.Valid()
    ensures ToU32(v) == 0x1000 * v.labelValue as int + 0x200 * v.trafficClass as int + (if v.bottomOfStack then 0x100 else 0) + v.ttl as int
  {
    hide Shl, Or;
    var s := if v.bottomOfStack then 1 else 0;
    var b := 8 * v.labelValue as int + v.trafficClass as int;
    var c := 2 * b + s;
    calc {
      ToU32(v);
      Or(Or(Or(Shl(v.labelValue, 12) % 0x1_0000_0000, Shl(v.trafficClass, 9)), Shl(s, 8)), v.ttl);
      { PackTrafficClass(v.labelValue, v.trafficClass); }
      Or(Or(0x200 * b, Shl(s, 8)), v.ttl);
      { PackBottomOfStack(b, s); }
      Or(0x100 * c, v.ttl);
      { PackTtl(c, v.ttl); }
      0x100 * c + v.ttl as int;
    }
  }

  lemma UnpackFields(d: u32)
    ensures FromU32(d) == MplsLabel(d / 0x1000, d / 0x200 % 8, d / 0x100 % 2 == 1, d % 0x100)
  {
    hide Shl, Shr, And, Or;
    LabelFields(d);
  }

  lemma Digits(d: u32)
    ensures 0x1000 * (d / 0x1000) + 0x200 * (d / 0x200 % 8) + 0x100 * (d / 0x100 % 2) + d % 0x100 == d
  {
    assert d / 0x200 == d / 0x100 / 2;
    assert d / 0x1000 == d / 0x200 / 8;
  }

  lemma DigitsUnique(a: nat, b: nat, c: nat, e: nat)
    requires b < 8 && c < 2 && e < 0x100
    ensures var d := 0x1000 * a + 0x200 * b + 0x100 * c + e;
            d / 0x1000 == a && d / 0x200 % 8 == b && d / 0x100 % 2 == c && d % 0x100 == e
  {
    var d := 0x1000 * a + 0x200 * b + 0x100 * c + e;
    assert d / 0x100 == 0x10 * a + 2 * b + c;
    assert d / 0x200 == 8 * a + b;
  }

  /** Unpacking a word and packing it again is the identity on every word. */
  lemma WordRoundTrip(d: u32)
    ensures FromU32(d).Valid()
    ensures ToU32(FromU32(d)) == d
  {
    hide Shl, Shr, And, Or;
    UnpackFields(d);
    var v := FromU32(d);
    PackFields(v);
    Digits(d);
  }

  /** Packing a label and unpacking it again is the identity exactly on labels within their bit widths. */
  lemma LabelRoundTrip(v: MplsLabel)
    ensures FromU32(ToU32(v)) == v <==> v.Valid()
  {
    hide Shl, Shr, And, Or;
    UnpackFields(ToU32(v));
    if v.Valid() {
      PackFields(v);
      DigitsUnique(v.labelValue, v.trafficClass, if v.bottomOfStack then 1 else 0, v.ttl);
    }
  }

  // ---- label stacks ----

  function DecodeLabel(b: Bytes): Result<MplsLabel> {
    if |b| == 4 then Ok(FromU32(GetBe32(b))) else Err
  }

  function EncodeLabel(v: MplsLabel): (b: Bytes)
    ensures |b| == 4
  {
    PutBe32(ToU32(v))
  }

  function DecodeLabels(b: Bytes): seq<MplsLabel> {
    if |b| < 4 then [] else [FromU32(GetBe32(b[..4]))] + DecodeLabels(b[4..])
  }

  function EncodeLabels(ls: seq<MplsLabel>): (b: Bytes)
    ensures |b| == 4 * |ls|
  {
    if ls == [] then [] else EncodeLabel(ls[0]) + EncodeLabels(ls[1..])
  }

  predicate AllValid(ls: seq<MplsLabel>) {
    forall i :: 0 <= i < |ls| ==> ls[i].Valid()
  }

  lemma {:induction false} LabelsRoundTrip(ls: seq<MplsLabel>)
    requires AllValid(ls)
    ensures DecodeLabels(EncodeLabels(ls)) == ls
  {
    if ls != [] {
      var b := EncodeLabels(ls);
      assert b[..4] == EncodeLabel(ls[0]);
      assert b[4..] == EncodeLabels(ls[1..]);
      LabelRoundTrip(ls[0]);
      LabelsRoundTrip(ls[1..]);
    }
  }

  /** Any `n` octets decode to `n / 4` labels, and those re-encode to the octets that were used. */
  lemma {:induction false} LabelsPrefix(b: Bytes)
    ensures |DecodeLabels(b)| == |b| / 4
    ensures AllValid(DecodeLabels(b))
    ensures EncodeLabels(DecodeLabels(b)) == b[..|b| - |b| % 4]
    decreases |b|
  {
    hide FromU32, ToU32;
    if |b| >= 4 {
      var first, more := FromU32(GetBe32(b[..4])), DecodeLabels(b[4..]);
      var n := |b[4..]| - |b[4..]| % 4;
      LabelsPrefix(b[4..]);
      calc {
        EncodeLabels(DecodeLabels(b));
        EncodeLabels([first] + more);
        { EncodeLabelsCons(first, more); }
        EncodeLabel(first) + EncodeLabels(more);
        { LabelOctets(b[..4]); }
        b[..4] + b[4..][..n];
        b[..n + 4];
      }
      LabelOctets(b[..4]);
    }
  }

  lemma EncodeLabelsCons(v: MplsLabel, ls: seq<MplsLabel>)
    ensures EncodeLabels([v] + ls) == EncodeLabel(v) + EncodeLabels(ls)
  {
    assert ([v] + ls)[1..] == ls;
  }

  lemma LabelOctets(b: Bytes)
    requires |b| == 4
    ensures FromU32(GetBe32(b)).Valid() && EncodeLabel(FromU32(GetBe32(b))) == b
  {
    WordRoundTrip(GetBe32(b));
    PutGet32(b);
  }

  /** The `while i + 4 <= payload.len()` loop. */
  method ParseLabels(payload: Bytes) returns (labels: seq<MplsLabel>)
    ensures labels == DecodeLabels(payload)
  {
    labels := [];
    var i := 0;
    while i + 4 <= |payload|
      invariant 0 <= i <= |payload|
      invariant labels + DecodeLabels(payload[i..]) == DecodeLabels(payload)
    {
      assert payload[i..][..4] == payload[i..i + 4];
      assert payload[i..][4..] == payload[i + 4..];
      var entry := FromU32(GetBe32(payload[i..i + 4]));
      assert labels + ([entry] + DecodeLabels(payload[i + 4..])) == labels + [entry] + DecodeLabels(payload[i + 4..]);
      labels := labels + [entry];
      i := i + 4;
    }
    assert labels + [] == labels;
  }

  lemma {:induction false} EncodeLabelsSnoc(ls: seq<MplsLabel>, v: MplsLabel)
    ensures EncodeLabels(ls + [v]) == EncodeLabels(ls) + EncodeLabel(v)
  {
    if ls == [] {
      assert [v][1..] == [];
    } else {
      assert (ls + [v])[1..] == ls[1..] + [v];
      EncodeLabelsSnoc(ls[1..], v);
    }
  }

  /** Label `i` goes to `buffer[i * 4..i * 4 + 4]`. */
  method EmitLabels(buf: array<u8>, off: nat, labels: seq<MplsLabel>)
    requires off + 4 * |labels| <= buf.Length
    modifies buf
    ensures buf[..] == Splice(old(buf[..]), off, EncodeLabels(labels))
  {
    ghost var s := buf[..];
    SpliceNothing(s, off);
    assert EncodeLabels(labels[..0]) == [];
    hide ToU32, FromU32, EncodeLabels;
    for i := 0 to |labels|
      invariant buf[..] == Splice(s, off, EncodeLabels(labels[..i]))
    {
      CopyInto(buf, off + i * 4, EncodeLabel(labels[i]));
      assert labels[..i + 1] == labels[..i] + [labels[i]];
      EncodeLabelsSnoc(labels[..i], labels[i]);
      SpliceTwice(s, off, EncodeLabels(labels[..i]), EncodeLabel(labels[i]));
    }
    assert labels[..|labels|] == labels;
  }
}
