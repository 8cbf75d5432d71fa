/** IFLA_EXT_MASK as a list of flags: src/link/ext_mask.rs. */
module ExtMask {
  import opened Wire
  import opened Bits

  const FLAGS: nat := 8

  /** `Flag(i)` is the named flag of bit `i`, from `Vf` (0) to `Mst` (7). */
  datatype ExtentMask = Flag(bit: nat) | OtherMask(bits: u32) {
    function Value(): nat {
      match this
      case Flag(i) => Shl(1, i)
      case OtherMask(v) => v
    }
  }

  function Total(l: seq<ExtentMask>): nat {
    if l == [] then 0 else l[0].Value() + Total(l[1..])
  }

  /** `u32::from(&VecLinkExtentMask)`, with wrapping addition. */
  function Sum(l: seq<ExtentMask>): u32 {
    Total(l) % 0x1_0000_0000
  }

  /** The named flags from bit `k` up that are set in `d`. */
  function FlagsFrom(d: u32, k: nat): seq<ExtentMask>
    requires k <= FLAGS
    decreases FLAGS - k
  {
    if k == FLAGS then []
    else (if And(d, Shl(1, k)) > 0 then [Flag(k)] else []) + FlagsFrom(d, k + 1)
  }

  /** Named flags in bit order, then at most one remainder. */
  function Split(d: u32): seq<ExtentMask> {
    FlagsFrom(d, 0) + (if d / 0x100 == 0 then [] else [OtherMask(d - d % 0x100)])
  }

  /** Named flags in increasing bit order, then possibly one nonzero remainder that
      shares no bit with them. */
  predicate Canonical(l: seq<ExtentMask>, k: nat) {
    || l == []
    || (l[0].Flag? && k <= l[0].bit < FLAGS && Canonical(l[1..], l[0].bit + 1))
    || (l[0].OtherMask? && |l| == 1 && l[0].bits != 0 && l[0].bits % 0x100 == 0)
  }

  // ---- arithmetic of shifts ----

  lemma {:induction false} ShlAdd(a: nat, b: nat, k: nat)
    ensures Shl(a + b, k) == Shl(a, k) + Shl(b, k)
    decreases k
  {
    if k > 0 {
      ShlAdd(a, b, k - 1);
    }
  }

  lemma {:induction false} ShlDouble(a: nat, k: nat)
    ensures Shl(2 * a, k) == Shl(a, k + 1)
    decreases k
  {
    if k > 0 {
      ShlDouble(a, k - 1);
    }
  }

  lemma {:induction false} ShlInjective(a: nat, b: nat, k: nat)
    requires Shl(a, k) == Shl(b, k)
    ensures a == b
    decreases k
  {
    if k > 0 {
      ShlInjective(a, b, k - 1);
    }
  }

  lemma Byte(d: u32)
    ensures Shl(Shr(d, 8), 8) == d - d % 0x100 && Shr(d, 8) == d / 0x100
  {
    hide Shl, Shr;
    ShiftMore(d, 4, 4);
    ShiftMore(d / 0x100, 4, 4);
    Nibble(d);
    Nibble(d / 0x10);
    Nibble(d / 0x100);
    Nibble(0x10 * (d / 0x100));
    assert d / 0x10 / 0x10 == d / 0x100;
  }

  lemma Nibble(x: nat)
    ensures Shr(x, 4) == x / 0x10 && Shl(x, 4) == 0x10 * x
  {
    assert Shr(x, 2) == x / 4 && Shl(x, 2) == 4 * x;
    assert Shr(x, 3) == x / 8 && Shl(x, 3) == 8 * x;
  }

  lemma {:induction false} ShiftMore(d: nat, j: nat, k: nat)
    ensures Shr(d, j + k) == Shr(Shr(d, j), k) && Shl(d, j + k) == Shl(Shl(d, j), k)
  {
    if k > 0 {
      ShiftMore(d, j, k - 1);
    }
  }

  /** Testing a flag is testing a bit, and the bits above it are what the shift leaves. */
  lemma BitTest(d: u32, k: nat)
    ensures And(d, Shl(1, k)) > 0 <==> Shr(d, k) % 2 == 1
    ensures Shl(Shr(d, k), k) == Shl(Shr(d, k + 1), k + 1) + (if Shr(d, k) % 2 == 1 then Shl(1, k) else 0)
  {
    var x := Shr(d, k);
    AndShifted(d, k, 1);
    assert And(x, 1) == x % 2 by {
      assert And(x / 2, 0) == 0;
    }
    assert Shl(0, k) == 0 by { ShlZero(k); }
    ShlAdd(2 * (x / 2), x % 2, k);
    ShlDouble(x / 2, k);
  }

  lemma {:induction false} ShlZero(k: nat)
    ensures Shl(0, k) == 0
  {
    if k > 0 {
      ShlZero(k - 1);
    }
  }

  // ---- splitting ----

  lemma {:induction false} TotalConcat(a: seq<ExtentMask>, b: seq<ExtentMask>)
    ensures Total(a + b) == Total(a) + Total(b)
  {
    if a == [] {
      assert a + b == b;
    } else {
      assert (a + b)[1..] == a[1..] + b;
      TotalConcat(a[1..], b);
    }
  }

  lemma {:induction false} FlagsTotal(d: u32, k: nat)
    requires k <= FLAGS
    ensures Total(FlagsFrom(d, k)) + Shl(Shr(d, 8), 8) == Shl(Shr(d, k), k)
    decreases FLAGS - k
  {
    hide Shl, Shr, And;
    if k < FLAGS {
      FlagsTotal(d, k + 1);
      BitTest(d, k);
      TotalConcat(if And(d, Shl(1, k)) > 0 then [Flag(k)] else [], FlagsFrom(d, k + 1));
      assert [Flag(k)][1..] == [];
    }
  }

  /** Summing the flags of a mask gives the mask back. */
  lemma SumOfSplit(d: u32)
    ensures Total(Split(d)) == d && Sum(Split(d)) == d
  {
    hide FlagsFrom, Shl, Shr;
    FlagsTotal(d, 0);
    Byte(d);
    ShiftByZero(d);
    var high := if d / 0x100 == 0 then [] else [OtherMask(d - d % 0x100)];
    TotalConcat(FlagsFrom(d, 0), high);
    assert high != [] ==> high[1..] == [];
  }

  predicate Remainder(high: seq<ExtentMask>) {
    high == [] || (|high| == 1 && high[0].OtherMask? && high[0].bits != 0 && high[0].bits % 0x100 == 0)
  }

  lemma {:induction false} FlagsCanonical(d: u32, k: nat, j: nat, high: seq<ExtentMask>)
    requires j <= k <= FLAGS && Remainder(high)
    ensures Canonical(FlagsFrom(d, k) + high, j)
    decreases FLAGS - k
  {
    hide And, Shl, FlagsFrom, Canonical;
    if k == FLAGS {
      FlagsEnd(d);
      assert FlagsFrom(d, k) + high == high;
      RemainderCanonical(high, j);
    } else {
      var rest := FlagsFrom(d, k + 1) + high;
      FlagsStep(d, k);
      if And(d, Shl(1, k)) > 0 {
        FlagsCanonical(d, k + 1, k + 1, high);
        CanonicalCons(k, rest, j);
        assert FlagsFrom(d, k) + high == [Flag(k)] + rest;
      } else {
        FlagsCanonical(d, k + 1, j, high);
        assert FlagsFrom(d, k) + high == rest;
      }
    }
  }

  lemma CanonicalCons(k: nat, rest: seq<ExtentMask>, j: nat)
    requires j <= k < FLAGS && Canonical(rest, k + 1)
    ensures Canonical([Flag(k)] + rest, j)
  {
    assert ([Flag(k)] + rest)[1..] == rest;
  }

  lemma RemainderCanonical(high: seq<ExtentMask>, j: nat)
    requires Remainder(high)
    ensures Canonical(high, j)
  {
  }

  /** What a mask splits into is in canonical form. */
  lemma SplitCanonical(d: u32)
    ensures Canonical(Split(d), 0)
  {
    hide FlagsFrom, Canonical;
    FlagsCanonical(d, 0, 0, if d / 0x100 == 0 then [] else [OtherMask(d - d % 0x100)]);
  }

  // ---- canonical lists are determined by their sum ----

  lemma {:induction false} TotalMultiple(l: seq<ExtentMask>, k: nat) returns (q: nat)
    requires Canonical(l, k) && k <= FLAGS
    ensures Total(l) == Shl(q, k)
    ensures l != [] ==> q > 0
    decreases l, FLAGS - k
  {
    hide Shl;
    if l == [] {
      q := 0;
      ShlZero(k);
    } else if l[0].Flag? && l[0].bit == k {
      var r := TotalMultiple(l[1..], k + 1);
      ShlDouble(r, k);
      ShlAdd(1, 2 * r, k);
      q := 1 + 2 * r;
    } else if k == FLAGS {
      Byte(l[0].bits);
      q := Shr(l[0].bits, 8);
      assert l[1..] == [];
    } else {
      var r := TotalMultiple(l, k + 1);
      ShlDouble(r, k);
      q := 2 * r;
    }
  }

  lemma {:induction false} CanonicalUnique(l: seq<ExtentMask>, m: seq<ExtentMask>, k: nat)
    requires Canonical(l, k) && Canonical(m, k) && k <= FLAGS && Total(l) == Total(m)
    ensures l == m
    decreases l, FLAGS - k
  {
    hide Shl;
    var a := TotalMultiple(l, k);
    var b := TotalMultiple(m, k);
    ShlInjective(a, b, k);
    if l == [] || m == [] {
    } else if k == FLAGS {
      assert l == [l[0]] && m == [m[0]];
      assert l[1..] == [] && m[1..] == [];
    } else {
      var inL, inM := l[0] == Flag(k), m[0] == Flag(k);
      if inL && inM {
        CanonicalUnique(l[1..], m[1..], k + 1);
        assert l == [l[0]] + l[1..] && m == [m[0]] + m[1..];
      } else if inL {
        OddAndEven(l, m, k);
      } else if inM {
        OddAndEven(m, l, k);
      } else {
        CanonicalUnique(l, m, k + 1);
      }
    }
  }

  lemma OddAndEven(l: seq<ExtentMask>, m: seq<ExtentMask>, k: nat)
    requires k < FLAGS && Canonical(l, k) && Canonical(m, k) && l != [] && m != []
    requires l[0] == Flag(k) && m[0] != Flag(k)
    ensures Total(l) != Total(m)
  {
    hide Shl;
    var r := TotalMultiple(l[1..], k + 1);
    ShlDouble(r, k);
    ShlAdd(1, 2 * r, k);
    var t := TotalMultiple(m, k + 1);
    ShlDouble(t, k);
    if Total(l) == Total(m) {
      ShlInjective(1 + 2 * r, 2 * t, k);
    }
  }

  /** Without a remainder the sum stays below 256 - 2^k; with one it stays within a word. */
  lemma {:induction false} TotalBound(l: seq<ExtentMask>, k: nat)
    requires Canonical(l, k) && k <= FLAGS
    ensures Total(l) + Shl(1, k) <= 0x1_0000_0000
    decreases l, FLAGS - k
  {
    hide Shl, Shr;
    if l == [] {
      PowersBelow(k);
    } else if l[0].Flag? && l[0].bit == k {
      TotalBound(l[1..], k + 1);
      ShlDouble(1, k);
      ShlAdd(1, 1, k);
    } else if k == FLAGS {
      assert l[1..] == [];
      PowersBelow(k);
    } else {
      TotalBound(l, k + 1);
      ShlDouble(1, k);
      ShlAdd(1, 1, k);
    }
  }

  lemma {:induction false} PowersBelow(k: nat)
    requires k <= FLAGS
    ensures Shl(1, k) <= 0x100
    decreases FLAGS - k
  {
    if k < FLAGS {
      PowersBelow(k + 1);
    } else {
      assert Shl(1, 8) == 0x100;
    }
  }

  /** A list of flags survives being summed and split again exactly when it is canonical. */
  lemma SplitOfSum(l: seq<ExtentMask>)
    ensures Split(Sum(l)) == l <==> Canonical(l, 0)
  {
    hide Split, Canonical, Shl, Total;
    SplitCanonical(Sum(l));
    if Canonical(l, 0) {
      TotalBound(l, 0);
      ShiftByZero(1);
      SumOfSplit(Sum(l));
      CanonicalUnique(Split(Sum(l)), l, 0);
    }
  }

  // ---- the loops ----

  /** `got` never exceeds `d`, so neither `got += flag` nor `d - got` leaves a word. */
  method SplitMask(d: u32) returns (ret: seq<ExtentMask>)
    ensures ret == Split(d)
  {
    hide And, Shl, Shr, FlagsFrom;
    var got: u32 := 0;
    ret := [];
    ShiftByZero(d);
    assert ret + FlagsFrom(d, 0) == FlagsFrom(d, 0);
    for i := 0 to FLAGS
      invariant ret + FlagsFrom(d, i) == FlagsFrom(d, 0)
      invariant got as int + Shl(Shr(d, i), i) == d
    {
      BitTest(d, i);
      FlagsStep(d, i);
      if And(d, Shl(1, i)) > 0 {
        assert ret + ([Flag(i)] + FlagsFrom(d, i + 1)) == ret + [Flag(i)] + FlagsFrom(d, i + 1);
        ret := ret + [Flag(i)];
        got := got + Shl(1, i);
      } else {
        assert [] + FlagsFrom(d, i + 1) == FlagsFrom(d, i + 1);
      }
    }
    FlagsEnd(d);
    assert ret + [] == ret;
    Byte(d);
    if got != d {
      ret := ret + [OtherMask(d - got)];
    }
  }

  lemma FlagsStep(d: u32, i: nat)
    requires i < FLAGS
    ensures FlagsFrom(d, i) == (if And(d, Shl(1, i)) > 0 then [Flag(i)] else []) + FlagsFrom(d, i + 1)
  {
    hide And, Shl;
  }

  lemma FlagsEnd(d: u32)
    ensures FlagsFrom(d, FLAGS) == []
  {
  }

  lemma ShiftByZero(d: nat)
    ensures Shr(d, 0) == d && Shl(d, 0) == d
  {
  }

  method SumMask(l: seq<ExtentMask>) returns (d: u32)
    ensures d == Sum(l)
  {
    d := 0;
    for i := 0 to |l|
      invariant d == Total(l[..i]) % 0x1_0000_0000
    {
      assert l[..i + 1] == l[..i] + [l[i]];
      TotalConcat(l[..i], [l[i]]);
      assert [l[i]][1..] == [];
      d := (d as int + l[i].Value()) % 0x1_0000_0000;
    }
    assert l[..|l|] == l;
  }
}
