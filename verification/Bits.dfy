/** Bitwise `and`, `or` and shifts on natural numbers, defined bit by bit. */
module Bits {

  function And(a: nat, b: nat): nat
    decreases a + b
  {
    if b == 0 then 0
    else (if a % 2 == 1 && b % 2 == 1 then 1 else 0) + 2 * And(a / 2, b / 2)
  }

  function Or(a: nat, b: nat): nat
    decreases a + b
  {
    if a == 0 && b == 0 then 0
    else (if a % 2 == 1 || b % 2 == 1 then 1 else 0) + 2 * Or(a / 2, b / 2)
  }

  /** `a << k` */
  function Shl(a: nat, k: nat): (r: nat)
    ensures r >= a
    decreases k
  {
    if k == 0 then a else 2 * Shl(a, k - 1)
  }

  /** `a >> k` */
  function Shr(a: nat, k: nat): nat
    decreases k
  {
    if k == 0 then a else Shr(a, k - 1) / 2
  }

  /** The low `m` bits of `a`. */
  function Low(a: nat, m: nat): (r: nat)
    decreases m
  {
    if m == 0 then 0 else a % 2 + 2 * Low(a / 2, m - 1)
  }

  lemma {:induction false} LowSmall(a: nat, m: nat)
    ensures Low(a, m) < Shl(1, m)
    ensures a < Shl(1, m) ==> Low(a, m) == a
    decreases m
  {
    if m > 0 {
      LowSmall(a / 2, m - 1);
    }
  }

  lemma {:induction false} OrZero(a: nat)
    ensures Or(a, 0) == a && Or(0, a) == a
  {
    if a != 0 {
      OrZero(a / 2);
    }
  }

  /** Putting `b` below bit `k` of a number whose low `k` bits are clear is addition. */
  lemma {:induction false} OrBelow(a: nat, k: nat, b: nat)
    requires b < Shl(1, k)
    ensures Or(Shl(a, k), b) == Shl(a, k) + b
    decreases k
  {
    if k == 0 {
      OrZero(a);
    } else {
      OrBelow(a, k - 1, b / 2);
    }
  }

  /** A mask of `m` ones keeps the low `m` bits. */
  lemma {:induction false} AndOnes(d: nat, m: nat)
    ensures And(d, Shl(1, m) - 1) == Low(d, m)
    decreases m
  {
    if m > 0 {
      AndOnes(d / 2, m - 1);
    }
  }

  lemma {:induction false} ShrHalf(d: nat, k: nat)
    ensures Shr(d / 2, k) == Shr(d, k + 1)
  {
    if k > 0 {
      ShrHalf(d, k - 1);
    }
  }

  /** Masking with a shifted mask is masking the shifted number. */
  lemma {:induction false} AndShifted(d: nat, k: nat, c: nat)
    ensures And(d, Shl(c, k)) == Shl(And(Shr(d, k), c), k)
    decreases k
  {
    if k > 0 {
      AndShifted(d / 2, k - 1, c);
      ShrHalf(d, k - 1);
    }
  }

  /** The low bits are what is left after shifting down and up again. */
  lemma {:induction false} LowRemainder(d: nat, m: nat)
    ensures Low(d, m) == d - Shl(Shr(d, m), m)
    decreases m
  {
    if m > 0 {
      LowRemainder(d / 2, m - 1);
      ShrHalf(d, m - 1);
    }
  }

  lemma {:induction false} ShrShl(x: nat, k: nat)
    ensures Shr(Shl(x, k), k) == x
  {
    if k > 0 {
      ShrShl(x, k - 1);
      ShrHalf(Shl(x, k), k - 1);
    }
  }

  /** Extracting the `m`-bit field at bit `k` the way the crate does: mask, then shift down. */
  lemma FieldAt(d: nat, k: nat, m: nat)
    ensures Shr(And(d, Shl(Shl(1, m) - 1, k)), k) == Low(Shr(d, k), m)
    ensures And(d, Shl(Shl(1, m) - 1, k)) == Shl(Low(Shr(d, k), m), k)
  {
    AndShifted(d, k, Shl(1, m) - 1);
    AndOnes(Shr(d, k), m);
    ShrShl(Low(Shr(d, k), m), k);
  }
}
