/**
 Bytes, fixed-width integers, the outcome of a decoder, and byte-order codecs.

 Native byte order is little-endian. Arithmetic on `u8` and `u16` wraps, as in a
 build without overflow checks; an out-of-range slice is the `Panic` outcome.
 */
module Wire {

  type u8 = x: int | 0 <= x < 0x100
  type u16 = x: int | 0 <= x < 0x1_0000
  type u32 = x: int | 0 <= x < 0x1_0000_0000
  type u64 = x: int | 0 <= x < 0x1_0000_0000_0000_0000
  type Bytes = seq<u8>

  type Ipv4 = s: Bytes | |s| == 4 witness [0, 0, 0, 0]
  type Ipv6 = s: Bytes | |s| == 16 witness [0, 0, 0, 0, 0, 0, 0, 0, 0, 0, 0, 0, 0, 0, 0, 0]

  datatype Option<+T> = None | Some(value: T)

  /** What a decoder can do: return a value, report a `DecodeError`, or panic. */
  datatype Result<+T> = Ok(value: T) | Err | Panic {
    predicate IsFailure() {
      !Ok?
    }

    function PropagateFailure<U>(): Result<U>
      requires IsFailure()
    {
      if Err? then Err else Panic
    }

    function Extract(): T
      requires Ok?
    {
      value
    }
  }

  function Zeros(n: nat): (z: Bytes)
    ensures |z| == n
    ensures forall i :: 0 <= i < n ==> z[i] == 0
  {
    seq(n, i => 0)
  }

  // ---- native (little-endian) integers ----

  function Put16(x: u16): (b: Bytes)
    ensures |b| == 2 && Get16(b) == x
  {
    [x % 0x100, x / 0x100]
  }

  function Get16(b: Bytes): (x: u16)
    requires |b| == 2
  {
    b[0] as int + 0x100 * b[1] as int
  }

  function Put32(x: u32): (b: Bytes)
    ensures |b| == 4 && Get32(b) == x
  {
    Put16(x % 0x1_0000) + Put16(x / 0x1_0000)
  }

  function Get32(b: Bytes): (x: u32)
    requires |b| == 4
  {
    Get16(b[..2]) + 0x1_0000 * Get16(b[2..])
  }

  function Put64(x: u64): (b: Bytes)
    ensures |b| == 8 && Get64(b) == x
  {
    Put32(x % 0x1_0000_0000) + Put32(x / 0x1_0000_0000)
  }

  function Get64(b: Bytes): (x: u64)
    requires |b| == 8
  {
    Get32(b[..4]) + 0x1_0000_0000 * Get32(b[4..])
  }

  // ---- network (big-endian) integers ----

  function PutBe16(x: u16): (b: Bytes)
    ensures |b| == 2 && GetBe16(b) == x
  {
    [x / 0x100, x % 0x100]
  }

  function GetBe16(b: Bytes): (x: u16)
    requires |b| == 2
  {
    0x100 * b[0] as int + b[1] as int
  }

  function PutBe32(x: u32): (b: Bytes)
    ensures |b| == 4 && GetBe32(b) == x
  {
    PutBe16(x / 0x1_0000) + PutBe16(x % 0x1_0000)
  }

  function GetBe32(b: Bytes): (x: u32)
    requires |b| == 4
  {
    0x1_0000 * GetBe16(b[..2]) + GetBe16(b[2..])
  }

  /** Reading then writing gives the same octets back, in either order. */
  lemma PutGet16(b: Bytes)
    requires |b| == 2
    ensures Put16(Get16(b)) == b && PutBe16(GetBe16(b)) == b
  {
  }

  lemma PutGet32(b: Bytes)
    requires |b| == 4
    ensures Put32(Get32(b)) == b && PutBe32(GetBe32(b)) == b
  {
    PutGet16(b[..2]);
    PutGet16(b[2..]);
    SplitWord(Get16(b[..2]), Get16(b[2..]));
    SplitWord(GetBe16(b[2..]), GetBe16(b[..2]));
    assert b == b[..2] + b[2..];
  }

  lemma SplitWord(low: u16, high: u16)
    ensures (low as int + 0x1_0000 * high as int) % 0x1_0000 == low
    ensures (low as int + 0x1_0000 * high as int) / 0x1_0000 == high
  {
  }

  // ---- exact-length scalar parsers: parse_u8, parse_u16, parse_u32, parse_u64 ----

  function ParseU8(b: Bytes): Result<u8> {
    if |b| == 1 then Ok(b[0]) else Err
  }

  function ParseU16(b: Bytes): Result<u16> {
    if |b| == 2 then Ok(Get16(b)) else Err
  }

  function ParseU32(b: Bytes): Result<u32> {
    if |b| == 4 then Ok(Get32(b)) else Err
  }

  function ParseU64(b: Bytes): Result<u64> {
    if |b| == 8 then Ok(Get64(b)) else Err
  }

  /** `parse_string` on octets: one trailing NUL, if there is one, is dropped. */
  function ParseString(b: Bytes): Bytes {
    if |b| > 0 && b[|b| - 1] == 0 then b[..|b| - 1] else b
  }

  /** How every string attribute is written: the octets and one NUL. */
  function PutString(s: Bytes): (b: Bytes)
    ensures ParseString(b) == s
  {
    s + [0]
  }

  /** The octets of an ASCII name. */
  function Ascii(s: string): (b: Bytes)
    ensures |b| == |s|
    ensures forall i :: 0 <= i < |s| && s[i] as int < 0x80 ==> b[i] == s[i] as int
  {
    seq(|s|, i requires 0 <= i < |s| => s[i] as int % 0x80)
  }

  // ---- records of 32-bit words: the fixed-layout structs ----

  function PutWords(ws: seq<u32>): (b: Bytes)
    ensures |b| == 4 * |ws|
  {
    if ws == [] then [] else Put32(ws[0]) + PutWords(ws[1..])
  }

  function GetWords(b: Bytes, n: nat): (ws: seq<u32>)
    requires 4 * n <= |b|
    ensures |ws| == n
    decreases n
  {
    if n == 0 then [] else [Get32(b[..4])] + GetWords(b[4..], n - 1)
  }

  lemma {:induction false} WordsRoundTrip(ws: seq<u32>, tail: Bytes)
    ensures GetWords(PutWords(ws) + tail, |ws|) == ws
  {
    if ws == [] {
    } else {
      var b := PutWords(ws) + tail;
      assert b[..4] == Put32(ws[0]);
      assert b[4..] == PutWords(ws[1..]) + tail;
      WordsRoundTrip(ws[1..], tail);
    }
  }

  // ---- writing into a buffer ----

  /** `s` with the octets from `off` on replaced by `b`. */
  function Splice(s: Bytes, off: nat, b: Bytes): (t: Bytes)
    requires off + |b| <= |s|
    ensures |t| == |s|
  {
    s[..off] + b + s[off + |b|..]
  }

  /** Two writes that touch end to end are one write. */
  lemma SpliceTwice(s: Bytes, off: nat, a: Bytes, b: Bytes)
    requires off + |a| + |b| <= |s|
    ensures Splice(Splice(s, off, a), off + |a|, b) == Splice(s, off, a + b)
  {
    var t := Splice(s, off, a);
    assert t[..off + |a|] == s[..off] + a;
    assert t[off + |a| + |b|..] == s[off + |a| + |b|..];
  }

  lemma SpliceNothing(s: Bytes, off: nat)
    requires off <= |s|
    ensures Splice(s, off, []) == s
  {
  }

  /** `copy_from_slice` into a sub-slice of a buffer. */
  method CopyInto(buf: array<u8>, off: nat, b: Bytes)
    requires off + |b| <= buf.Length
    modifies buf
    ensures buf[..] == Splice(old(buf[..]), off, b)
  {
    forall i | 0 <= i < |b| {
      buf[off + i] := b[i];
    }
    assert buf[..off] == old(buf[..])[..off];
    assert buf[off..off + |b|] == b;
    assert buf[off + |b|..] == old(buf[..])[off + |b|..];
    assert buf[..] == buf[..off] + buf[off..off + |b|] + buf[off + |b|..];
  }
}
