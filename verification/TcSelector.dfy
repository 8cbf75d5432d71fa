/** The u32 selector: src/tc/filters/cls_u32.rs. Its count of keys is redundant. */
module TcSelector {
  import opened Wire

  /** Signed fields are kept as their bit patterns. */
  datatype TcU32Key = TcU32Key(mask: u32, val: u32, off: u32, offmask: u32)

  datatype TcU32Selector = TcU32Selector(
    flags: u8, offshift: u8, nkeys: u8, offmask: u16, off: u16, offoff: u16, hoff: u16, hmask: u32, keys: seq<TcU32Key>)

  const SEL_LEN: nat := 16
  const KEY_LEN: nat := 16

  function EncodeKey(k: TcU32Key): (b: Bytes)
    ensures |b| == KEY_LEN
  {
    Put32(k.mask) + Put32(k.val) + Put32(k.off) + Put32(k.offmask)
  }

  function DecodeKey(b: Bytes): TcU32Key
    requires |b| == KEY_LEN
  {
    TcU32Key(Get32(b[0..4]), Get32(b[4..8]), Get32(b[8..12]), Get32(b[12..16]))
  }

  const ZERO_KEY: TcU32Key := TcU32Key(0, 0, 0, 0)

  lemma KeyRoundTrip(k: TcU32Key)
    ensures DecodeKey(EncodeKey(k)) == k
  {
    hide Put32, Get32;
    var b := EncodeKey(k);
    assert b[0..4] == Put32(k.mask) && b[4..8] == Put32(k.val) && b[8..12] == Put32(k.off) && b[12..16] == Put32(k.offmask);
  }

  function EncodeFixed(s: TcU32Selector): (b: Bytes)
    ensures |b| == SEL_LEN
  {
    [s.flags, s.offshift, s.nkeys, 0] + Put16(s.offmask) + Put16(s.off) + Put16(s.offoff) + Put16(s.hoff) + Put32(s.hmask)
  }

  /** The key that ends up in slot `i` of a zeroed buffer. */
  function Slot(keys: seq<TcU32Key>, i: nat): TcU32Key {
    if i < |keys| then keys[i] else ZERO_KEY
  }

  function Slots(keys: seq<TcU32Key>, n: nat): (s: seq<TcU32Key>)
    ensures |s| == n
    ensures forall i :: 0 <= i < n ==> s[i] == Slot(keys, i)
  {
    seq(n, i requires 0 <= i < n => Slot(keys, i))
  }

  /** The first `n` slots. */
  function EncodeSlots(keys: seq<TcU32Key>, n: nat): (b: Bytes)
    ensures |b| == 16 * n
  {
    if n == 0 then [] else EncodeSlots(keys, n - 1) + EncodeKey(Slot(keys, n - 1))
  }

  /** `buffer_len` goes by `nkeys`, so there are that many slots whatever the list holds. */
  function EncodeSelector(s: TcU32Selector): (b: Bytes)
    ensures |b| == SEL_LEN + 16 * s.nkeys
  {
    EncodeFixed(s) + EncodeSlots(s.keys, s.nkeys)
  }

  /** The first `n` keys of a payload that has room for them. */
  function DecodeKeys(b: Bytes, n: nat): (keys: seq<TcU32Key>)
    requires 16 * n <= |b|
    ensures |keys| == n
  {
    if n == 0 then [] else DecodeKeys(b, n - 1) + [DecodeKey(b[16 * (n - 1)..16 * n])]
  }

  /** Fewer octets than `nkeys` announces is an out-of-range slice. */
  function DecodeSelector(b: Bytes): Result<TcU32Selector> {
    if |b| < SEL_LEN then Err
    else if |b| < SEL_LEN + 16 * (b[2] as int) then Panic
    else Ok(TcU32Selector(b[0], b[1], b[2], Get16(b[4..6]), Get16(b[6..8]), Get16(b[8..10]), Get16(b[10..12]),
                          Get32(b[12..16]), DecodeKeys(b[SEL_LEN..], b[2])))
  }

  lemma FixedFields(s: TcU32Selector, tail: Bytes)
    ensures var b := EncodeFixed(s) + tail;
            b[0] == s.flags && b[1] == s.offshift && b[2] == s.nkeys && Get16(b[4..6]) == s.offmask &&
            Get16(b[6..8]) == s.off && Get16(b[8..10]) == s.offoff && Get16(b[10..12]) == s.hoff &&
            Get32(b[12..16]) == s.hmask && b[SEL_LEN..] == tail
  {
    hide Put16, Get16, Put32, Get32;
    var b := EncodeFixed(s) + tail;
    assert b[4..6] == Put16(s.offmask) && b[6..8] == Put16(s.off) && b[8..10] == Put16(s.offoff);
    assert b[10..12] == Put16(s.hoff) && b[12..16] == Put32(s.hmask);
  }

  /** Every slot decodes to the key that was put there, whatever follows. */
  lemma {:induction false} SlotsDecode(keys: seq<TcU32Key>, n: nat, tail: Bytes)
    ensures DecodeKeys(EncodeSlots(keys, n) + tail, n) == Slots(keys, n)
  {
    hide EncodeKey, DecodeKey, Slot;
    if n > 0 {
      var k := EncodeKey(Slot(keys, n - 1));
      var b := EncodeSlots(keys, n) + tail;
      assert b == EncodeSlots(keys, n - 1) + (k + tail);
      SlotsDecode(keys, n - 1, k + tail);
      assert b[16 * (n - 1)..16 * n] == k;
      KeyRoundTrip(Slot(keys, n - 1));
    }
  }

  /** The keys that come back are the contents of the slots. */
  lemma SelectorAsDecoded(s: TcU32Selector)
    ensures DecodeSelector(EncodeSelector(s)) ==
            Ok(s.(keys := Slots(s.keys, s.nkeys)))
  {
    var slots := EncodeSlots(s.keys, s.nkeys);
    FixedFields(s, slots);
    SlotsDecode(s.keys, s.nkeys, []);
    assert slots + [] == slots;
    hide EncodeFixed, EncodeSlots, Get16, Get32, DecodeKeys, Slots;
  }

  /** A selector comes back exactly when its count is the number of its keys; a count that
      is too large comes back with zero keys in the slots that were left. */
  lemma SelectorRoundTrip(s: TcU32Selector)
    ensures DecodeSelector(EncodeSelector(s)) == Ok(s) <==> s.nkeys == |s.keys|
    ensures |s.keys| <= s.nkeys ==>
            DecodeSelector(EncodeSelector(s)) == Ok(s.(keys := s.keys + seq(s.nkeys - |s.keys|, i => ZERO_KEY)))
  {
    hide EncodeFixed, EncodeSlots, Get16, Get32, DecodeKeys;
    var n: nat := s.nkeys;
    var out := Slots(s.keys, n);
    assert DecodeSelector(EncodeSelector(s)) == Ok(s.(keys := out)) by {
      SelectorAsDecoded(s);
    }
    hide DecodeSelector, EncodeSelector;
    assert s.(keys := out).keys == out;
    if |s.keys| <= n {
      assert out == s.keys + seq(n - |s.keys|, i => ZERO_KEY);
    }
    if |s.keys| == n {
      assert out == s.keys;
    }
  }

  lemma KeyOctets(b: Bytes)
    requires |b| == KEY_LEN
    ensures EncodeKey(DecodeKey(b)) == b
  {
    PutGet32(b[0..4]);
    PutGet32(b[4..8]);
    PutGet32(b[8..12]);
    PutGet32(b[12..16]);
    hide Put32, Get32;
    assert b == b[0..4] + b[4..8] + b[8..12] + b[12..16];
  }

  lemma {:induction false} SlotsOctets(keys: seq<TcU32Key>, b: Bytes, n: nat)
    requires 16 * n <= |b| && n <= |keys|
    requires forall i :: 0 <= i < n ==> keys[i] == DecodeKeys(b, n)[i]
    ensures EncodeSlots(keys, n) == b[..16 * n]
  {
    hide EncodeKey, DecodeKey;
    if n > 0 {
      assert forall i :: 0 <= i < n - 1 ==> DecodeKeys(b, n)[i] == DecodeKeys(b, n - 1)[i];
      SlotsOctets(keys, b, n - 1);
      KeyOctets(b[16 * (n - 1)..16 * n]);
      assert b[..16 * n] == b[..16 * (n - 1)] + b[16 * (n - 1)..16 * n];
    }
  }

  lemma FixedOctets(b: Bytes, keys: seq<TcU32Key>)
    requires |b| >= SEL_LEN
    ensures EncodeFixed(TcU32Selector(b[0], b[1], b[2], Get16(b[4..6]), Get16(b[6..8]), Get16(b[8..10]), Get16(b[10..12]),
                                      Get32(b[12..16]), keys)) == b[..3] + [0] + b[4..16]
  {
    PutGet16(b[4..6]);
    PutGet16(b[6..8]);
    PutGet16(b[8..10]);
    PutGet16(b[10..12]);
    PutGet32(b[12..16]);
    hide Put16, Get16, Put32, Get32;
    assert b[..3] == [b[0], b[1], b[2]];
    assert b[4..16] == b[4..6] + b[6..8] + b[8..10] + b[10..12] + b[12..16];
  }

  /** On any octets: fewer than 16 are an error, fewer than octet 2 announces a panic, and
      otherwise the selector is written back as the octets it was read from, padding cleared. */
  lemma SelectorOctets(b: Bytes)
    ensures |b| < 16 ==> DecodeSelector(b) == Err
    ensures |b| >= 16 && |b| < 16 + 16 * (b[2] as int) ==> DecodeSelector(b) == Panic
    ensures |b| >= 16 && |b| >= 16 + 16 * (b[2] as int) ==>
            DecodeSelector(b).Ok? &&
            EncodeSelector(DecodeSelector(b).value) == b[..3] + [0] + b[4..16 + 16 * (b[2] as int)]
  {
    hide EncodeSelector;
    if |b| >= 16 && |b| >= 16 + 16 * (b[2] as int) {
      WholeSelector(b, b[2]);
    }
  }

  lemma WholeSelector(b: Bytes, n: nat)
    requires |b| >= 16 && b[2] == n && |b| >= 16 + 16 * n
    ensures DecodeSelector(b).Ok? && EncodeSelector(DecodeSelector(b).value) == b[..3] + [0] + b[4..16 + 16 * n]
  {
    hide EncodeFixed, EncodeSlots, DecodeKeys, Get16, Get32;
    var payload := b[16..];
    var keys := DecodeKeys(payload, n);
    FixedOctets(b, keys);
    SlotsOctets(keys, payload, n);
    assert payload[..16 * n] == b[16..16 + 16 * n];
    assert b[4..16 + 16 * n] == b[4..16] + b[16..16 + 16 * n];
  }

  /** `for i in 0..nkeys`, one 16-octet slice at a time. */
  method ParseSelector(b: Bytes) returns (r: Result<TcU32Selector>)
    ensures r == DecodeSelector(b)
  {
    if |b| < SEL_LEN {
      return Err;
    }
    var nkeys := b[2];
    var payload := b[SEL_LEN..];
    var keys: seq<TcU32Key> := [];
    hide DecodeKey;
    for i := 0 to nkeys
      invariant 16 * i <= |payload|
      invariant keys == DecodeKeys(payload, i)
    {
      if 16 * (i + 1) > |payload| {
        return Panic;
      }
      keys := keys + [DecodeKey(payload[16 * i..16 * (i + 1)])];
    }
    return Ok(TcU32Selector(b[0], b[1], nkeys, Get16(b[4..6]), Get16(b[6..8]), Get16(b[8..10]), Get16(b[10..12]),
                            Get32(b[12..16]), keys));
  }

  lemma {:induction false} SlotsOfKeys(keys: seq<TcU32Key>, n: nat)
    requires |keys| <= n
    ensures EncodeSlots(keys, n) == EncodeSlots(keys, |keys|) + Zeros(16 * (n - |keys|))
  {
    hide EncodeKey;
    if n > |keys| {
      SlotsOfKeys(keys, n - 1);
      assert EncodeKey(ZERO_KEY) == Zeros(KEY_LEN) by {
        ZeroKey();
      }
      assert Zeros(16 * (n - 1 - |keys|)) + Zeros(KEY_LEN) == Zeros(16 * (n - |keys|));
    }
  }

  lemma ZeroKey()
    ensures EncodeKey(ZERO_KEY) == Zeros(KEY_LEN)
  {
    assert Put32(0) == [0, 0, 0, 0];
  }

  predicate ZeroAt(b: Bytes, off: nat, n: nat) {
    off + n <= |b| && b[off..off + n] == Zeros(n)
  }

  /** The key loop: one 16-octet slot at a time, failing at the first key without a slot. */
  method EmitKeys(buf: array<u8>, off: nat, fixed: Bytes, keys: seq<TcU32Key>, slots: nat, ghost was: Bytes) returns (ok: bool)
    requires |fixed| == SEL_LEN && off + SEL_LEN + 16 * slots <= buf.Length == |was|
    requires buf[..] == Splice(was, off, fixed)
    modifies buf
    ensures ok <==> |keys| <= slots
    ensures ok ==> buf[..] == Splice(was, off, fixed + EncodeSlots(keys, |keys|))
  {
    ghost var done: Bytes := fixed;
    assert done + EncodeSlots(keys, 0) == done;
    hide EncodeSlots, EncodeKey, Splice;
    for i := 0 to |keys|
      invariant i <= slots && |done| == SEL_LEN + 16 * i
      invariant done == fixed + EncodeSlots(keys, i)
      invariant buf[..] == Splice(was, off, done)
    {
      if i == slots {
        return false;
      }
      CopyInto(buf, off + SEL_LEN + 16 * i, EncodeKey(keys[i]));
      SpliceTwice(was, off, done, EncodeKey(keys[i]));
      SlotsStep(fixed, keys, i);
      done := done + EncodeKey(keys[i]);
    }
    return true;
  }

  /** Writing a selector into a zeroed slice of `buffer_len` octets. A key without a slot is
      an out-of-range slice: `ok` is false when the crate would panic. */
  method EmitSelector(buf: array<u8>, off: nat, s: TcU32Selector) returns (ok: bool)
    requires off + |EncodeSelector(s)| <= buf.Length
    requires ZeroAt(buf[..], off, |EncodeSelector(s)|)
    modifies buf
    ensures ok <==> |s.keys| <= s.nkeys
    ensures ok ==> buf[..] == Splice(old(buf[..]), off, EncodeSelector(s))
  {
    ghost var was := buf[..];
    hide EncodeFixed, EncodeSlots, EncodeKey, EncodeSelector, Splice, ZeroAt, Zeros;
    CopyInto(buf, off, EncodeFixed(s));
    ok := EmitKeys(buf, off, EncodeFixed(s), s.keys, s.nkeys, was);
    if ok {
      UntouchedSlots(was, off, s);
    }
  }

  lemma SlotsStep(fixed: Bytes, keys: seq<TcU32Key>, i: nat)
    requires i < |keys|
    ensures fixed + EncodeSlots(keys, i) + EncodeKey(keys[i]) == fixed + EncodeSlots(keys, i + 1)
  {
    hide EncodeKey;
  }

  /** What is not written stays zero, which is what the slots without a key hold. */
  lemma UntouchedSlots(was: Bytes, off: nat, s: TcU32Selector)
    requires |s.keys| <= s.nkeys && off + |EncodeSelector(s)| <= |was|
    requires ZeroAt(was, off, |EncodeSelector(s)|)
    ensures Splice(was, off, EncodeFixed(s) + EncodeSlots(s.keys, |s.keys|)) == Splice(was, off, EncodeSelector(s))
  {
    SlotsOfKeys(s.keys, s.nkeys);
    var done := EncodeFixed(s) + EncodeSlots(s.keys, |s.keys|);
    var n := 16 * (s.nkeys - |s.keys|);
    assert EncodeSelector(s) == done + Zeros(n);
    hide EncodeFixed, EncodeSlots, EncodeSelector, ZeroAt, Splice, Zeros;
    SpliceZeros(was, off, done, n);
  }

  lemma SpliceZeros(was: Bytes, off: nat, done: Bytes, n: nat)
    requires ZeroAt(was, off, |done| + n)
    ensures Splice(was, off, done + Zeros(n)) == Splice(was, off, done)
  {
    var from, to := off + |done|, off + |done| + n;
    assert was[from..to] == was[off..to][|done|..] == Zeros(n);
    assert was[from..] == was[from..to] + was[to..];
  }
}
