/**
 Attribute framing: `[len u16][kind u16][value][zero padding to 4]`, where `len`
 counts the header and the value but not the padding.

 `Scan` is everything an `NlasIterator` will yield: the attributes it frames and
 whether it ends because the buffer is used up (`clean`) or in an error. The
 iterator yields at most one error and nothing after it.
 */
module Framing {
  import opened Wire

  /** An attribute as it is framed: the whole 16-bit kind field and the value. */
  datatype Nla = Nla(kind: u16, value: Bytes) {
    /** `NlaBuffer::kind`: the kind field without its two flag bits. */
    function Type(): u16 {
      kind % 0x4000
    }

    /** The length field can hold the length of this attribute. */
    predicate Fits() {
      |value| + 4 <= 0xFFFF
    }
  }

  const NLA_F_NESTED: u16 := 0x8000

  predicate AllFit(nlas: seq<Nla>) {
    forall i :: 0 <= i < |nlas| ==> nlas[i].Fits()
  }

  function Pad(n: nat): (p: nat)
    ensures p < 4 && (n + p) % 4 == 0
  {
    (4 - n % 4) % 4
  }

  /** `buffer_len` of an attribute whose `value_len` is `n`. */
  function PaddedLen(n: nat): (m: nat)
    ensures m % 4 == 0 && n + 4 <= m < n + 8
  {
    4 + n + Pad(n)
  }

  function Header(kind: u16, valueLen: nat): (b: Bytes)
    ensures |b| == 4
  {
    Put16((valueLen + 4) % 0x1_0000) + Put16(kind)
  }

  function EncodeNla(a: Nla): (b: Bytes)
    ensures |b| == PaddedLen(|a.value|)
  {
    Header(a.kind, |a.value|) + a.value + Zeros(Pad(|a.value|))
  }

  function EncodeNlas(nlas: seq<Nla>): (b: Bytes)
    ensures |b| % 4 == 0
  {
    if nlas == [] then []
    else
      var head, rest := EncodeNla(nlas[0]), EncodeNlas(nlas[1..]);
      AlignedSum(|head|, |rest|);
      head + rest
  }

  lemma AlignedSum(m: nat, n: nat)
    requires m % 4 == 0 && n % 4 == 0
    ensures (m + n) % 4 == 0
  {
  }

  lemma {:induction false} EncodeConcat(a: seq<Nla>, b: seq<Nla>)
    ensures EncodeNlas(a + b) == EncodeNlas(a) + EncodeNlas(b)
  {
    if a == [] {
      assert a + b == b;
    } else {
      assert (a + b)[1..] == a[1..] + b;
      EncodeConcat(a[1..], b);
    }
  }

  lemma EncodeSnoc(a: seq<Nla>, x: Nla)
    ensures EncodeNlas(a + [x]) == EncodeNlas(a) + EncodeNla(x)
  {
    EncodeConcat(a, [x]);
    assert EncodeNlas([x][1..]) == [];
  }

  lemma EncodeStep(nlas: seq<Nla>, i: nat)
    requires i < |nlas|
    ensures EncodeNlas(nlas[..i + 1]) == EncodeNlas(nlas[..i]) + EncodeNla(nlas[i])
    ensures |EncodeNlas(nlas[..i + 1])| <= |EncodeNlas(nlas)|
  {
    assert nlas[..i + 1] == nlas[..i] + [nlas[i]];
    EncodeSnoc(nlas[..i], nlas[i]);
    assert nlas == nlas[..i + 1] + nlas[i + 1..];
    EncodeConcat(nlas[..i + 1], nlas[i + 1..]);
  }

  /** `buffer_len` of a list of attributes. */
  function NlasLen(nlas: seq<Nla>): nat {
    if nlas == [] then 0 else PaddedLen(|nlas[0].value|) + NlasLen(nlas[1..])
  }

  lemma {:induction false} NlasLenIs(nlas: seq<Nla>)
    ensures |EncodeNlas(nlas)| == NlasLen(nlas)
  {
    if nlas != [] {
      NlasLenIs(nlas[1..]);
    }
  }

  // ---- the iterator ----

  /** `NlaBuffer::new_checked` accepts `buf`. */
  predicate HeadOk(buf: Bytes) {
    |buf| >= 4 && 4 <= Get16(buf[..2]) <= |buf|
  }

  function Head(buf: Bytes): (a: Nla)
    requires HeadOk(buf)
    ensures a.Fits() && |a.value| + 4 <= |buf|
  {
    Nla(Get16(buf[2..4]), buf[4..Get16(buf[..2])])
  }

  /** What is left after the first attribute: its length rounded up to 4. */
  function AfterHead(buf: Bytes): (rest: Bytes)
    requires HeadOk(buf)
    ensures |rest| + 4 + |Head(buf).value| <= |buf|
  {
    var n := Get16(buf[..2]);
    Drop(buf, n + Pad(n))
  }

  /** What is left from position `m` on; a position past the end leaves nothing. */
  function Drop(b: Bytes, m: nat): (r: Bytes)
    ensures |r| == if m >= |b| then 0 else |b| - m
  {
    if m >= |b| then [] else b[m..]
  }

  datatype Framed = Framed(nlas: seq<Nla>, clean: bool)

  /** The attributes `a`, then everything in `f`. */
  function Join(a: seq<Nla>, f: Framed): Framed {
    Framed(a + f.nlas, f.clean)
  }

  lemma JoinNothing(f: Framed)
    ensures Join([], f) == f
  {
  }

  lemma JoinTwice(a: seq<Nla>, b: seq<Nla>, f: Framed)
    ensures Join(a, Join(b, f)) == Join(a + b, f)
  {
    assert a + (b + f.nlas) == a + b + f.nlas;
  }

  function Scan(buf: Bytes): Framed
    decreases |buf|
  {
    if buf == [] then Framed([], true)
    else if !HeadOk(buf) then Framed([], false)
    else Join([Head(buf)], Scan(AfterHead(buf)))
  }

  /** Headers and values, without padding. */
  function ScanSize(nlas: seq<Nla>): nat {
    if nlas == [] then 0 else 4 + |nlas[0].value| + ScanSize(nlas[1..])
  }

  /** Every attribute that is framed fits its length field, and together they fit the buffer. */
  lemma {:induction false} ScanBounds(buf: Bytes)
    ensures AllFit(Scan(buf).nlas)
    ensures ScanSize(Scan(buf).nlas) <= |buf|
    decreases |buf|
  {
    if buf != [] && HeadOk(buf) {
      ScanBounds(AfterHead(buf));
      assert Scan(buf).nlas[1..] == Scan(AfterHead(buf)).nlas;
    }
  }

  lemma {:induction false} ScanSizeMember(nlas: seq<Nla>, i: nat)
    requires i < |nlas|
    ensures 4 + |nlas[i].value| <= ScanSize(nlas)
  {
    if i > 0 {
      ScanSizeMember(nlas[1..], i - 1);
    }
  }

  lemma ScanOne(a: Nla, tail: Bytes)
    requires a.Fits()
    ensures HeadOk(EncodeNla(a) + tail)
    ensures Head(EncodeNla(a) + tail) == a
    ensures AfterHead(EncodeNla(a) + tail) == tail
  {
    var buf := EncodeNla(a) + tail;
    var n := |a.value| + 4;
    assert buf[..2] == Put16(n);
    assert buf[2..4] == Put16(a.kind);
    assert buf[4..n] == a.value;
    assert n + Pad(n) == |EncodeNla(a)|;
    assert buf[n + Pad(n)..] == tail;
  }

  lemma ScanCons(a: Nla, tail: Bytes)
    requires a.Fits()
    ensures Scan(EncodeNla(a) + tail) == Join([a], Scan(tail))
  {
    ScanOne(a, tail);
  }

  /** Scanning undoes encoding, whatever octets follow. */
  lemma {:induction false} ScanEncode(nlas: seq<Nla>, tail: Bytes)
    requires AllFit(nlas)
    ensures Scan(EncodeNlas(nlas) + tail) == Join(nlas, Scan(tail))
  {
    if nlas == [] {
      assert EncodeNlas(nlas) + tail == tail;
      JoinNothing(Scan(tail));
    } else {
      var a, more := nlas[0], nlas[1..];
      var rest := EncodeNlas(more) + tail;
      assert EncodeNlas(nlas) + tail == EncodeNla(a) + rest;
      calc {
        Scan(EncodeNla(a) + rest);
        { ScanCons(a, rest); }
        Join([a], Scan(rest));
        { ScanEncode(more, tail); }
        Join([a], Join(more, Scan(tail)));
        { JoinTwice([a], more, Scan(tail)); assert [a] + more == nlas; }
        Join(nlas, Scan(tail));
      }
    }
  }

  lemma ScanExact(nlas: seq<Nla>)
    requires AllFit(nlas)
    ensures Scan(EncodeNlas(nlas)) == Framed(nlas, true)
  {
    ScanEncode(nlas, []);
    assert EncodeNlas(nlas) + [] == EncodeNlas(nlas);
    assert nlas + [] == nlas;
  }

  lemma ScanAlone(n: Nla)
    requires n.Fits()
    ensures Scan(EncodeNla(n)) == Framed([n], true)
  {
    ScanExact([n]);
    assert [n][1..] == [];
    assert EncodeNlas([n]) == EncodeNla(n) + EncodeNlas([n][1..]);
  }

  lemma SliceOfPrefix(a: Bytes, b: Bytes, i: nat, j: nat)
    requires i <= j <= |a|
    ensures (a + b)[i..j] == a[i..j]
  {
  }

  lemma DropOfPrefix(a: Bytes, b: Bytes, m: nat)
    requires m <= |a|
    ensures Drop(a + b, m) == Drop(a, m) + b
  {
  }

  lemma HeadConcat(a: Bytes, b: Bytes)
    requires HeadOk(a) && |a| % 4 == 0
    ensures HeadOk(a + b) && Head(a + b) == Head(a)
    ensures AfterHead(a + b) == AfterHead(a) + b
    ensures |AfterHead(a)| % 4 == 0
  {
    hide Get16, Drop;
    var n := Get16(a[..2]);
    SliceOfPrefix(a, b, 0, 2);
    assert a[0..2] == a[..2] && (a + b)[0..2] == (a + b)[..2];
    SliceOfPrefix(a, b, 2, 4);
    SliceOfPrefix(a, b, 4, n);
    assert n + Pad(n) <= |a|;
    DropOfPrefix(a, b, n + Pad(n));
  }

  /** A whole number of aligned attributes can be scanned independently of what follows. */
  lemma {:induction false} ScanConcat(a: Bytes, b: Bytes)
    requires Scan(a).clean && |a| % 4 == 0
    ensures Scan(a + b) == Join(Scan(a).nlas, Scan(b))
    decreases |a|
  {
    if a == [] {
      assert a + b == b;
      JoinNothing(Scan(b));
    } else {
      HeadConcat(a, b);
      var more := AfterHead(a);
      ScanConcat(more, b);
      assert a + b != [];
      JoinTwice([Head(a)], Scan(more).nlas, Scan(b));
    }
  }

  /** `NlasIterator`: a buffer and a position in it. */
  datatype NlasIterator = NlasIterator(buffer: Bytes, position: nat) {
    function Rest(): Bytes {
      Drop(buffer, position)
    }

    /** What the iterator yields next, `None` at the end. */
    function Item(): Option<Result<Nla>> {
      if Rest() == [] then None
      else if HeadOk(Rest()) then Some(Ok(Head(Rest())))
      else Some(Err)
    }

    /** The iterator after it has yielded: an error moves it to the end. */
    function Advance(): (it: NlasIterator)
      requires Item().Some?
      ensures it.buffer == buffer
      ensures position < it.position && position < |buffer|
      ensures it.Rest() == if Item().value.Ok? then AfterHead(Rest()) else []
    {
      var r := Rest();
      if HeadOk(r) then
        var n := Get16(r[..2]);
        this.(position := position + n + Pad(n))
      else this.(position := |buffer|)
    }
  }

  function Iterate(buf: Bytes): NlasIterator {
    NlasIterator(buf, 0)
  }

  // ---- lists of attributes of one type ----

  /** Decode in order; the first failure, or the iterator's error, is the outcome. */
  function DecodeAll<T>(nlas: seq<Nla>, clean: bool, f: Nla -> Result<T>): Result<seq<T>> {
    if nlas == [] then (if clean then Ok([]) else Err)
    else
      var x :- f(nlas[0]);
      var rest :- DecodeAll(nlas[1..], clean, f);
      Ok([x] + rest)
  }

  function DecodeList<T>(buf: Bytes, f: Nla -> Result<T>): Result<seq<T>> {
    DecodeAll(Scan(buf).nlas, Scan(buf).clean, f)
  }

  /** A list decodes exactly when the framing is clean and every element decodes on its own. */
  lemma {:induction false} DecodeAllOk<T>(nlas: seq<Nla>, clean: bool, f: Nla -> Result<T>, out: seq<T>)
    ensures DecodeAll(nlas, clean, f) == Ok(out) <==>
            clean && |out| == |nlas| && forall i :: 0 <= i < |nlas| ==> f(nlas[i]) == Ok(out[i])
  {
    if nlas != [] {
      if out != [] {
        DecodeAllOk(nlas[1..], clean, f, out[1..]);
        assert out == [out[0]] + out[1..];
        if DecodeAll(nlas, clean, f) == Ok(out) {
          forall i | 0 <= i < |nlas| ensures f(nlas[i]) == Ok(out[i]) {
            if i > 0 {
              assert nlas[i] == nlas[1..][i - 1] && out[i] == out[1..][i - 1];
            }
          }
        } else if clean && |out| == |nlas| && forall i :: 0 <= i < |nlas| ==> f(nlas[i]) == Ok(out[i]) {
          forall i | 0 <= i < |nlas| - 1 ensures f(nlas[1..][i]) == Ok(out[1..][i]) {
            assert nlas[1..][i] == nlas[i + 1] && out[1..][i] == out[i + 1];
          }
        }
      }
    }
  }

  function Map<T, U>(xs: seq<T>, f: T -> U): (ys: seq<U>)
    ensures |ys| == |xs|
    ensures forall i :: 0 <= i < |xs| ==> ys[i] == f(xs[i])
  {
    seq(|xs|, i requires 0 <= i < |xs| => f(xs[i]))
  }

  /** Whatever fits a length field holds only attributes that fit theirs. */
  lemma MembersFit(nlas: seq<Nla>)
    requires |EncodeNlas(nlas)| <= 0xFFFF
    ensures AllFit(nlas)
  {
    forall i | 0 <= i < |nlas| ensures nlas[i].Fits() {
      EncodeStep(nlas, i);
    }
  }

  /** If each element survives up to `norm`, so does the list. */
  lemma ListRoundTrip<T>(xs: seq<T>, raw: T -> Nla, f: Nla -> Result<T>, norm: T -> T)
    requires AllFit(Map(xs, raw))
    requires forall i :: 0 <= i < |xs| ==> f(raw(xs[i])) == Ok(norm(xs[i]))
    ensures DecodeList(EncodeNlas(Map(xs, raw)), f) == Ok(Map(xs, norm))
  {
    ScanExact(Map(xs, raw));
    DecodeAllOk(Map(xs, raw), true, f, Map(xs, norm));
  }

  lemma ListExact<T>(xs: seq<T>, raw: T -> Nla, f: Nla -> Result<T>)
    requires AllFit(Map(xs, raw))
    requires forall i :: 0 <= i < |xs| ==> f(raw(xs[i])) == Ok(xs[i])
    ensures DecodeList(EncodeNlas(Map(xs, raw)), f) == Ok(xs)
  {
    ScanExact(Map(xs, raw));
    DecodeAllOk(Map(xs, raw), true, f, xs);
  }

  /** Every element of a decoded list satisfies what every decoded element satisfies. */
  lemma ListSound<T>(b: Bytes, f: Nla -> Result<T>, ok: T -> bool)
    requires DecodeList(b, f).Ok?
    requires forall n: Nla :: f(n).Ok? ==> ok(f(n).value)
    ensures forall i :: 0 <= i < |DecodeList(b, f).value| ==> ok(DecodeList(b, f).value[i])
  {
    var xs := DecodeList(b, f).value;
    DecodeAllOk(Scan(b).nlas, Scan(b).clean, f, xs);
    forall i | 0 <= i < |xs| ensures ok(xs[i]) {
      assert f(Scan(b).nlas[i]) == Ok(xs[i]);
    }
  }

  /** A list survives exactly when each of its elements does. */
  lemma ListSurvives<T>(xs: seq<T>, raw: T -> Nla, f: Nla -> Result<T>)
    requires AllFit(Map(xs, raw))
    ensures DecodeList(EncodeNlas(Map(xs, raw)), f) == Ok(xs) <==>
            forall i :: 0 <= i < |xs| ==> f(raw(xs[i])) == Ok(xs[i])
  {
    var nlas := Map(xs, raw);
    ScanExact(nlas);
    DecodeAllOk(nlas, true, f, xs);
    assert forall i :: 0 <= i < |xs| ==> nlas[i] == raw(xs[i]);
  }

  /** Two decoders that agree on every attribute decode every buffer alike. */
  lemma {:induction false} SameDecoder<T>(nlas: seq<Nla>, clean: bool, f: Nla -> Result<T>, g: Nla -> Result<T>)
    requires forall n :: f(n) == g(n)
    ensures DecodeAll(nlas, clean, f) == DecodeAll(nlas, clean, g)
  {
    if nlas != [] {
      SameDecoder(nlas[1..], clean, f, g);
    }
  }

  function Prepend<T>(out: seq<T>, r: Result<seq<T>>): Result<seq<T>> {
    var rest :- r;
    Ok(out + rest)
  }

  lemma PrependNothing<T>(r: Result<seq<T>>)
    ensures Prepend([], r) == r
  {
    assert r.Ok? ==> [] + r.value == r.value;
  }

  lemma PrependTwice<T>(out: seq<T>, x: T, r: Result<seq<T>>)
    ensures Prepend(out, Prepend([x], r)) == Prepend(out + [x], r)
  {
    assert r.Ok? ==> out + ([x] + r.value) == out + [x] + r.value;
  }

  /** The loop the crate writes for every such list: frame, parse, push. */
  method ParseList<T>(buf: Bytes, f: Nla -> Result<T>) returns (r: Result<seq<T>>)
    ensures r == DecodeList(buf, f)
  {
    var out: seq<T> := [];
    var it := Iterate(buf);
    assert it.Rest() == buf;
    PrependNothing(DecodeList(buf, f));
    while it.Item().Some?
      invariant it.buffer == buf
      invariant DecodeList(buf, f) == Prepend(out, DecodeList(it.Rest(), f))
      decreases |buf| - it.position
    {
      var item := it.Item().value;
      if item.Err? {
        return Err;
      }
      var x := f(item.value);
      if x.IsFailure() {
        return x.PropagateFailure();
      }
      PrependTwice(out, x.value, DecodeList(AfterHead(it.Rest()), f));
      out := out + [x.value];
      it := it.Advance();
    }
    assert out + [] == out;
    return Ok(out);
  }

  // ---- writing attributes in place ----

  /** Writing one attribute: kind, length, value, then explicit zero padding. */
  method EmitNla(buf: array<u8>, off: nat, a: Nla)
    requires off + PaddedLen(|a.value|) <= buf.Length
    modifies buf
    ensures buf[..] == Splice(old(buf[..]), off, EncodeNla(a))
  {
    ghost var s := buf[..];
    var n := |a.value|;
    CopyInto(buf, off, Header(a.kind, n));
    CopyInto(buf, off + 4, a.value);
    SpliceTwice(s, off, Header(a.kind, n), a.value);
    CopyInto(buf, off + 4 + n, Zeros(Pad(n)));
    SpliceTwice(s, off, Header(a.kind, n) + a.value, Zeros(Pad(n)));
  }

  /** The running `start`/`end` offsets of the slice emitter. */
  method EmitNlas(buf: array<u8>, off: nat, nlas: seq<Nla>)
    requires off + |EncodeNlas(nlas)| <= buf.Length
    modifies buf
    ensures buf[..] == Splice(old(buf[..]), off, EncodeNlas(nlas))
  {
    ghost var s := buf[..];
    var start := off;
    SpliceNothing(s, off);
    assert EncodeNlas(nlas[..0]) == [];
    assert nlas[..|nlas|] == nlas;
    hide EncodeNlas, EncodeNla;
    for i := 0 to |nlas|
      invariant start == off + |EncodeNlas(nlas[..i])| <= buf.Length
      invariant buf[..] == Splice(s, off, EncodeNlas(nlas[..i]))
    {
      EncodeStep(nlas, i);
      EmitNla(buf, start, nlas[i]);
      SpliceTwice(s, off, EncodeNlas(nlas[..i]), EncodeNla(nlas[i]));
      start := start + PaddedLen(|nlas[i].value|);
    }
  }
}
