/** IPv6 segment routing headers (section 2 of RFC 8754), src/route/seg6.rs. */
module Srv6 {
  import opened Wire

  const SR6_TLV_HMAC: u8 := 5
  const HMAC_TLV_LEN: u8 := 38

  datatype HmacTlv = HmacTlv(dBit: bool, keyId: u32, hmac: Bytes)

  datatype Ipv6SrHdr = Ipv6SrHdr(
    nexthdr: u8, hdrlen: u8, typ: u8, segmentsLeft: u8, firstSegment: u8, flags: u8, tag: u16,
    segments: seq<Ipv6>, tlvs: seq<HmacTlv>)
  {
    /** The segment list has the length the decoder derives from `segments_left`. */
    predicate Counted() {
      |segments| == (segmentsLeft as int + 1) % 16
    }

    function WithoutTlvs(): Ipv6SrHdr {
      this.(tlvs := [])
    }
  }

  /** The segment byte count, computed in `u8`. */
  function SegmentBytes(segmentsLeft: u8): (n: nat)
    ensures n == 16 * ((segmentsLeft as int + 1) % 16)
  {
    var plusOne := (segmentsLeft as int + 1) % 0x100;
    WrappedCount(plusOne);
    plusOne * 16 % 0x100
  }

  lemma WrappedCount(x: u8)
    ensures x as int * 16 % 0x100 == 16 * (x % 16)
  {
    assert x as int * 16 == 0x100 * (x as int / 16) + 16 * (x % 16);
  }

  // ---- segment lists ----

  function EncodeSegments(ss: seq<Ipv6>): (b: Bytes)
    ensures |b| == 16 * |ss|
  {
    if ss == [] then [] else ss[0] + EncodeSegments(ss[1..])
  }

  function DecodeSegments(b: Bytes): (ss: seq<Ipv6>)
    requires |b| % 16 == 0
    ensures |ss| == |b| / 16
  {
    if b == [] then [] else [b[..16]] + DecodeSegments(b[16..])
  }

  lemma {:induction false} SegmentsRoundTrip(ss: seq<Ipv6>)
    ensures DecodeSegments(EncodeSegments(ss)) == ss
  {
    if ss != [] {
      var b := EncodeSegments(ss);
      assert b[..16] == ss[0];
      assert b[16..] == EncodeSegments(ss[1..]);
      SegmentsRoundTrip(ss[1..]);
    }
  }

  /** `while !segments.is_empty()`: take 16 octets, push, shrink. */
  method ParseSegments(payload: Bytes) returns (out: seq<Ipv6>)
    requires |payload| % 16 == 0
    ensures out == DecodeSegments(payload)
  {
    out := [];
    var segments := payload;
    while segments != []
      invariant |segments| % 16 == 0
      invariant out + DecodeSegments(segments) == DecodeSegments(payload)
      decreases |segments|
    {
      var segment: Ipv6 := segments[..16];
      assert out + ([segment] + DecodeSegments(segments[16..])) == out + [segment] + DecodeSegments(segments[16..]);
      out := out + [segment];
      segments := segments[16..];
    }
    assert out + [] == out;
  }

  // ---- the header ----

  function FixedPart(h: Ipv6SrHdr): (b: Bytes)
    ensures |b| == 8
  {
    [h.nexthdr, h.hdrlen, h.typ, h.segmentsLeft, h.firstSegment, h.flags] + Put16(h.tag)
  }

  /** `emit` writes no TLVs. */
  function EncodeSrh(h: Ipv6SrHdr): (b: Bytes)
    ensures |b| == 8 + 16 * |h.segments|
  {
    FixedPart(h) + EncodeSegments(h.segments)
  }

  function DecodeTlvs(b: Bytes): Result<seq<HmacTlv>> {
    if b == [] then Ok([])
    else if |b| < 4 then Err
    else if b[0] != SR6_TLV_HMAC then Ok([])
    else if b[1] != HMAC_TLV_LEN then Err
    else if |b| < 40 then Panic
    else Ok([HmacTlv(b[2] >= 0x80, GetBe32(b[4..8]), b[8..40])])
  }

  function HeaderOf(b: Bytes, segments: seq<Ipv6>, tlvs: seq<HmacTlv>): Ipv6SrHdr
    requires |b| >= 8
  {
    Ipv6SrHdr(b[0], b[1], b[2], b[3], b[4], b[5], Get16(b[6..8]), segments, tlvs)
  }

  function DecodeSrh(b: Bytes): Result<Ipv6SrHdr> {
    if |b| < 8 then Err
    else
      var n := SegmentBytes(b[3]);
      if |b| - 8 < n then Err
      else
        var tlvs :- DecodeTlvs(b[8 + n..]);
        Ok(HeaderOf(b, DecodeSegments(b[8..8 + n]), tlvs))
  }

  lemma HeaderOfFixedPart(h: Ipv6SrHdr, tail: Bytes, segments: seq<Ipv6>, tlvs: seq<HmacTlv>)
    ensures HeaderOf(FixedPart(h) + tail, segments, tlvs) == h.(segments := segments, tlvs := tlvs)
  {
    var b := FixedPart(h) + tail;
    assert b[6..8] == Put16(h.tag);
  }

  /** Re-decoding a header with the right segment count loses exactly its TLVs. */
  lemma SrhNormalises(h: Ipv6SrHdr)
    requires h.Counted()
    ensures DecodeSrh(EncodeSrh(h)) == Ok(h.WithoutTlvs())
  {
    var b := EncodeSrh(h);
    var n := 16 * |h.segments|;
    assert b[3] == h.segmentsLeft;
    assert SegmentBytes(b[3]) == n;
    hide EncodeSegments, DecodeSegments, HeaderOf;
    assert b[8..8 + n] == EncodeSegments(h.segments);
    assert b[8 + n..] == [];
    SegmentsRoundTrip(h.segments);
    HeaderOfFixedPart(h, EncodeSegments(h.segments), h.segments, []);
  }

  // ---- reading and writing back ----

  lemma {:induction false} SegmentsOctets(b: Bytes)
    requires |b| % 16 == 0
    ensures EncodeSegments(DecodeSegments(b)) == b
  {
    if b != [] {
      SegmentsOctets(b[16..]);
      assert DecodeSegments(b)[1..] == DecodeSegments(b[16..]);
      assert b == b[..16] + b[16..];
    }
  }

  lemma FixedOctets(b: Bytes, segments: seq<Ipv6>, tlvs: seq<HmacTlv>)
    requires |b| >= 8
    ensures FixedPart(HeaderOf(b, segments, tlvs)) == b[..8]
  {
    PutGet16(b[6..8]);
    hide Put16, Get16;
    assert b[..8] == [b[0], b[1], b[2], b[3], b[4], b[5]] + b[6..8];
  }

  /** A header that decodes is written back as the octets it was read from, up to its TLVs. */
  lemma SrhOctets(b: Bytes)
    requires DecodeSrh(b).Ok?
    ensures |b| >= 8 + SegmentBytes(b[3]) && EncodeSrh(DecodeSrh(b).value) == b[..8 + SegmentBytes(b[3])]
  {
    var n := SegmentBytes(b[3]);
    var h := DecodeSrh(b).value;
    SegmentsOctets(b[8..8 + n]);
    FixedOctets(b, h.segments, h.tlvs);
    hide FixedPart, EncodeSegments, DecodeSegments, HeaderOf;
    assert b[..8 + n] == b[..8] + b[8..8 + n];
  }

  /** A tunnel decodes exactly when it is a mode, a fixed part and whole segments, and then it
      is written back as the octets it was read from. */
  lemma TunnelOctets(b: Bytes)
    ensures DecodeTunnel(b).Ok? <==> |b| >= 12 && (|b| - 12) % 16 == 0
    ensures !DecodeTunnel(b).Panic?
    ensures DecodeTunnel(b).Ok? ==> EncodeTunnel(DecodeTunnel(b).value) == b
  {
    if DecodeTunnel(b).Ok? {
      var t := DecodeTunnel(b).value;
      var rest := b[4..];
      PutGet32(b[..4]);
      SegmentsOctets(rest[8..]);
      FixedOctets(rest, t.headers[0].segments, []);
      assert EncodeHeaders(t.headers[1..]) == [];
      hide FixedPart, EncodeSegments, DecodeSegments, HeaderOf, Put32, Get32;
      assert b == b[..4] + (rest[..8] + rest[8..]);
    }
  }

  // ---- TLVs, which are read but never written by `emit` ----

  /** An HMAC TLV as section 2.1.2 of RFC 8754 lays it out: type 5, length 38, the D bit on
      top of 15 reserved bits, the key id in network order, 32 octets. */
  function HmacOctets(t: HmacTlv, reserved: u16): (b: Bytes)
    requires reserved < 0x8000 && |t.hmac| == 32
    ensures |b| == 40
  {
    [5, 38] + PutBe16((if t.dBit then 0x8000 else 0) + reserved) + PutBe32(t.keyId) + t.hmac
  }

  /** The octets of a header up to its TLVs, and then `tlvs`. */
  lemma HeaderThenTlvs(h: Ipv6SrHdr, tlvs: Bytes)
    requires h.Counted()
    ensures DecodeSrh(EncodeSrh(h) + tlvs) ==
            match DecodeTlvs(tlvs)
            case Ok(ts) => Ok(h.(tlvs := ts))
            case Err => Err
            case Panic => Panic
  {
    var b := EncodeSrh(h) + tlvs;
    var n := 16 * |h.segments|;
    assert b == FixedPart(h) + (EncodeSegments(h.segments) + tlvs);
    assert b[3] == h.segmentsLeft;
    assert SegmentBytes(b[3]) == n;
    assert b[8..8 + n] == EncodeSegments(h.segments);
    assert b[8 + n..] == tlvs;
    SegmentsRoundTrip(h.segments);
    hide EncodeSegments, DecodeSegments, DecodeTlvs, FixedPart, HeaderOf, EncodeSrh;
    if DecodeTlvs(tlvs).Ok? {
      HeaderOfFixedPart(h, EncodeSegments(h.segments) + tlvs, h.segments, DecodeTlvs(tlvs).value);
    }
  }

  /** A header followed by an HMAC TLV decodes to that TLV, whatever octets come after it. */
  lemma HmacIsRead(h: Ipv6SrHdr, t: HmacTlv, reserved: u16, tail: Bytes)
    requires h.Counted() && reserved < 0x8000 && |t.hmac| == 32
    ensures DecodeSrh(EncodeSrh(h) + HmacOctets(t, reserved) + tail) == Ok(h.(tlvs := [t]))
  {
    var b := HmacOctets(t, reserved) + tail;
    HeaderThenTlvs(h, b);
    assert EncodeSrh(h) + HmacOctets(t, reserved) + tail == EncodeSrh(h) + b;
    hide PutBe32, GetBe32, EncodeSrh, DecodeSrh;
    assert b[4..8] == PutBe32(t.keyId);
    assert b[8..40] == t.hmac;
    assert DecodeTlvs(b) == Ok([t]);
  }

  /** Every other way a header can go on: another TLV is skipped, an HMAC of the wrong length
      and less than four octets are errors, and a cut HMAC is an out-of-range slice. */
  lemma OtherTlvs(h: Ipv6SrHdr, tlvs: Bytes)
    requires h.Counted()
    ensures |tlvs| >= 4 && tlvs[0] != 5 ==> DecodeSrh(EncodeSrh(h) + tlvs) == Ok(h.(tlvs := []))
    ensures |tlvs| >= 4 && tlvs[0] == 5 && tlvs[1] != 38 ==> DecodeSrh(EncodeSrh(h) + tlvs) == Err
    ensures 1 <= |tlvs| < 4 ==> DecodeSrh(EncodeSrh(h) + tlvs) == Err
    ensures 4 <= |tlvs| < 40 && tlvs[0] == 5 && tlvs[1] == 38 ==> DecodeSrh(EncodeSrh(h) + tlvs) == Panic
  {
    HeaderThenTlvs(h, tlvs);
    hide EncodeSrh, DecodeSrh;
  }

  /** Every header that is decoded has the segment count its own `segments_left` asks for. */
  lemma SrhCounted(b: Bytes)
    requires DecodeSrh(b).Ok?
    ensures DecodeSrh(b).value.Counted()
  {
  }

  /** A header survives encoding and decoding exactly when its count field matches and it has no TLVs. */
  lemma SrhRoundTrip(h: Ipv6SrHdr)
    ensures DecodeSrh(EncodeSrh(h)) == Ok(h) <==> h.Counted() && h.tlvs == []
  {
    if DecodeSrh(EncodeSrh(h)) == Ok(h) {
      SrhCounted(EncodeSrh(h));
      SrhNormalises(h);
    } else if h.Counted() {
      SrhNormalises(h);
    }
  }

  /** The fixed part and the first `i` segments. */
  function SrhPrefix(h: Ipv6SrHdr, i: nat): (b: Bytes)
    requires i <= |h.segments|
    ensures |b| == 8 + 16 * i
  {
    FixedPart(h) + EncodeSegments(h.segments[..i])
  }

  lemma SrhPrefixStep(h: Ipv6SrHdr, i: nat)
    requires i < |h.segments|
    ensures SrhPrefix(h, i + 1) == SrhPrefix(h, i) + h.segments[i]
  {
    assert h.segments[..i + 1] == h.segments[..i] + [h.segments[i]];
    EncodeSegmentsSnoc(h.segments[..i], h.segments[i]);
  }

  lemma SrhPrefixEnds(h: Ipv6SrHdr)
    ensures SrhPrefix(h, 0) == FixedPart(h)
    ensures SrhPrefix(h, |h.segments|) == EncodeSrh(h)
  {
    assert h.segments[..|h.segments|] == h.segments;
  }

  /** The loop over `segment` with the running `index`. */
  method EmitSrh(buf: array<u8>, off: nat, h: Ipv6SrHdr)
    requires off + 8 + 16 * |h.segments| <= buf.Length
    modifies buf
    ensures buf[..] == Splice(old(buf[..]), off, EncodeSrh(h))
  {
    ghost var s := buf[..];
    SrhPrefixEnds(h);
    hide FixedPart, SrhPrefix, EncodeSrh;
    CopyInto(buf, off, FixedPart(h));
    var index := off + 8;
    for i := 0 to |h.segments|
      invariant index == off + 8 + 16 * i
      invariant buf[..] == Splice(s, off, SrhPrefix(h, i))
    {
      SrhPrefixStep(h, i);
      CopyInto(buf, index, h.segments[i]);
      SpliceTwice(s, off, SrhPrefix(h, i), h.segments[i]);
      index := index + 16;
    }
  }

  lemma {:induction false} EncodeSegmentsSnoc(ss: seq<Ipv6>, x: Ipv6)
    ensures EncodeSegments(ss + [x]) == EncodeSegments(ss) + x
  {
    if ss == [] {
      assert [x][1..] == [];
    } else {
      assert (ss + [x])[1..] == ss[1..] + [x];
      EncodeSegmentsSnoc(ss[1..], x);
    }
  }

  // ---- the tunnel encapsulation: a mode and headers ----

  datatype Seg6IpTunnelEncap = Seg6IpTunnelEncap(mode: u32, headers: seq<Ipv6SrHdr>) {
    /** The decoder always produces one header. */
    predicate Single() {
      |headers| == 1
    }

    function WithoutTlvs(): Seg6IpTunnelEncap
      requires Single()
    {
      this.(headers := [headers[0].WithoutTlvs()])
    }
  }

  function EncodeHeaders(hs: seq<Ipv6SrHdr>): Bytes {
    if hs == [] then [] else EncodeSrh(hs[0]) + EncodeHeaders(hs[1..])
  }

  function EncodeTunnel(t: Seg6IpTunnelEncap): Bytes {
    Put32(t.mode) + EncodeHeaders(t.headers)
  }

  /** Here the segments are whatever octets are left, and there are no TLVs. */
  function DecodeTunnel(b: Bytes): Result<Seg6IpTunnelEncap> {
    if |b| < 4 || |b| - 4 < 8 || (|b| - 12) % 16 != 0 then Err
    else
      var rest := b[4..];
      Ok(Seg6IpTunnelEncap(Get32(b[..4]), [HeaderOf(rest, DecodeSegments(rest[8..]), [])]))
  }

  lemma TunnelNormalises(t: Seg6IpTunnelEncap)
    requires t.Single()
    ensures DecodeTunnel(EncodeTunnel(t)) == Ok(t.WithoutTlvs())
  {
    var h := t.headers[0];
    assert t.headers[1..] == [];
    assert EncodeHeaders(t.headers) == EncodeSrh(h) + [] == EncodeSrh(h);
    var b := EncodeTunnel(t);
    assert b[..4] == Put32(t.mode);
    assert b[4..] == EncodeSrh(h);
    assert EncodeSrh(h)[8..] == EncodeSegments(h.segments);
    SegmentsRoundTrip(h.segments);
    HeaderOfFixedPart(h, EncodeSegments(h.segments), h.segments, []);
  }

  /** One header without TLVs survives for any number of segments, and nothing else does. */
  lemma TunnelRoundTrip(t: Seg6IpTunnelEncap)
    ensures DecodeTunnel(EncodeTunnel(t)) == Ok(t) <==> t.Single() && t.headers[0].tlvs == []
  {
    if t.Single() {
      TunnelNormalises(t);
      assert t.headers == [t.headers[0]];
    }
  }

  /** On a payload of one header and `segments_left + 1` segments the two decoders agree
      exactly while the `u8` byte count does not wrap. */
  lemma DecodersAgree(mode: u32, b: Bytes)
    requires |b| >= 8 && |b| == 8 + 16 * (b[3] as int + 1)
    ensures DecodeTunnel(Put32(mode) + b).Ok?
    ensures DecodeSrh(b) == Ok(DecodeTunnel(Put32(mode) + b).value.headers[0]) <==> b[3] <= 14
  {
    var p := Put32(mode) + b;
    assert p[4..] == b;
    var h := DecodeTunnel(p).value.headers[0];
    assert |h.segments| == b[3] as int + 1;
    if b[3] <= 14 {
      assert b[8 + 16 * (b[3] as int + 1)..] == [];
      assert b[8..8 + 16 * (b[3] as int + 1)] == b[8..];
    } else if DecodeSrh(b).Ok? {
      SrhCounted(b);
    }
  }

  /** The mode and the first `i` headers. */
  function TunnelPrefix(t: Seg6IpTunnelEncap, i: nat): Bytes
    requires i <= |t.headers|
  {
    Put32(t.mode) + EncodeHeaders(t.headers[..i])
  }

  lemma TunnelPrefixStep(t: Seg6IpTunnelEncap, i: nat)
    requires i < |t.headers|
    ensures TunnelPrefix(t, i + 1) == TunnelPrefix(t, i) + EncodeSrh(t.headers[i])
    ensures |TunnelPrefix(t, i + 1)| <= |EncodeTunnel(t)|
  {
    EncodeHeadersStep(t.headers, i);
  }

  lemma TunnelPrefixEnds(t: Seg6IpTunnelEncap)
    ensures TunnelPrefix(t, 0) == Put32(t.mode)
    ensures TunnelPrefix(t, |t.headers|) == EncodeTunnel(t)
  {
    assert t.headers[..|t.headers|] == t.headers;
  }

  method EmitTunnel(buf: array<u8>, off: nat, t: Seg6IpTunnelEncap)
    requires off + |EncodeTunnel(t)| <= buf.Length
    modifies buf
    ensures buf[..] == Splice(old(buf[..]), off, EncodeTunnel(t))
  {
    ghost var s := buf[..];
    TunnelPrefixEnds(t);
    assert |EncodeTunnel(t)| >= 4;
    hide TunnelPrefix, EncodeSrh, EncodeTunnel;
    CopyInto(buf, off, Put32(t.mode));
    var index := off + 4;
    for i := 0 to |t.headers|
      invariant index == off + |TunnelPrefix(t, i)| <= buf.Length
      invariant buf[..] == Splice(s, off, TunnelPrefix(t, i))
    {
      TunnelPrefixStep(t, i);
      EmitSrh(buf, index, t.headers[i]);
      SpliceTwice(s, off, TunnelPrefix(t, i), EncodeSrh(t.headers[i]));
      index := index + 8 + 16 * |t.headers[i].segments|;
    }
  }

  lemma {:induction false} EncodeHeadersConcat(a: seq<Ipv6SrHdr>, b: seq<Ipv6SrHdr>)
    ensures EncodeHeaders(a + b) == EncodeHeaders(a) + EncodeHeaders(b)
  {
    if a == [] {
      assert a + b == b;
    } else {
      assert (a + b)[1..] == a[1..] + b;
      EncodeHeadersConcat(a[1..], b);
    }
  }

  lemma EncodeHeadersStep(hs: seq<Ipv6SrHdr>, i: nat)
    requires i < |hs|
    ensures EncodeHeaders(hs[..i + 1]) == EncodeHeaders(hs[..i]) + EncodeSrh(hs[i])
    ensures |EncodeHeaders(hs[..i + 1])| <= |EncodeHeaders(hs)|
  {
    assert hs[..i + 1] == hs[..i] + [hs[i]];
    EncodeHeadersConcat(hs[..i], [hs[i]]);
    assert EncodeHeaders([hs[i]]) == EncodeSrh(hs[i]) + EncodeHeaders([hs[i]][1..]);
    assert hs == hs[..i + 1] + hs[i + 1..];
    EncodeHeadersConcat(hs[..i + 1], hs[i + 1..]);
  }
}
