/**
 Traffic control messages: src/tc/message.rs, attribute.rs, options.rs, header.rs,
 filters/cls_u32.rs, filters/matchall.rs, qdiscs/fq_codel.rs and qdiscs/ingress.rs. The
 latest kind decides how options and statistics are read.
 */
module Tc {
  import opened Wire
  import opened Framing
  import opened Families
  import opened TcSelector
  import opened TcActions

  // ---- handles ----

  datatype TcHandle = TcHandle(major: u16, minor: u16)

  function HandleWord(h: TcHandle): u32 {
    h.major as int * 0x1_0000 + h.minor
  }

  function HandleOf(w: u32): TcHandle {
    TcHandle(w / 0x1_0000, w % 0x1_0000)
  }

  lemma HandleRoundTrip(h: TcHandle, w: u32)
    ensures HandleOf(HandleWord(h)) == h && HandleWord(HandleOf(w)) == w
  {
  }

  // ---- options ----

  /** Who reads the options; `Unknown` stands for every kind the crate has no reader for. */
  datatype Owner = U32 | MatchAll | FqCodel | Ingress | Unknown

  function OwnerOf(kind: Bytes): Owner {
    if kind == Ascii("u32") then U32
    else if kind == Ascii("matchall") then MatchAll
    else if kind == FQ_CODEL then FqCodel
    else if kind == Ascii("ingress") then Ingress
    else Unknown
  }

  datatype Form = AsHandle | AsWord | AsByte | AsOctets | AsSelector | AsActions | AsKept

  /** The arms of the four option decoders. */
  function FormOf(owner: Owner, t: u16): (f: Form)
    ensures f.AsKept? || t < 0x4000
    ensures f.AsSelector? ==> t == 5
    ensures f.AsHandle? ==> t == 1
  {
    match owner
    case U32 =>
      if t == 1 then AsHandle
      else if t in {2, 3, 4, 11} then AsWord
      else if t == 5 then AsSelector
      else if t in {6, 8, 9, 10} then AsOctets
      else if t == 7 then AsActions
      else AsKept
    case MatchAll =>
      if t == 1 then AsHandle
      else if t == 2 then AsActions
      else if t == 3 then AsWord
      else if t == 4 then AsOctets
      else AsKept
    case FqCodel => if 1 <= t <= 9 then AsWord else if 10 <= t <= 11 then AsByte else AsKept
    case Ingress => AsKept
    case Unknown => AsKept
  }

  /** One constructor per wire form; `code` tells the options of that form apart. */
  datatype Body =
    | Handle(code: u16, handle: TcHandle)
    | Word(code: u16, word: u32)
    | Byte(code: u16, value: u8)
    | Octets(code: u16, octets: Bytes)
    | Selector(code: u16, selector: TcU32Selector)
    | Actions(code: u16, actions: seq<TcAction>)
    | Kept(nla: Nla)
  {
    ghost predicate Fits(owner: Owner) {
      match this
      case Handle(c, _) => FormOf(owner, c).AsHandle?
      case Word(c, _) => FormOf(owner, c).AsWord?
      case Byte(c, _) => FormOf(owner, c).AsByte?
      case Octets(c, _) => FormOf(owner, c).AsOctets?
      case Selector(c, s) => FormOf(owner, c).AsSelector? && s.nkeys == |s.keys|
      case Actions(c, acts) => FormOf(owner, c).AsActions? && ActionsFit(acts)
      case Kept(n) => FormOf(owner, n.Type()).AsKept?
    }
  }

  datatype TcOption = TcOption(owner: Owner, body: Body)

  function RawBody(o: Body): Nla {
    match o
    case Handle(c, h) => Nla(c, Put32(HandleWord(h)))
    case Word(c, w) => Nla(c, Put32(w))
    case Byte(c, v) => Nla(c, [v])
    case Octets(c, b) => Nla(c, b)
    case Selector(c, s) => Nla(c, EncodeSelector(s))
    case Actions(c, acts) => Nla(c, EncodeNlas(Map(acts, RawAction)))
    case Kept(n) => n
  }

  function DecodeBody(n: Nla, owner: Owner): Result<Body> {
    match FormOf(owner, n.Type())
    case AsHandle =>
      var w :- ParseU32(n.value);
      Ok(Handle(n.Type(), HandleOf(w)))
    case AsWord =>
      var w :- ParseU32(n.value);
      Ok(Word(n.Type(), w))
    case AsByte =>
      var v :- ParseU8(n.value);
      Ok(Byte(n.Type(), v))
    case AsOctets => Ok(Octets(n.Type(), n.value))
    case AsSelector =>
      var s :- DecodeSelector(n.value);
      Ok(Selector(n.Type(), s))
    case AsActions =>
      var acts :- DecodeList(n.value, DecodeAction);
      Ok(Actions(n.Type(), acts))
    case AsKept => Ok(Kept(n))
  }

  lemma BodyRoundTrip(o: Body, owner: Owner)
    requires RawBody(o).Fits()
    ensures DecodeBody(RawBody(o), owner) == Ok(o) <==> o.Fits(owner)
  {
    hide FormOf, Put32, Get32, EncodeSelector, DecodeSelector, EncodeNlas, DecodeList, ActionsFit, HandleWord, HandleOf;
    match o
    case Handle(_, h) => HandleRoundTrip(h, 0);
    case Selector(_, s) => SelectorRoundTrip(s);
    case Actions(_, acts) => ActionsRoundTrip(acts);
    case _ =>
  }

  function RawOption(o: TcOption): Nla {
    RawBody(o.body)
  }

  function OptionDecoder(owner: Owner): Nla -> Result<TcOption> {
    n => DecodeOption(n, owner)
  }

  function DecodeOption(n: Nla, owner: Owner): Result<TcOption> {
    var body :- DecodeBody(n, owner);
    Ok(TcOption(owner, body))
  }

  ghost predicate OptionFits(o: TcOption, owner: Owner) {
    o.owner == owner && o.body.Fits(owner)
  }

  lemma OptionRoundTrip(o: TcOption, owner: Owner)
    requires RawOption(o).Fits()
    ensures DecodeOption(RawOption(o), owner) == Ok(o) <==> OptionFits(o, owner)
  {
    BodyRoundTrip(o.body, owner);
    hide RawBody, DecodeBody, Body.Fits;
  }

  ghost predicate OptionsFit(os: seq<TcOption>, owner: Owner) {
    !owner.Unknown? && forall i :: 0 <= i < |os| ==> OptionFits(os[i], owner)
  }

  function EncodeOptions(os: seq<TcOption>): Bytes {
    EncodeNlas(Map(os, RawOption))
  }

  /** Under an unknown kind the whole attribute becomes the one option. */
  function DecodeOptions(n: Nla, owner: Owner): Result<seq<TcOption>> {
    if owner.Unknown? then Ok([TcOption(Unknown, Kept(n))])
    else DecodeList(n.value, OptionDecoder(owner))
  }

  lemma OptionsRoundTrip(os: seq<TcOption>, owner: Owner, code: u16)
    requires |EncodeOptions(os)| <= 0xFFFF
    ensures DecodeOptions(Nla(code, EncodeOptions(os)), owner) == Ok(os) <==> OptionsFit(os, owner)
  {
    MembersFit(Map(os, RawOption));
    if owner.Unknown? {
      var n := Nla(code, EncodeOptions(os));
      UnknownOptionsGrow(n, [TcOption(Unknown, Kept(n))]);
    } else {
      ListSurvives(os, RawOption, OptionDecoder(owner));
      hide EncodeNlas, DecodeList, RawOption, DecodeOption, OptionFits;
      forall i | 0 <= i < |os| ensures DecodeOption(RawOption(os[i]), owner) == Ok(os[i]) <==> OptionFits(os[i], owner) {
        OptionRoundTrip(os[i], owner);
      }
      assert forall i :: 0 <= i < |os| ==> OptionDecoder(owner)(RawOption(os[i])) == DecodeOption(RawOption(os[i]), owner);
    }
  }

  /** Options of an unknown kind grow by a header each time they are parsed and emitted. */
  lemma UnknownOptionsGrow(n: Nla, os: seq<TcOption>)
    requires DecodeOptions(n, Unknown) == Ok(os)
    ensures EncodeOptions(os) == EncodeNla(n) && |EncodeOptions(os)| >= |n.value| + 4
  {
    var raw := Map(os, RawOption);
    assert raw == [n];
    assert raw[1..] == [];
    assert EncodeNlas(raw) == EncodeNla(n) + EncodeNlas(raw[1..]);
  }

  // ---- attributes ----

  const OCTET_TYPES: set<u16> := {5, 6, 8}

  datatype TcAttribute =
    | Kind(name: Bytes)
    | Options(options: seq<TcOption>)
    | Stats(stats: Words9)
    | Xstats(xstats: TcXstats)
    | Plain(code: u16, octets: Bytes)
    | Stats2(list: seq<TcStats2>)
    | Chain(v: u32)
    | HwOffload(b: u8)
    | DumpInvisible(flag: bool)
    | Other(nla: Nla)
  {
    ghost predicate Fits(kind: Bytes) {
      match this
      case Options(os) => OptionsFit(os, OwnerOf(kind))
      case Xstats(x) => x.Fits(kind)
      case Plain(c, _) => c in OCTET_TYPES
      case Stats2(ss) => Stats2ListFits(ss, kind)
      case DumpInvisible(f) => f
      case Other(n) => n.Type() !in {1, 2, 3, 4, 5, 6, 7, 8, 10, 11, 12}
      case _ => true
    }
  }

  function RawAttribute(a: TcAttribute): Nla {
    match a
    case Kind(s) => Nla(1, PutString(s))
    case Options(os) => Nla(2, EncodeOptions(os))
    case Stats(ws) => Nla(3, PutWords(ws) + Zeros(4))
    case Xstats(x) => Nla(4, EncodeXstats(x))
    case Plain(c, b) => Nla(c, b)
    case Stats2(ss) => Nla(7, EncodeStats2List(ss))
    case DumpInvisible(_) => Nla(10, [])
    case Chain(v) => Nla(11, Put32(v))
    case HwOffload(b) => Nla(12, [b])
    case Other(n) => n
  }

  const STATS_LEN: nat := 40

  function DecodeAttribute(n: Nla, kind: Bytes): Result<TcAttribute> {
    match n.Type()
    case 1 => Ok(Kind(ParseString(n.value)))
    case 2 =>
      var os :- DecodeOptions(n, OwnerOf(kind));
      Ok(Options(os))
    case 3 =>
      if |n.value| < STATS_LEN then Err
      else
        var ws :- ReadWords(n.value, 9);
        Ok(Stats(ws))
    case 4 =>
      var x :- DecodeXstats(n.value, kind);
      Ok(Xstats(x))
    case 5 => Ok(Plain(5, n.value))
    case 6 => Ok(Plain(6, n.value))
    case 7 =>
      var ss :- DecodeList(n.value, Stats2Decoder(kind));
      Ok(Stats2(ss))
    case 8 => Ok(Plain(8, n.value))
    case 10 => Ok(DumpInvisible(true))
    case 11 =>
      var v :- ParseU32(n.value);
      Ok(Chain(v))
    case 12 =>
      var b :- ParseU8(n.value);
      Ok(HwOffload(b))
    case _ => Ok(Other(n))
  }

  lemma AttributeRoundTrip(a: TcAttribute, kind: Bytes)
    requires RawAttribute(a).Fits()
    ensures DecodeAttribute(RawAttribute(a), kind) == Ok(a) <==> a.Fits(kind)
  {
    hide Put32, Get32, PutString, ParseString, EncodeOptions, DecodeOptions, OptionsFit, EncodeXstats, DecodeXstats,
      TcXstats.Fits, EncodeStats2List, Stats2ListFits, DecodeList, PutWords, ReadWords, OwnerOf;
    match a
    case Options(os) => OptionsRoundTrip(os, OwnerOf(kind), 2);
    case Stats(ws) => ReadWritten(ws, Zeros(4));
    case Xstats(x) => XstatsRoundTrip(x, kind);
    case Stats2(ss) => Stats2ListRoundTrip(ss, kind);
    case _ =>
  }

  // ---- the running kind ----

  function NextKind(kind: Bytes, a: TcAttribute): Bytes {
    if a.Kind? then a.name else kind
  }

  function DecodeAttributes(nlas: seq<Nla>, clean: bool, kind: Bytes): Result<seq<TcAttribute>> {
    if nlas == [] then (if clean then Ok([]) else Err)
    else
      var a :- DecodeAttribute(nlas[0], kind);
      var rest :- DecodeAttributes(nlas[1..], clean, NextKind(kind, a));
      Ok([a] + rest)
  }

  /** The latest kind before position `i`, the empty name if there is none. */
  function KindBefore(xs: seq<TcAttribute>, i: nat): Bytes
    requires i <= |xs|
  {
    if i == 0 then [] else if xs[i - 1].Kind? then xs[i - 1].name else KindBefore(xs, i - 1)
  }

  lemma {:induction false} DecodeFrom(nlas: seq<Nla>, clean: bool, xs: seq<TcAttribute>, i: nat)
    requires |xs| == |nlas| && i <= |xs|
    ensures DecodeAttributes(nlas[i..], clean, KindBefore(xs, i)) == Ok(xs[i..]) <==>
            clean && forall j :: i <= j < |nlas| ==> DecodeAttribute(nlas[j], KindBefore(xs, j)) == Ok(xs[j])
    decreases |xs| - i
  {
    hide DecodeAttribute;
    if i < |xs| {
      DecodeFrom(nlas, clean, xs, i + 1);
      var kind := KindBefore(xs, i);
      var r := DecodeAttribute(nlas[i], kind);
      assert nlas[i..][1..] == nlas[i + 1..];
      assert xs[i..] == [xs[i]] + xs[i + 1..];
      assert KindBefore(xs, i + 1) == NextKind(kind, xs[i]);
      hide KindBefore;
      if DecodeAttributes(nlas[i..], clean, kind) == Ok(xs[i..]) {
        assert xs[i..][0] == r.value;
        assert xs[i..][1..] == DecodeAttributes(nlas[i + 1..], clean, NextKind(kind, r.value)).value;
      }
    } else {
      assert nlas[i..] == [] && xs[i..] == [];
    }
  }

  lemma {:induction false} DecodeLength(nlas: seq<Nla>, clean: bool, kind: Bytes)
    requires DecodeAttributes(nlas, clean, kind).Ok?
    ensures |DecodeAttributes(nlas, clean, kind).value| == |nlas|
  {
    hide DecodeAttribute;
    if nlas != [] {
      DecodeLength(nlas[1..], clean, NextKind(kind, DecodeAttribute(nlas[0], kind).value));
    }
  }

  /** Every attribute decodes under the latest kind before it. */
  predicate DecodesInOrder(nlas: seq<Nla>, xs: seq<TcAttribute>) {
    |xs| == |nlas| && forall j :: 0 <= j < |nlas| ==> DecodeAttribute(nlas[j], KindBefore(xs, j)) == Ok(xs[j])
  }

  /** What the loop with its running kind computes. */
  lemma DecodeMeans(nlas: seq<Nla>, clean: bool, xs: seq<TcAttribute>)
    ensures DecodeAttributes(nlas, clean, []) == Ok(xs) <==> clean && DecodesInOrder(nlas, xs)
  {
    hide DecodeAttribute, KindBefore;
    if DecodeAttributes(nlas, clean, []).Ok? {
      DecodeLength(nlas, clean, []);
    }
    if |xs| == |nlas| {
      assert nlas[0..] == nlas && xs[0..] == xs;
      DecodeFrom(nlas, clean, xs, 0);
      KindAtStart(xs);
    }
  }

  lemma KindAtStart(xs: seq<TcAttribute>)
    ensures KindBefore(xs, 0) == []
  {
  }

  lemma {:induction false} KindOfPrefix(xs: seq<TcAttribute>, n: nat, j: nat)
    requires j <= n <= |xs|
    ensures KindBefore(xs[..n], j) == KindBefore(xs, j)
  {
    if j > 0 {
      KindOfPrefix(xs, n, j - 1);
    }
  }

  /** A prefix of the attributes decodes to the prefix of the result. */
  lemma PrefixDecodes(nlas: seq<Nla>, clean: bool, xs: seq<TcAttribute>, n: nat)
    requires DecodeAttributes(nlas, clean, []) == Ok(xs) && n <= |nlas|
    ensures n <= |xs| && DecodeAttributes(nlas[..n], true, []) == Ok(xs[..n])
  {
    hide DecodeAttribute, KindBefore, DecodeAttributes;
    DecodeMeans(nlas, clean, xs);
    DecodeMeans(nlas[..n], true, xs[..n]);
    forall j | 0 <= j < n ensures DecodeAttribute(nlas[..n][j], KindBefore(xs[..n], j)) == Ok(xs[..n][j]) {
      KindOfPrefix(xs, n, j);
    }
  }

  // ---- messages ----

  datatype TcHeader = TcHeader(family: AddressFamily, index: u32, handle: TcHandle, parent: TcHandle, info: u32)

  datatype TcMessage = TcMessage(header: TcHeader, attributes: seq<TcAttribute>)

  const TC_HEADER_LEN: nat := 20

  /** The family, three octets of padding, and four words. */
  function EncodeHeader(h: TcHeader): (b: Bytes)
    ensures |b| == TC_HEADER_LEN
  {
    [h.family.Code(), 0, 0, 0] + PutWords(HeaderWords(h))
  }

  function HeaderWords(h: TcHeader): (ws: seq<u32>)
    ensures |ws| == 4
  {
    [h.index, HandleWord(h.handle), HandleWord(h.parent), h.info]
  }

  function HeaderOf(family: AddressFamily, ws: seq<u32>): TcHeader
    requires |ws| == 4
  {
    TcHeader(family, ws[0], HandleOf(ws[1]), HandleOf(ws[2]), ws[3])
  }

  function DecodeHeader(b: Bytes): TcHeader
    requires |b| >= TC_HEADER_LEN
  {
    HeaderOf(FamilyOf(b[0]), GetWords(b[4..], 4))
  }

  lemma HeaderAsDecoded(h: TcHeader, tail: Bytes)
    ensures DecodeHeader(EncodeHeader(h) + tail) == h.(family := FamilyOf(h.family.Code()))
    ensures (EncodeHeader(h) + tail)[TC_HEADER_LEN..] == tail
  {
    var ws := HeaderWords(h);
    assert HeaderOf(FamilyOf(h.family.Code()), ws) == h.(family := FamilyOf(h.family.Code())) by {
      HandleRoundTrip(h.handle, 0);
      HandleRoundTrip(h.parent, 0);
    }
    WordsRoundTrip(ws, tail);
    hide PutWords, GetWords, FamilyOf, HeaderWords, HeaderOf, AddressFamily.Code;
    var b := EncodeHeader(h) + tail;
    assert b[4..] == PutWords(ws) + tail;
  }

  lemma HeaderRoundTrip(h: TcHeader, tail: Bytes)
    ensures DecodeHeader(EncodeHeader(h) + tail) == h <==> h.family.Canonical()
    ensures (EncodeHeader(h) + tail)[TC_HEADER_LEN..] == tail
  {
    HeaderAsDecoded(h, tail);
    hide EncodeHeader, DecodeHeader;
    FamilyRoundTrip(h.family, 0);
  }

  function EncodeTc(m: TcMessage): Bytes {
    EncodeHeader(m.header) + EncodeNlas(Map(m.attributes, RawAttribute))
  }

  function DecodeTc(b: Bytes): Result<TcMessage> {
    if |b| < TC_HEADER_LEN then Err
    else
      var f := Scan(b[TC_HEADER_LEN..]);
      var xs :- DecodeAttributes(f.nlas, f.clean, []);
      Ok(TcMessage(DecodeHeader(b), xs))
  }

  /** Every top-level attribute can state its length. */
  predicate SizeBounded(m: TcMessage) {
    AllFit(Map(m.attributes, RawAttribute))
  }

  /** The header's family is canonical and every attribute fits the latest kind before it:
      options only under the four known kinds and of that kind, selectors that count their
      keys, actions with exactly one kind, statistics of the form the kind selects,
      `DumpInvisible` only true, and no `Other` with a known code. */
  ghost predicate Coherent(m: TcMessage) {
    m.header.family.Canonical() && FitInOrder(m.attributes)
  }

  ghost predicate FitInOrder(xs: seq<TcAttribute>) {
    forall j :: 0 <= j < |xs| ==> xs[j].Fits(KindBefore(xs, j))
  }

  lemma RawDecodesInOrder(xs: seq<TcAttribute>)
    requires AllFit(Map(xs, RawAttribute))
    ensures DecodesInOrder(Map(xs, RawAttribute), xs) <==> FitInOrder(xs)
  {
    var nlas := Map(xs, RawAttribute);
    hide DecodeAttribute, RawAttribute, KindBefore, TcAttribute.Fits;
    forall j | 0 <= j < |xs|
      ensures DecodeAttribute(nlas[j], KindBefore(xs, j)) == Ok(xs[j]) <==> xs[j].Fits(KindBefore(xs, j))
    {
      assert nlas[j] == RawAttribute(xs[j]);
      AttributeRoundTrip(xs[j], KindBefore(xs, j));
    }
  }

  /** A size-bounded message comes back unchanged if and only if it is coherent. */
  lemma TcRoundTrip(m: TcMessage)
    requires SizeBounded(m)
    ensures DecodeTc(EncodeTc(m)) == Ok(m) <==> Coherent(m)
  {
    var nlas := Map(m.attributes, RawAttribute);
    HeaderRoundTrip(m.header, EncodeNlas(nlas));
    ScanExact(nlas);
    RawDecodesInOrder(m.attributes);
    hide EncodeHeader, DecodeHeader, EncodeNlas, Scan, DecodeAttributes, RawAttribute, FitInOrder, DecodesInOrder;
    DecodeMeans(nlas, true, m.attributes);
  }

  // ---- the loops ----

  function AttributesFrom(out: seq<TcAttribute>, b: Bytes, kind: Bytes): Result<seq<TcAttribute>> {
    Prepend(out, DecodeAttributes(Scan(b).nlas, Scan(b).clean, kind))
  }

  lemma AttributesStep(out: seq<TcAttribute>, b: Bytes, kind: Bytes)
    requires b != [] && HeadOk(b)
    ensures AttributesFrom(out, b, kind) ==
            match DecodeAttribute(Head(b), kind)
            case Ok(a) => AttributesFrom(out + [a], AfterHead(b), NextKind(kind, a))
            case Err => Err
            case Panic => Panic
  {
    hide DecodeAttribute, HeadOk, Head, AfterHead, NextKind;
    var f := Scan(b);
    var more := Scan(AfterHead(b));
    assert f.nlas[0] == Head(b) && f.nlas[1..] == more.nlas;
    var r := DecodeAttribute(Head(b), kind);
    if r.Ok? {
      PrependTwice(out, r.value, DecodeAttributes(more.nlas, more.clean, NextKind(kind, r.value)));
    }
  }

  lemma AttributesEnd(out: seq<TcAttribute>, b: Bytes, kind: Bytes)
    ensures b == [] ==> AttributesFrom(out, b, kind) == Ok(out)
    ensures b != [] && !HeadOk(b) ==> AttributesFrom(out, b, kind) == Err
  {
    assert out + [] == out;
  }

  /** `Vec<TcAttribute>::parse`: one pass with a running `kind`, empty at first. */
  method ParseAttributes(payload: Bytes) returns (r: Result<seq<TcAttribute>>)
    ensures r == DecodeAttributes(Scan(payload).nlas, Scan(payload).clean, [])
  {
    var attributes: seq<TcAttribute> := [];
    var kind: Bytes := [];
    var it := Iterate(payload);
    assert it.Rest() == payload;
    PrependNothing(DecodeAttributes(Scan(payload).nlas, Scan(payload).clean, []));
    assert AttributesFrom([], payload, []) == DecodeAttributes(Scan(payload).nlas, Scan(payload).clean, []);
    hide AttributesFrom, DecodeAttributes, DecodeAttribute;
    while it.Item().Some?
      invariant it.buffer == payload
      invariant AttributesFrom([], payload, []) == AttributesFrom(attributes, it.Rest(), kind)
      decreases |payload| - it.position
    {
      var item := it.Item().value;
      AttributesEnd(attributes, it.Rest(), kind);
      if item.Err? {
        return Err;
      }
      AttributesStep(attributes, it.Rest(), kind);
      var attribute := DecodeAttribute(item.value, kind);
      if attribute.IsFailure() {
        return attribute.PropagateFailure();
      }
      if attribute.value.Kind? {
        kind := attribute.value.name;
      }
      attributes := attributes + [attribute.value];
      it := it.Advance();
    }
    AttributesEnd(attributes, it.Rest(), kind);
    return Ok(attributes);
  }

  method ParseTc(b: Bytes) returns (r: Result<TcMessage>)
    ensures r == DecodeTc(b)
  {
    if |b| < TC_HEADER_LEN {
      return Err;
    }
    var xs := ParseAttributes(b[TC_HEADER_LEN..]);
    if xs.IsFailure() {
      return xs.PropagateFailure();
    }
    return Ok(TcMessage(DecodeHeader(b), xs.value));
  }

  /** `VecTcOption::parse_with_param`. */
  method ParseOptions(n: Nla, kind: Bytes) returns (r: Result<seq<TcOption>>)
    ensures r == DecodeOptions(n, OwnerOf(kind))
  {
    var owner := OwnerOf(kind);
    if owner.Unknown? {
      return Ok([TcOption(Unknown, Kept(n))]);
    }
    r := ParseList(n.value, OptionDecoder(owner));
  }

  method EmitTc(buf: array<u8>, off: nat, m: TcMessage)
    requires off + |EncodeTc(m)| <= buf.Length
    modifies buf
    ensures buf[..] == Splice(old(buf[..]), off, EncodeTc(m))
  {
    ghost var s := buf[..];
    CopyInto(buf, off, EncodeHeader(m.header));
    EmitNlas(buf, off + TC_HEADER_LEN, Map(m.attributes, RawAttribute));
    SpliceTwice(s, off, EncodeHeader(m.header), EncodeNlas(Map(m.attributes, RawAttribute)));
  }
}
