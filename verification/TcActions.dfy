/**
 Statistics and actions of traffic control: src/tc/stats/, src/tc/actions/action.rs,
 mirror.rs and nat.rs. The kind of an action decides how all its attributes are read, and
 it may come after them.
 */
module TcActions {
  import opened Wire
  import opened Framing
  import opened Permutations

  // ---- records of words ----

  type Words3 = s: seq<u32> | |s| == 3 witness [0, 0, 0]
  type Words5 = s: seq<u32> | |s| == 5 witness [0, 0, 0, 0, 0]
  type Words6 = s: seq<u32> | |s| == 6 witness [0, 0, 0, 0, 0, 0]
  type Words7 = s: seq<u32> | |s| == 7 witness [0, 0, 0, 0, 0, 0, 0]
  type Words9 = s: seq<u32> | |s| == 9 witness [0, 0, 0, 0, 0, 0, 0, 0, 0]

  /** Reading a record through an unchecked buffer panics on a short one. */
  function ReadWords(b: Bytes, n: nat): (r: Result<seq<u32>>)
    ensures r.Ok? ==> |r.value| == n
  {
    if |b| < 4 * n then Panic else Ok(GetWords(b, n))
  }

  lemma ReadWritten(ws: seq<u32>, tail: Bytes)
    ensures ReadWords(PutWords(ws) + tail, |ws|) == Ok(ws)
  {
    WordsRoundTrip(ws, tail);
  }

  lemma ReadExactly(ws: seq<u32>)
    ensures ReadWords(PutWords(ws), |ws|) == Ok(ws)
  {
    ReadWritten(ws, []);
    assert PutWords(ws) + [] == PutWords(ws);
  }

  // ---- TcXstats: a tag under fq_codel, octets under every other kind ----

  const FQ_CODEL: Bytes := Ascii("fq_codel")

  datatype TcXstats = FqQdisc(qdisc: Words9) | FqClass(class_: Words6) | FqOther(octets: Bytes) | OtherXstats(octets: Bytes) {
    predicate Fits(kind: Bytes) {
      match this
      case FqQdisc(_) => kind == FQ_CODEL
      case FqClass(_) => kind == FQ_CODEL
      case FqOther(b) => kind == FQ_CODEL && |b| >= 4 && Get32(b[..4]) !in {0, 1}
      case OtherXstats(_) => kind != FQ_CODEL
    }
  }

  function EncodeXstats(x: TcXstats): Bytes {
    match x
    case FqQdisc(ws) => Put32(0) + PutWords(ws)
    case FqClass(ws) => Put32(1) + PutWords(ws)
    case FqOther(b) => b
    case OtherXstats(b) => b
  }

  function DecodeXstats(b: Bytes, kind: Bytes): Result<TcXstats> {
    if kind != FQ_CODEL then Ok(OtherXstats(b))
    else if |b| < 4 then Err
    else if Get32(b[..4]) == 0 then
      var ws :- ReadWords(b[4..], 9);
      Ok(FqQdisc(ws))
    else if Get32(b[..4]) == 1 then
      var ws :- ReadWords(b[4..], 6);
      Ok(FqClass(ws))
    else Ok(FqOther(b))
  }

  lemma XstatsRoundTrip(x: TcXstats, kind: Bytes)
    ensures DecodeXstats(EncodeXstats(x), kind) == Ok(x) <==> x.Fits(kind)
  {
    hide Put32, Get32, ReadWords, PutWords;
    var b := EncodeXstats(x);
    match x
    case FqQdisc(ws) =>
      assert b[..4] == Put32(0) && b[4..] == PutWords(ws);
      ReadExactly(ws);
    case FqClass(ws) =>
      assert b[..4] == Put32(1) && b[4..] == PutWords(ws);
      ReadExactly(ws);
    case _ =>
  }

  // ---- TcStats2 ----

  datatype TcStats2 = App(stats: TcXstats) | Basic(words: Words3) | Queue(queue: Words5) | BasicHw(words: Words3) | StatsOther(nla: Nla) {
    predicate Fits(kind: Bytes) {
      match this
      case App(x) => x.Fits(kind)
      case StatsOther(n) => n.Type() !in {1, 3, 4, 7}
      case _ => true
    }
  }

  function RawStats2(s: TcStats2): Nla {
    match s
    case Basic(ws) => Nla(1, PutWords(ws) + Zeros(4))
    case Queue(ws) => Nla(3, PutWords(ws))
    case App(x) => Nla(4, EncodeXstats(x))
    case BasicHw(ws) => Nla(7, PutWords(ws) + Zeros(4))
    case StatsOther(n) => n
  }

  function DecodeStats2(n: Nla, kind: Bytes): Result<TcStats2> {
    match n.Type()
    case 1 =>
      var ws :- ReadWords(n.value, 3);
      Ok(Basic(ws))
    case 3 =>
      var ws :- ReadWords(n.value, 5);
      Ok(Queue(ws))
    case 4 =>
      var x :- DecodeXstats(n.value, kind);
      Ok(App(x))
    case 7 =>
      var ws :- ReadWords(n.value, 3);
      Ok(BasicHw(ws))
    case _ => Ok(StatsOther(n))
  }

  lemma Stats2RoundTrip(s: TcStats2, kind: Bytes)
    ensures DecodeStats2(RawStats2(s), kind) == Ok(s) <==> s.Fits(kind)
  {
    hide ReadWords, PutWords, EncodeXstats, DecodeXstats, TcXstats.Fits;
    match s
    case Basic(ws) => ReadWritten(ws, Zeros(4));
    case BasicHw(ws) => ReadWritten(ws, Zeros(4));
    case Queue(ws) => ReadExactly(ws);
    case App(x) => XstatsRoundTrip(x, kind);
    case StatsOther(_) =>
  }

  function Stats2Decoder(kind: Bytes): Nla -> Result<TcStats2> {
    n => DecodeStats2(n, kind)
  }

  function EncodeStats2List(ss: seq<TcStats2>): Bytes {
    EncodeNlas(Map(ss, RawStats2))
  }

  predicate Stats2ListFits(ss: seq<TcStats2>, kind: Bytes) {
    forall i :: 0 <= i < |ss| ==> ss[i].Fits(kind)
  }

  lemma Stats2ListRoundTrip(ss: seq<TcStats2>, kind: Bytes)
    requires |EncodeStats2List(ss)| <= 0xFFFF
    ensures DecodeList(EncodeStats2List(ss), Stats2Decoder(kind)) == Ok(ss) <==> Stats2ListFits(ss, kind)
  {
    MembersFit(Map(ss, RawStats2));
    ListSurvives(ss, RawStats2, Stats2Decoder(kind));
    hide EncodeNlas, DecodeList, RawStats2, DecodeStats2, TcStats2.Fits;
    forall i | 0 <= i < |ss| ensures DecodeStats2(RawStats2(ss[i]), kind) == Ok(ss[i]) <==> ss[i].Fits(kind) {
      Stats2RoundTrip(ss[i], kind);
    }
    assert forall i :: 0 <= i < |ss| ==> Stats2Decoder(kind)(RawStats2(ss[i])) == DecodeStats2(RawStats2(ss[i]), kind);
  }

  // ---- options of an action ----

  const MIRRED: Bytes := Ascii("mirred")
  const NAT: Bytes := Ascii("nat")

  datatype Engine = IsMirror | IsNat | IsUnknown

  function EngineOf(kind: Bytes): Engine {
    if kind == MIRRED then IsMirror else if kind == NAT then IsNat else IsUnknown
  }

  datatype TcActionOption =
    | MirrorTm(octets: Bytes) | MirrorParms(mirror: Words7) | MirrorOther(nla: Nla)
    | NatTm(octets: Bytes) | NatParms(nat_: Words9) | NatOther(nla: Nla)
    | UnknownOption(nla: Nla)
  {
    predicate Fits(engine: Engine) {
      match engine
      case IsMirror => MirrorTm? || MirrorParms? || (MirrorOther? && nla.Type() !in {1, 2})
      case IsNat => NatTm? || NatParms? || (NatOther? && nla.Type() !in {1, 2})
      case IsUnknown => UnknownOption?
    }
  }

  function RawActionOption(o: TcActionOption): Nla {
    match o
    case MirrorTm(b) => Nla(1, b)
    case MirrorParms(ws) => Nla(2, PutWords(ws))
    case NatParms(ws) => Nla(1, PutWords(ws))
    case NatTm(b) => Nla(2, b)
    case MirrorOther(n) => n
    case NatOther(n) => n
    case UnknownOption(n) => n
  }

  /** `new_checked` makes a short record an error. */
  function CheckedWords(b: Bytes, n: nat): (r: Result<seq<u32>>)
    ensures r.Ok? ==> |r.value| == n
  {
    if |b| < 4 * n then Err else ReadWords(b, n)
  }

  function DecodeActionOption(n: Nla, engine: Engine): Result<TcActionOption> {
    match engine
    case IsMirror => (
      match n.Type()
      case 1 => Ok(MirrorTm(n.value))
      case 2 =>
        var ws :- CheckedWords(n.value, 7);
        Ok(MirrorParms(ws))
      case _ => Ok(MirrorOther(n)))
    case IsNat => (
      match n.Type()
      case 1 =>
        var ws :- CheckedWords(n.value, 9);
        Ok(NatParms(ws))
      case 2 => Ok(NatTm(n.value))
      case _ => Ok(NatOther(n)))
    case IsUnknown => Ok(UnknownOption(n))
  }

  lemma ActionOptionRoundTrip(o: TcActionOption, engine: Engine)
    ensures DecodeActionOption(RawActionOption(o), engine) == Ok(o) <==> o.Fits(engine)
  {
    hide ReadWords, PutWords;
    match o
    case MirrorParms(ws) => ReadExactly(ws);
    case NatParms(ws) => ReadExactly(ws);
    case _ =>
  }

  function ActionOptionDecoder(engine: Engine): Nla -> Result<TcActionOption> {
    n => DecodeActionOption(n, engine)
  }

  predicate ActionOptionsFit(os: seq<TcActionOption>, engine: Engine) {
    forall i :: 0 <= i < |os| ==> os[i].Fits(engine)
  }

  lemma ActionOptionsRoundTrip(os: seq<TcActionOption>, engine: Engine)
    requires |EncodeNlas(Map(os, RawActionOption))| <= 0xFFFF
    ensures DecodeList(EncodeNlas(Map(os, RawActionOption)), ActionOptionDecoder(engine)) == Ok(os) <==> ActionOptionsFit(os, engine)
  {
    MembersFit(Map(os, RawActionOption));
    ListSurvives(os, RawActionOption, ActionOptionDecoder(engine));
    hide EncodeNlas, DecodeList, RawActionOption, DecodeActionOption, TcActionOption.Fits;
    forall i | 0 <= i < |os| ensures DecodeActionOption(RawActionOption(os[i]), engine) == Ok(os[i]) <==> os[i].Fits(engine) {
      ActionOptionRoundTrip(os[i], engine);
    }
    assert forall i :: 0 <= i < |os| ==> ActionOptionDecoder(engine)(RawActionOption(os[i])) == DecodeActionOption(RawActionOption(os[i]), engine);
  }

  // ---- attributes of an action ----

  const TCA_ACT_KIND: u16 := 1

  datatype TcActionAttribute =
    | ActKind(name: Bytes) | ActOptions(options: seq<TcActionOption>) | ActIndex(v: u32)
    | ActStats(stats: seq<TcStats2>) | ActCookie(octets: Bytes) | ActInHwCount(v: u32) | ActOther(nla: Nla)
  {
    predicate Fits(kind: Bytes) {
      match this
      case ActOptions(os) => ActionOptionsFit(os, EngineOf(kind))
      case ActStats(ss) => Stats2ListFits(ss, kind)
      case ActOther(n) => n.Type() !in {1, 2, 3, 4, 6, 10}
      case _ => true
    }
  }

  function RawActionAttribute(a: TcActionAttribute): Nla {
    match a
    case ActKind(s) => Nla(TCA_ACT_KIND, PutString(s))
    case ActOptions(os) => Nla(2 + NLA_F_NESTED, EncodeNlas(Map(os, RawActionOption)))
    case ActIndex(v) => Nla(3, Put32(v))
    case ActStats(ss) => Nla(4, EncodeStats2List(ss))
    case ActCookie(b) => Nla(6, b)
    case ActInHwCount(v) => Nla(10, Put32(v))
    case ActOther(n) => n
  }

  function DecodeActionAttribute(n: Nla, kind: Bytes): Result<TcActionAttribute> {
    match n.Type()
    case 1 => Ok(ActKind(ParseString(n.value)))
    case 2 =>
      var os :- DecodeList(n.value, ActionOptionDecoder(EngineOf(kind)));
      Ok(ActOptions(os))
    case 3 =>
      var v :- ParseU32(n.value);
      Ok(ActIndex(v))
    case 4 =>
      var ss :- DecodeList(n.value, Stats2Decoder(kind));
      Ok(ActStats(ss))
    case 6 => Ok(ActCookie(n.value))
    case 10 =>
      var v :- ParseU32(n.value);
      Ok(ActInHwCount(v))
    case _ => Ok(ActOther(n))
  }

  lemma ActionAttributeRoundTrip(a: TcActionAttribute, kind: Bytes)
    requires RawActionAttribute(a).Fits()
    ensures DecodeActionAttribute(RawActionAttribute(a), kind) == Ok(a) <==> a.Fits(kind)
  {
    hide EncodeNlas, DecodeList, EncodeStats2List, ActionOptionsFit, Stats2ListFits, Put32, Get32, PutString, ParseString, EngineOf;
    match a
    case ActOptions(os) => ActionOptionsRoundTrip(os, EngineOf(kind));
    case ActStats(ss) => Stats2ListRoundTrip(ss, kind);
    case _ =>
  }

  function ActionAttributeDecoder(kind: Bytes): Nla -> Result<TcActionAttribute> {
    n => DecodeActionAttribute(n, kind)
  }

  // ---- an action: exactly one kind, found before anything is read ----

  datatype TcAction = TcAction(tab: u16, attributes: seq<TcActionAttribute>)

  /** The kinds the first pass collects. */
  function Kinds(nlas: seq<Nla>): seq<Bytes> {
    if nlas == [] then []
    else (if nlas[0].Type() == TCA_ACT_KIND then [ParseString(nlas[0].value)] else []) + Kinds(nlas[1..])
  }

  function DecodeActionAttributes(f: Framed): Result<seq<TcActionAttribute>> {
    if !f.clean || |Kinds(f.nlas)| != 1 then Err
    else DecodeAll(f.nlas, true, ActionAttributeDecoder(Kinds(f.nlas)[0]))
  }

  function DecodeAction(n: Nla): Result<TcAction> {
    var attributes :- DecodeActionAttributes(Scan(n.value));
    Ok(TcAction(n.Type(), attributes))
  }

  function RawAction(a: TcAction): Nla {
    Nla(a.tab, EncodeNlas(Map(a.attributes, RawActionAttribute)))
  }

  /** Position `k` holds the only kind. */
  predicate OnlyKind(nlas: seq<Nla>, k: nat) {
    k < |nlas| && nlas[k].Type() == TCA_ACT_KIND &&
    forall i :: 0 <= i < |nlas| && i != k ==> nlas[i].Type() != TCA_ACT_KIND
  }

  lemma {:induction false} NoKinds(nlas: seq<Nla>)
    ensures Kinds(nlas) == [] <==> forall i :: 0 <= i < |nlas| ==> nlas[i].Type() != TCA_ACT_KIND
  {
    if nlas != [] {
      NoKinds(nlas[1..]);
      assert forall i :: 1 <= i < |nlas| ==> nlas[i] == nlas[1..][i - 1];
    }
  }

  lemma {:induction false} OneKind(nlas: seq<Nla>)
    ensures |Kinds(nlas)| == 1 <==> exists k: nat :: OnlyKind(nlas, k)
    ensures forall k: nat :: OnlyKind(nlas, k) ==> Kinds(nlas) == [ParseString(nlas[k].value)]
  {
    hide ParseString;
    if nlas != [] {
      var more := nlas[1..];
      assert forall i :: 1 <= i < |nlas| ==> nlas[i] == more[i - 1];
      if nlas[0].Type() == TCA_ACT_KIND {
        NoKinds(more);
        if |Kinds(nlas)| == 1 {
          assert OnlyKind(nlas, 0);
        }
      } else {
        OneKind(more);
        if k: nat :| OnlyKind(more, k) {
          assert OnlyKind(nlas, k + 1);
        }
        forall k: nat | OnlyKind(nlas, k) ensures Kinds(nlas) == [ParseString(nlas[k].value)] {
          assert OnlyKind(more, k - 1);
        }
      }
    }
  }

  /** Every attribute decodes under `kind`, in order. */
  predicate DecodesUnder(nlas: seq<Nla>, out: seq<TcActionAttribute>, kind: Bytes) {
    |out| == |nlas| && forall i :: 0 <= i < |nlas| ==> DecodeActionAttribute(nlas[i], kind) == Ok(out[i])
  }

  /** The only kind is at `k`, and every attribute decodes under it. */
  predicate DecodesAt(nlas: seq<Nla>, out: seq<TcActionAttribute>, k: nat) {
    OnlyKind(nlas, k) && DecodesUnder(nlas, out, ParseString(nlas[k].value))
  }

  /** An action decodes exactly when its framing is clean, it has exactly one kind, wherever
      that sits, and every attribute decodes under that kind. */
  lemma ActionDecodes(n: Nla, a: TcAction)
    ensures DecodeAction(n) == Ok(a) <==>
            && Scan(n.value).clean && a.tab == n.Type()
            && exists k: nat :: DecodesAt(Scan(n.value).nlas, a.attributes, k)
  {
    hide ParseString, DecodeActionAttribute, Scan;
    var f := Scan(n.value);
    OneKind(f.nlas);
    if |Kinds(f.nlas)| == 1 {
      var k: nat :| OnlyKind(f.nlas, k);
      DecodeAllOk(f.nlas, true, ActionAttributeDecoder(Kinds(f.nlas)[0]), a.attributes);
      if DecodeAction(n) == Ok(a) {
        assert DecodesAt(f.nlas, a.attributes, k);
      }
    }
  }

  /** The same, for attributes that were framed by `EncodeNlas`. */
  lemma FramedActionDecodes(field: u16, nlas: seq<Nla>, a: TcAction)
    requires AllFit(nlas)
    ensures DecodeAction(Nla(field, EncodeNlas(nlas))) == Ok(a) <==>
            a.tab == field % 0x4000 && exists k: nat :: DecodesAt(nlas, a.attributes, k)
  {
    ScanExact(nlas);
    ActionDecodes(Nla(field, EncodeNlas(nlas)), a);
    hide Scan, EncodeNlas, DecodeAction, DecodesAt;
  }

  // ---- order ----

  lemma OnlyKindReordered(nlas: seq<Nla>, p: seq<nat>, j: nat)
    requires IsPermutation(p, |nlas|) && j < |nlas|
    ensures OnlyKind(Reorder(nlas, p), j) <==> OnlyKind(nlas, p[j])
  {
    var ms := Reorder(nlas, p);
    if OnlyKind(ms, j) {
      forall i | 0 <= i < |nlas| && i != p[j] ensures nlas[i].Type() != TCA_ACT_KIND {
        var l := Preimage(p, |nlas|, i);
        assert ms[l] == nlas[i] && l != j;
      }
    }
    if OnlyKind(nlas, p[j]) {
      forall i | 0 <= i < |ms| && i != j ensures ms[i].Type() != TCA_ACT_KIND {
        assert p[i] != p[j];
      }
    }
  }

  lemma DecodesReordered(nlas: seq<Nla>, p: seq<nat>, out: seq<TcActionAttribute>, j: nat)
    requires IsPermutation(p, |nlas|) && |out| == |nlas| && j < |nlas| && DecodesAt(nlas, out, p[j])
    ensures DecodesAt(Reorder(nlas, p), Reorder(out, p), j)
  {
    hide ParseString, DecodeActionAttribute;
    OnlyKindReordered(nlas, p, j);
    hide OnlyKind;
  }

  /** Reordering the attributes of an action reorders what it decodes to in the same way;
      where the kind sits makes no difference. */
  lemma ActionOrderIsPreserved(field: u16, nlas: seq<Nla>, p: seq<nat>, a: TcAction)
    requires IsPermutation(p, |nlas|) && AllFit(nlas)
    ensures DecodeAction(Nla(field, EncodeNlas(nlas))) == Ok(a) ==>
            |a.attributes| == |nlas| &&
            DecodeAction(Nla(field, EncodeNlas(Reorder(nlas, p)))) == Ok(a.(attributes := Reorder(a.attributes, p)))
  {
    hide DecodeAction, EncodeNlas;
    if DecodeAction(Nla(field, EncodeNlas(nlas))) == Ok(a) {
      FramedActionDecodes(field, nlas, a);
      var k: nat :| DecodesAt(nlas, a.attributes, k);
      var j := Preimage(p, |nlas|, k);
      DecodesReordered(nlas, p, a.attributes, j);
      hide DecodesAt;
      FramedActionDecodes(field, Reorder(nlas, p), a.(attributes := Reorder(a.attributes, p)));
    }
  }

  /** What decodes under a kind after reordering decodes under it before. */
  lemma DecodesBefore(nlas: seq<Nla>, p: seq<nat>, out: seq<TcActionAttribute>, j: nat) returns (before: seq<TcActionAttribute>)
    requires IsPermutation(p, |nlas|) && DecodesAt(Reorder(nlas, p), out, j)
    ensures DecodesAt(nlas, before, p[j])
  {
    hide ParseString, DecodeActionAttribute;
    var ms := Reorder(nlas, p);
    var kind := ParseString(ms[j].value);
    OnlyKindReordered(nlas, p, j);
    hide OnlyKind;
    forall i | 0 <= i < |nlas| ensures DecodeActionAttribute(nlas[i], kind).Ok? {
      var l := Preimage(p, |nlas|, i);
      assert ms[l] == nlas[i];
    }
    before := seq(|nlas|, i requires 0 <= i < |nlas| => DecodeActionAttribute(nlas[i], kind).value);
  }

  /** Reordering never turns a failure into a success either. */
  lemma ActionOrderKeepsSuccess(field: u16, nlas: seq<Nla>, p: seq<nat>)
    requires IsPermutation(p, |nlas|) && AllFit(nlas)
    ensures DecodeAction(Nla(field, EncodeNlas(nlas))).Ok? <==> DecodeAction(Nla(field, EncodeNlas(Reorder(nlas, p)))).Ok?
  {
    var ms := Reorder(nlas, p);
    var n, m := Nla(field, EncodeNlas(nlas)), Nla(field, EncodeNlas(ms));
    hide EncodeNlas, DecodeAction, DecodesAt;
    if DecodeAction(n).Ok? {
      ActionOrderIsPreserved(field, nlas, p, DecodeAction(n).value);
    }
    if DecodeAction(m).Ok? {
      var a := DecodeAction(m).value;
      FramedActionDecodes(field, ms, a);
      var j: nat :| DecodesAt(ms, a.attributes, j);
      var before := DecodesBefore(nlas, p, a.attributes, j);
      FramedActionDecodes(field, nlas, a.(attributes := before));
    }
  }

  // ---- round trip ----

  /** The attribute at `k` is the only kind. */
  predicate OnlyActKind(xs: seq<TcActionAttribute>, k: nat) {
    k < |xs| && xs[k].ActKind? && forall i :: 0 <= i < |xs| && i != k ==> !xs[i].ActKind?
  }

  predicate AllFitKind(xs: seq<TcActionAttribute>, kind: Bytes) {
    forall i :: 0 <= i < |xs| ==> xs[i].Fits(kind)
  }

  /** The attribute at `k` is the only kind, and they all fit it. */
  predicate FitAt(xs: seq<TcActionAttribute>, k: nat) {
    OnlyActKind(xs, k) && AllFitKind(xs, xs[k].name)
  }

  ghost predicate ActionFits(a: TcAction) {
    a.tab < 0x4000 && exists k: nat :: FitAt(a.attributes, k)
  }

  lemma KindOrNot(a: TcActionAttribute, kind: Bytes)
    requires a.Fits(kind)
    ensures RawActionAttribute(a).Type() == TCA_ACT_KIND <==> a.ActKind?
    ensures a.ActKind? ==> ParseString(RawActionAttribute(a).value) == a.name
  {
  }

  lemma RawDecodes(xs: seq<TcActionAttribute>, kind: Bytes)
    requires AllFit(Map(xs, RawActionAttribute))
    ensures DecodesUnder(Map(xs, RawActionAttribute), xs, kind) <==> AllFitKind(xs, kind)
  {
    hide DecodeActionAttribute, RawActionAttribute, TcActionAttribute.Fits;
    var nlas := Map(xs, RawActionAttribute);
    forall i | 0 <= i < |xs| ensures DecodeActionAttribute(nlas[i], kind) == Ok(xs[i]) <==> xs[i].Fits(kind) {
      ActionAttributeRoundTrip(xs[i], kind);
    }
  }

  lemma RawOnlyKind(xs: seq<TcActionAttribute>, kind: Bytes, k: nat)
    requires AllFitKind(xs, kind)
    ensures OnlyKind(Map(xs, RawActionAttribute), k) <==> OnlyActKind(xs, k)
    ensures OnlyActKind(xs, k) ==> ParseString(Map(xs, RawActionAttribute)[k].value) == xs[k].name
  {
    hide RawActionAttribute, TcActionAttribute.Fits, ParseString;
    var nlas := Map(xs, RawActionAttribute);
    forall i | 0 <= i < |xs|
      ensures nlas[i].Type() == TCA_ACT_KIND <==> xs[i].ActKind?
      ensures xs[i].ActKind? ==> ParseString(nlas[i].value) == xs[i].name
    {
      KindOrNot(xs[i], kind);
    }
  }

  lemma RawDecodesAt(xs: seq<TcActionAttribute>, k: nat)
    requires AllFit(Map(xs, RawActionAttribute))
    ensures DecodesAt(Map(xs, RawActionAttribute), xs, k) <==> FitAt(xs, k)
  {
    var nlas := Map(xs, RawActionAttribute);
    hide AllFitKind, DecodesUnder, ParseString, RawActionAttribute;
    if FitAt(xs, k) {
      RawDecodes(xs, xs[k].name);
      RawOnlyKind(xs, xs[k].name, k);
    }
    if DecodesAt(nlas, xs, k) {
      RawDecodes(xs, ParseString(nlas[k].value));
      RawOnlyKind(xs, ParseString(nlas[k].value), k);
    }
  }

  lemma ActionRoundTripAt(a: TcAction, nlas: seq<Nla>)
    requires nlas == Map(a.attributes, RawActionAttribute) && AllFit(nlas)
    ensures DecodeAction(Nla(a.tab, EncodeNlas(nlas))) == Ok(a) <==> ActionFits(a)
  {
    hide DecodeAction, EncodeNlas, FitAt, DecodesAt, RawActionAttribute, Map, AllFit;
    FramedActionDecodes(a.tab, nlas, a);
    forall k: nat ensures DecodesAt(nlas, a.attributes, k) <==> FitAt(a.attributes, k) {
      RawDecodesAt(a.attributes, k);
    }
  }

  /** An action comes back exactly when it has one kind that all its attributes fit. */
  lemma ActionRoundTrip(a: TcAction)
    requires RawAction(a).Fits()
    ensures DecodeAction(RawAction(a)) == Ok(a) <==> ActionFits(a)
  {
    hide DecodeAction, ActionFits, EncodeNlas, RawActionAttribute, Map;
    MembersFit(Map(a.attributes, RawActionAttribute));
    ActionRoundTripAt(a, Map(a.attributes, RawActionAttribute));
  }

  ghost predicate ActionsFit(acts: seq<TcAction>) {
    forall i :: 0 <= i < |acts| ==> ActionFits(acts[i])
  }

  lemma ActionsRoundTrip(acts: seq<TcAction>)
    requires |EncodeNlas(Map(acts, RawAction))| <= 0xFFFF
    ensures DecodeList(EncodeNlas(Map(acts, RawAction)), DecodeAction) == Ok(acts) <==> ActionsFit(acts)
  {
    MembersFit(Map(acts, RawAction));
    ListSurvives(acts, RawAction, DecodeAction);
    hide EncodeNlas, DecodeList, RawAction, DecodeAction, ActionFits;
    forall i | 0 <= i < |acts| ensures DecodeAction(RawAction(acts[i])) == Ok(acts[i]) <==> ActionFits(acts[i]) {
      ActionRoundTrip(acts[i]);
    }
  }
}
