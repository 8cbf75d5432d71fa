/**
 The link codec as the crate runs it: the attribute loop, the info loop with its two
 remembered kinds, and the recursion through veth peers.
 */
module LinkCodec {
  import opened Wire
  import opened Framing
  import opened Families
  import opened LinkAttributes
  import opened Link

  /** What the attribute loop returns when it has pushed `out` and `b` is left. */
  function AttributesFrom(out: seq<LinkAttribute>, b: Bytes, family: AddressFamily): Result<seq<LinkAttribute>> {
    Prepend(out, DecodeAttributes(Scan(b).nlas, Scan(b).clean, family))
  }

  lemma AttributesStep(out: seq<LinkAttribute>, b: Bytes, family: AddressFamily)
    requires b != [] && HeadOk(b)
    ensures AttributesFrom(out, b, family) ==
            match DecodeAttribute(Head(b), family)
            case Ok(a) => AttributesFrom(out + [a], AfterHead(b), family)
            case Err => Err
            case Panic => Panic
  {
    hide DecodeAttribute, HeadOk, Head, AfterHead;
    var f := Scan(b);
    var more := Scan(AfterHead(b));
    assert f.nlas[0] == Head(b) && f.nlas[1..] == more.nlas;
    var r := DecodeAttribute(Head(b), family);
    if r.Ok? {

      PrependTwice(out, r.value, DecodeAttributes(more.nlas, more.clean, family));
    }
  }

  /** What the info loop returns when it has pushed `out`, is in state `st`, and `b` is left. */
  function InfosFrom(out: seq<LinkInfo>, b: Bytes, st: InfoState): Result<seq<LinkInfo>> {
    Prepend(out, DecodeInfos(Scan(b).nlas, Scan(b).clean, st))
  }

  lemma InfosStep(out: seq<LinkInfo>, b: Bytes, st: InfoState)
    requires b != [] && HeadOk(b)
    ensures InfosFrom(out, b, st) ==
            match DecodeInfo(Head(b), st)
            case Ok(i) => InfosFrom(out + [i], AfterHead(b), Next(st, i))
            case Err => Err
            case Panic => Panic
  {
    hide DecodeInfo, HeadOk, Head, AfterHead, Next;
    var f := Scan(b);
    var more := Scan(AfterHead(b));
    assert f.nlas[0] == Head(b) && f.nlas[1..] == more.nlas;
    var r := DecodeInfo(Head(b), st);
    if r.Ok? {
      PrependTwice(out, r.value, DecodeInfos(more.nlas, more.clean, Next(st, r.value)));
    }
  }

  method ParseLink(b: Bytes) returns (r: Result<LinkMessage>)
    ensures r == DecodeLink(b)
    decreases |b|, 0
  {
    if |b| < LINK_HEADER_LEN {
      return Err;
    }
    var h := DecodeHeader(b);
    var xs := ParseAttributes(b[LINK_HEADER_LEN..], h.family);
    if xs.IsFailure() {
      return xs.PropagateFailure();
    }
    return Ok(LinkMessage(h, xs.value));
  }

  /** `for nla_buf in buf.attributes() { attributes.push(parse(&nla_buf?, family)?) }` */
  method ParseAttributes(payload: Bytes, family: AddressFamily) returns (r: Result<seq<LinkAttribute>>)
    ensures r == DecodeAttributes(Scan(payload).nlas, Scan(payload).clean, family)
    decreases |payload|, 2
  {
    var out: seq<LinkAttribute> := [];
    var it := Iterate(payload);
    assert it.Rest() == payload;
    PrependNothing(DecodeAttributes(Scan(payload).nlas, Scan(payload).clean, family));
    hide DecodeAttribute;
    while it.Item().Some?
      invariant it.buffer == payload
      invariant AttributesFrom([], payload, family) == AttributesFrom(out, it.Rest(), family)
      decreases |payload| - it.position
    {
      var item := it.Item().value;
      if item.Err? {
        return Err;
      }
      AttributesStep(out, it.Rest(), family);
      var a := ParseAttribute(item.value, family);
      if a.IsFailure() {
        return a.PropagateFailure();
      }
      out := out + [a.value];
      it := it.Advance();
    }
    assert out + [] == out;
    return Ok(out);
  }

  method ParseAttribute(n: Nla, family: AddressFamily) returns (r: Result<LinkAttribute>)
    ensures r == DecodeAttribute(n, family)
    decreases 4 + |n.value|, 1
  {
    if n.Type() == IFLA_LINKINFO {
      var infos := ParseInfos(n.value);
      if infos.IsFailure() {
        return infos.PropagateFailure();
      }
      return Ok(LinkInfos(infos.value));
    }
    var l := DecodeLinkLeaf(n, family);
    if l.IsFailure() {
      return l.PropagateFailure();
    }
    return Ok(Plain(l.value));
  }

  /** `VecLinkInfo::parse`: one pass that remembers `link_info_kind` and `link_info_port_kind`. */
  method ParseInfos(value: Bytes) returns (r: Result<seq<LinkInfo>>)
    ensures r == DecodeInfos(Scan(value).nlas, Scan(value).clean, START)
    decreases |value|, 3
  {
    var nlas: seq<LinkInfo> := [];
    var kind: Option<Bytes> := None;
    var portKind: Option<Bytes> := None;
    var it := Iterate(value);
    assert it.Rest() == value;
    PrependNothing(DecodeInfos(Scan(value).nlas, Scan(value).clean, START));
    assert InfosFrom([], value, START) == DecodeInfos(Scan(value).nlas, Scan(value).clean, START);
    hide DecodeInfos, DecodeInfo, InfosFrom;
    while it.Item().Some?
      invariant it.buffer == value
      invariant InfosFrom([], value, START) == InfosFrom(nlas, it.Rest(), InfoState(kind, portKind))
      decreases |value| - it.position
    {
      var item := it.Item().value;
      InfosEnd(nlas, it.Rest(), InfoState(kind, portKind));
      if item.Err? {
        return Err;
      }
      InfosStep(nlas, it.Rest(), InfoState(kind, portKind));
      var i;
      i, kind, portKind := ParseInfo(item.value, kind, portKind);
      if i.IsFailure() {
        return i.PropagateFailure();
      }
      nlas := nlas + [i.value];
      it := it.Advance();
    }
    InfosEnd(nlas, it.Rest(), InfoState(kind, portKind));
    return Ok(nlas);
  }

  /** The arms of that loop, with the two remembered kinds passed in and out. */
  method ParseInfo(nla: Nla, kind: Option<Bytes>, portKind: Option<Bytes>)
    returns (r: Result<LinkInfo>, kind': Option<Bytes>, portKind': Option<Bytes>)
    ensures r == DecodeInfo(nla, InfoState(kind, portKind))
    ensures r.Ok? ==> InfoState(kind', portKind') == Next(InfoState(kind, portKind), r.value)
    decreases 4 + |nla.value|, 1
  {
    hide DecodeData, DecodePortData, ParseString;
    kind', portKind' := kind, portKind;
    match nla.Type() {
      case 3 =>
        r := if kind.None? then Err else Ok(Xstats(nla.value));
      case 4 =>
        var parsed := ParseString(nla.value);
        portKind' := Some(parsed);
        r := Ok(PortKind(parsed));
      case 5 =>
        if portKind.None? {
          r := Err;
          return;
        }
        var d := DecodePortData(nla.value, portKind.value);
        portKind' := None;
        r := if d.Ok? then Ok(PortData(d.value)) else d.PropagateFailure();
      case 1 =>
        var parsed := ParseString(nla.value);
        kind' := Some(parsed);
        r := Ok(Kind(parsed));
      case 2 =>
        if kind.None? {
          r := Err;
          return;
        }
        var d := ParseData(nla.value, kind.value);
        r := if d.Ok? then Ok(Data(d.value)) else d.PropagateFailure();
      case _ =>
        r := Ok(InfoOther(nla));
    }
  }

  lemma InfosEnd(out: seq<LinkInfo>, b: Bytes, st: InfoState)
    ensures b == [] ==> InfosFrom(out, b, st) == Ok(out)
    ensures b != [] && !HeadOk(b) ==> InfosFrom(out, b, st) == Err
  {
    assert out + [] == out;
  }

  method ParseData(payload: Bytes, kind: Bytes) returns (r: Result<InfoData>)
    ensures r == DecodeData(payload, kind)
    decreases |payload|, 1
  {
    match FormOfKind(kind) {
      case AsVeth =>
        if !HeadOk(payload) {
          return Err;
        }
        var v := ParseVeth(Head(payload));
        if v.IsFailure() {
          return v.PropagateFailure();
        }
        return Ok(VethData(v.value));
      case AsVrf =>
        var vs := ParseList(payload, DecodeVrf);
        if vs.IsFailure() {
          return vs.PropagateFailure();
        }
        return Ok(VrfData(vs.value));
      case AsList =>
        var ns := ParseList(payload, DecodeKept);
        if ns.IsFailure() {
          return ns.PropagateFailure();
        }
        return Ok(ListData(kind, ns.value));
      case AsOctets =>
        return Ok(RawData(payload));
    }
  }

  method ParseVeth(n: Nla) returns (r: Result<InfoVeth>)
    ensures r == DecodeVeth(n)
    decreases |n.value|, 1
  {
    if n.Type() == VETH_INFO_PEER {
      var m := ParseLink(n.value);
      if m.IsFailure() {
        return m.PropagateFailure();
      }
      return Ok(Peer(m.value));
    }
    return Ok(VethOther(n));
  }
}
