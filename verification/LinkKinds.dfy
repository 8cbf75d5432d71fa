/**
 Which names select which reader: src/link/link_info/info_data.rs and info_port.rs, with
 every name written out.
 */
module LinkKinds {
  import opened Wire
  import opened Framing
  import opened LinkAttributes
  import opened Link
  import opened LinkDiscipline

  /** Keeping attributes as they are framed never fails on an attribute. */
  lemma {:induction false} KeepsAll(nlas: seq<Nla>, clean: bool)
    ensures DecodeAll(nlas, clean, DecodeKept) == if clean then Ok(nlas) else Err
  {
    if nlas != [] {
      KeepsAll(nlas[1..], clean);
      assert [nlas[0]] + nlas[1..] == nlas;
    }
  }

  lemma KeepsList(b: Bytes)
    ensures DecodeList(b, DecodeKept) == if Scan(b).clean then Ok(Scan(b).nlas) else Err
  {
    KeepsAll(Scan(b).nlas, Scan(b).clean);
  }

  predicate ListName(kind: Bytes) {
    kind in {
      Ascii("bond"), Ascii("bridge"), Ascii("tun"), Ascii("vlan"), Ascii("vxlan"), Ascii("ipvlan"), Ascii("ipvtap"),
      Ascii("macvlan"), Ascii("macvtap"), Ascii("gretap"), Ascii("ip6gretap"), Ascii("sit"), Ascii("gre"),
      Ascii("ip6gre"), Ascii("vti"), Ascii("gtp"), Ascii("ipoib"), Ascii("xfrm"), Ascii("macsec"), Ascii("hsr")}
  }

  /** The two names that have a reader of their own are not among the twenty. */
  lemma VrfAndVethStandAlone()
    ensures !ListName(Ascii("vrf")) && !ListName(Ascii("veth")) && Ascii("vrf") != Ascii("veth")
  {
    var vrf, veth := Ascii("vrf"), Ascii("veth");
    assert |vrf| == 3 && |veth| == 4;
    assert veth[1] == 'e' as int && vrf[1] == 'r' as int && vrf[0] == 'v' as int;
    assert Ascii("bond")[1] == 'o' as int && Ascii("vlan")[1] == 'l' as int && Ascii("xfrm")[1] == 'f' as int;
    assert Ascii("tun")[0] == 't' as int && Ascii("sit")[0] == 's' as int && Ascii("gre")[0] == 'g' as int;
    assert Ascii("vti")[1] == 't' as int && Ascii("gtp")[0] == 'g' as int && Ascii("hsr")[0] == 'h' as int;
    hide Ascii;
  }

  /** Under each of the twenty names the payload is a list of attributes. */
  lemma ListNames(payload: Bytes, kind: Bytes)
    requires ListName(kind)
    ensures DecodeData(payload, kind) == if Scan(payload).clean then Ok(ListData(kind, Scan(payload).nlas)) else Err
  {
    VrfAndVethStandAlone();
    KeepsList(payload);
    hide Ascii, Scan, DecodeList;
  }

  /** Under "vrf" it is a list of vrf attributes. */
  lemma VrfName(payload: Bytes)
    ensures DecodeData(payload, Ascii("vrf")) ==
            match DecodeList(payload, DecodeVrf)
            case Ok(vs) => Ok(VrfData(vs))
            case Err => Err
            case Panic => Panic
  {
    VrfAndVethStandAlone();
    hide Ascii, DecodeList;
  }

  /** Under "veth" it is one attribute: of type 1 a whole link message, of any other type kept. */
  lemma VethName(payload: Bytes)
    ensures !HeadOk(payload) ==> DecodeData(payload, Ascii("veth")) == Err
    ensures HeadOk(payload) && Head(payload).Type() != 1 ==>
            DecodeData(payload, Ascii("veth")) == Ok(VethData(VethOther(Head(payload))))
    ensures HeadOk(payload) && Head(payload).Type() == 1 ==>
            DecodeData(payload, Ascii("veth")) ==
            match DecodeLink(Head(payload).value)
            case Ok(m) => Ok(VethData(Peer(m)))
            case Err => Err
            case Panic => Panic
  {
    hide Ascii, HeadOk, Head, DecodeLink;
  }

  /** Under any other name it is kept as octets. */
  lemma OtherNames(payload: Bytes, kind: Bytes)
    requires !ListName(kind) && kind != Ascii("vrf") && kind != Ascii("veth")
    ensures DecodeData(payload, kind) == Ok(RawData(payload))
  {
    hide Ascii;
  }

  /** Port data: lists of attributes under "bond" and "bridge", of vrf attributes under "vrf",
      octets under any other name. */
  lemma PortNames(payload: Bytes, kind: Bytes)
    ensures DecodePortData(payload, Ascii("bond")) ==
            if Scan(payload).clean then Ok(BondPort(Scan(payload).nlas)) else Err
    ensures DecodePortData(payload, Ascii("bridge")) ==
            if Scan(payload).clean then Ok(BridgePort(Scan(payload).nlas)) else Err
    ensures DecodePortData(payload, Ascii("vrf")) ==
            match DecodeList(payload, DecodeVrf)
            case Ok(vs) => Ok(VrfPort(vs))
            case Err => Err
            case Panic => Panic
    ensures kind !in {Ascii("bond"), Ascii("bridge"), Ascii("vrf")} ==> DecodePortData(payload, kind) == Ok(RawPort(payload))
  {
    KeepsList(payload);
    assert |Ascii("bond")| == 4 && |Ascii("bridge")| == 6 && |Ascii("vrf")| == 3;
    hide Ascii, Scan, DecodeList;
  }

  // ---- inside a message ----

  lemma DataAfterKind(kind: Bytes, payload: Bytes)
    requires DecodeData(payload, kind).Ok?
    ensures DecodeInfos([Nla(1, PutString(kind)), Nla(2, payload)], true, START) ==
            Ok([Kind(kind), Data(DecodeData(payload, kind).value)])
  {
    hide PutString, ParseString, DecodeData;
    PairDecodes(Nla(1, PutString(kind)), Nla(2, payload), kind, DecodeData(payload, kind).value);
  }
}
