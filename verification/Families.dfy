/** Address families and the addresses whose form they select. */
module Families {
  import opened Wire
  import opened Mpls

  /** The families the codecs treat specially; every other code is `OtherFamily`. `Local`
      and `Route` have the codes of `Unix` and `Netlink`. */
  datatype AddressFamily =
    | Unspec | Local | Unix | Inet | Bridge | Inet6 | Route | Netlink | Packet | MplsFamily
    | OtherFamily(code: u8)
  {
    function Code(): u8 {
      match this
      case Unspec => 0
      case Local => 1
      case Unix => 1
      case Inet => 2
      case Bridge => 7
      case Inet6 => 10
      case Route => 16
      case Netlink => 16
      case Packet => 17
      case MplsFamily => 28
      case OtherFamily(c) => c
    }

    /** The family is the one its own code decodes to. */
    predicate Canonical() {
      match this
      case Local => false
      case Route => false
      case OtherFamily(c) => c !in {0, 1, 2, 7, 10, 16, 17, 28}
      case _ => true
    }
  }

  function FamilyOf(code: u8): AddressFamily {
    match code
    case 0 => Unspec
    case 1 => Unix
    case 2 => Inet
    case 7 => Bridge
    case 10 => Inet6
    case 16 => Netlink
    case 17 => Packet
    case 28 => MplsFamily
    case _ => OtherFamily(code)
  }

  lemma FamilyRoundTrip(f: AddressFamily, code: u8)
    ensures FamilyOf(f.Code()) == f <==> f.Canonical()
    ensures FamilyOf(code).Code() == code && FamilyOf(code).Canonical()
  {
  }

  // ---- RouteAddress: the family decides the form ----

  datatype RouteAddress = V4(v4: Ipv4) | V6(v6: Ipv6) | Label(entry: MplsLabel) | Raw(octets: Bytes) {
    predicate FitsFamily(family: AddressFamily) {
      match family
      case Inet => V4?
      case Inet6 => V6?
      case MplsFamily => Label? && entry.Valid()
      case _ => Raw?
    }
  }

  function EncodeAddress(a: RouteAddress): Bytes {
    match a
    case V4(v) => v
    case V6(v) => v
    case Label(e) => EncodeLabel(e)
    case Raw(o) => o
  }

  function DecodeAddress(family: AddressFamily, b: Bytes): Result<RouteAddress> {
    match family
    case Inet => if |b| == 4 then Ok(V4(b)) else Err
    case Inet6 => if |b| == 16 then Ok(V6(b)) else Err
    case MplsFamily =>
      var e :- DecodeLabel(b);
      Ok(Label(e))
    case _ => Ok(Raw(b))
  }

  /** An address survives under a family exactly when it has that family's form. */
  lemma AddressRoundTrip(family: AddressFamily, a: RouteAddress)
    ensures DecodeAddress(family, EncodeAddress(a)) == Ok(a) <==> a.FitsFamily(family)
  {
    if a.Label? {
      LabelRoundTrip(a.entry);
    }
    if family.MplsFamily? && |EncodeAddress(a)| == 4 {
      WordRoundTrip(GetBe32(EncodeAddress(a)));
    }
  }

  lemma AddressSound(family: AddressFamily, b: Bytes)
    requires DecodeAddress(family, b).Ok?
    ensures DecodeAddress(family, b).value.FitsFamily(family)
  {
    if family.MplsFamily? {
      WordRoundTrip(GetBe32(b));
    }
  }

  // ---- RouteVia: the address carries its own family ----

  datatype RouteVia = ViaInet(v4: Ipv4) | ViaInet6(v6: Ipv6) | ViaPacket(octets: Bytes) | ViaOther(family: AddressFamily, octets: Bytes) {
    predicate Canonical() {
      ViaOther? ==> family.Canonical() && !family.Inet? && !family.Inet6? && !family.Packet?
    }
  }

  /** `struct rtvia`: a `u16` family and the address. */
  function EncodeVia(v: RouteVia): Bytes {
    match v
    case ViaInet(a) => Put16(Inet.Code()) + a
    case ViaInet6(a) => Put16(Inet6.Code()) + a
    case ViaPacket(a) => Put16(Packet.Code()) + a
    case ViaOther(f, a) => Put16(f.Code()) + a
  }

  /** Only the low octet of the family field is looked at. */
  function DecodeVia(b: Bytes): Result<RouteVia> {
    if |b| < 2 then Err
    else
      var f := FamilyOf(Get16(b[..2]) % 0x100);
      var a := b[2..];
      match f
      case Inet => if |a| == 4 then Ok(ViaInet(a)) else Err
      case Inet6 => if |a| == 16 then Ok(ViaInet6(a)) else Err
      case Packet => Ok(ViaPacket(a))
      case _ => Ok(ViaOther(f, a))
  }

  lemma ViaRoundTrip(v: RouteVia)
    ensures DecodeVia(EncodeVia(v)) == Ok(v) <==> v.Canonical()
  {
    var b := EncodeVia(v);
    var f := match v case ViaInet(_) => Inet case ViaInet6(_) => Inet6 case ViaPacket(_) => Packet case ViaOther(f, _) => f;
    var a := match v case ViaInet(a) => a case ViaInet6(a) => a case ViaPacket(a) => a case ViaOther(_, a) => a;
    assert b == Put16(f.Code()) + a;
    assert b[..2] == Put16(f.Code());
    assert b[2..] == a;
    FamilyRoundTrip(f, f.Code());
  }

  lemma ViaSound(b: Bytes)
    requires DecodeVia(b).Ok?
    ensures DecodeVia(b).value.Canonical()
  {
    FamilyRoundTrip(Unspec, Get16(b[..2]) % 0x100);
  }
}
