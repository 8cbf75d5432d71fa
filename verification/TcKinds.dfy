/**
 Which names select which reader of options: src/tc/options.rs and the four readers it
 chooses from, src/tc/filters/cls_u32.rs, matchall.rs, src/tc/qdiscs/fq_codel.rs and
 ingress.rs, with every name and every attribute type written out. The same for the options
 and statistics of src/tc/actions/.
 */
module TcKinds {
  import opened Wire
  import opened Framing
  import opened TcSelector
  import opened TcActions
  import Tc

  // ---- the readers ----

  function ReadHandle(n: Nla): Result<Tc.Body> {
    var w :- ParseU32(n.value);
    Ok(Tc.Handle(n.Type(), Tc.HandleOf(w)))
  }

  function ReadWord(n: Nla): Result<Tc.Body> {
    var w :- ParseU32(n.value);
    Ok(Tc.Word(n.Type(), w))
  }

  function ReadByte(n: Nla): Result<Tc.Body> {
    var v :- ParseU8(n.value);
    Ok(Tc.Byte(n.Type(), v))
  }

  function ReadSelector(n: Nla): Result<Tc.Body> {
    var s :- DecodeSelector(n.value);
    Ok(Tc.Selector(n.Type(), s))
  }

  function ReadActions(n: Nla): Result<Tc.Body> {
    var acts :- DecodeList(n.value, DecodeAction);
    Ok(Tc.Actions(n.Type(), acts))
  }

  function OwnedBy(owner: Tc.Owner, r: Result<Tc.Body>): Result<Tc.TcOption> {
    var body :- r;
    Ok(Tc.TcOption(owner, body))
  }

  function ReadU32(n: Nla): Result<Tc.TcOption> {
    OwnedBy(Tc.U32,
            match n.Type()
            case 1 => ReadHandle(n)
            case 2 => ReadWord(n)
            case 3 => ReadWord(n)
            case 4 => ReadWord(n)
            case 5 => ReadSelector(n)
            case 6 => Ok(Tc.Octets(6, n.value))
            case 7 => ReadActions(n)
            case 8 => Ok(Tc.Octets(8, n.value))
            case 9 => Ok(Tc.Octets(9, n.value))
            case 10 => Ok(Tc.Octets(10, n.value))
            case 11 => ReadWord(n)
            case _ => Ok(Tc.Kept(n)))
  }

  function ReadMatchAll(n: Nla): Result<Tc.TcOption> {
    OwnedBy(Tc.MatchAll,
            match n.Type()
            case 1 => ReadHandle(n)
            case 2 => ReadActions(n)
            case 3 => ReadWord(n)
            case 4 => Ok(Tc.Octets(4, n.value))
            case _ => Ok(Tc.Kept(n)))
  }

  function ReadFqCodel(n: Nla): Result<Tc.TcOption> {
    OwnedBy(Tc.FqCodel,
            match n.Type()
            case 0 => Ok(Tc.Kept(n))
            case 10 => ReadByte(n)
            case 11 => ReadByte(n)
            case t => if t < 10 then ReadWord(n) else Ok(Tc.Kept(n)))
  }

  function ReadIngress(n: Nla): Result<Tc.TcOption> {
    Ok(Tc.TcOption(Tc.Ingress, Tc.Kept(n)))
  }

  // ---- the name of the kind selects the reader ----

  function AsOptions(r: Result<seq<Tc.TcOption>>): Result<Tc.TcAttribute> {
    var os :- r;
    Ok(Tc.Options(os))
  }

  lemma SameReaders(n: Nla)
    ensures Tc.DecodeOption(n, Tc.U32) == ReadU32(n)
    ensures Tc.DecodeOption(n, Tc.MatchAll) == ReadMatchAll(n)
    ensures Tc.DecodeOption(n, Tc.FqCodel) == ReadFqCodel(n)
    ensures Tc.DecodeOption(n, Tc.Ingress) == ReadIngress(n)
  {
    hide DecodeSelector, DecodeList, Get32, Tc.HandleOf;
  }

  lemma SameLists(b: Bytes)
    ensures DecodeList(b, Tc.OptionDecoder(Tc.U32)) == DecodeList(b, ReadU32)
    ensures DecodeList(b, Tc.OptionDecoder(Tc.MatchAll)) == DecodeList(b, ReadMatchAll)
    ensures DecodeList(b, Tc.OptionDecoder(Tc.FqCodel)) == DecodeList(b, ReadFqCodel)
    ensures DecodeList(b, Tc.OptionDecoder(Tc.Ingress)) == DecodeList(b, ReadIngress)
  {
    forall n ensures Tc.OptionDecoder(Tc.U32)(n) == ReadU32(n) && Tc.OptionDecoder(Tc.MatchAll)(n) == ReadMatchAll(n) &&
                     Tc.OptionDecoder(Tc.FqCodel)(n) == ReadFqCodel(n) && Tc.OptionDecoder(Tc.Ingress)(n) == ReadIngress(n) {
      SameReaders(n);
    }
    var f := Scan(b);
    hide ReadU32, ReadMatchAll, ReadFqCodel, ReadIngress, Tc.OptionDecoder, Scan, DecodeAll;
    SameDecoder(f.nlas, f.clean, Tc.OptionDecoder(Tc.U32), ReadU32);
    SameDecoder(f.nlas, f.clean, Tc.OptionDecoder(Tc.MatchAll), ReadMatchAll);
    SameDecoder(f.nlas, f.clean, Tc.OptionDecoder(Tc.FqCodel), ReadFqCodel);
    SameDecoder(f.nlas, f.clean, Tc.OptionDecoder(Tc.Ingress), ReadIngress);
  }

  lemma NamesDiffer()
    ensures Ascii("u32") != Ascii("matchall") && Ascii("u32") != Ascii("fq_codel") && Ascii("u32") != Ascii("ingress")
    ensures Ascii("matchall") != Ascii("fq_codel") && Ascii("matchall") != Ascii("ingress")
    ensures Ascii("fq_codel") != Ascii("ingress") && Ascii("mirred") != Ascii("nat")
  {
    assert |Ascii("u32")| == 3 && |Ascii("matchall")| == 8 && |Ascii("fq_codel")| == 8 && |Ascii("ingress")| == 7;
    assert |Ascii("mirred")| == 6 && |Ascii("nat")| == 3;
    assert Ascii("matchall")[0] == 'm' as int && Ascii("fq_codel")[0] == 'f' as int;
    hide Ascii;
  }

  /** TCA_OPTIONS under a name: a list read by the reader of that name for the four known
      names, and the attribute itself as the one option under any other. */
  lemma OptionsByName(n: Nla, kind: Bytes)
    requires n.Type() == 2
    ensures Tc.DecodeAttribute(n, Ascii("u32")) == AsOptions(DecodeList(n.value, ReadU32))
    ensures Tc.DecodeAttribute(n, Ascii("matchall")) == AsOptions(DecodeList(n.value, ReadMatchAll))
    ensures Tc.DecodeAttribute(n, Ascii("fq_codel")) == AsOptions(DecodeList(n.value, ReadFqCodel))
    ensures Tc.DecodeAttribute(n, Ascii("ingress")) == AsOptions(DecodeList(n.value, ReadIngress))
    ensures kind !in {Ascii("u32"), Ascii("matchall"), Ascii("fq_codel"), Ascii("ingress")} ==>
            Tc.DecodeAttribute(n, kind) == Ok(Tc.Options([Tc.TcOption(Tc.Unknown, Tc.Kept(n))]))
  {
    NamesDiffer();
    SameLists(n.value);
    hide Ascii, DecodeList, ReadU32, ReadMatchAll, ReadFqCodel, ReadIngress, Tc.OptionDecoder;
  }

  /** In a message, the name is the one in the kind attribute before the options. */
  lemma OptionsAfterKind(name: Bytes, n: Nla, a: Tc.TcAttribute)
    requires Tc.DecodeAttribute(n, name) == Ok(a)
    ensures Tc.DecodeAttributes([Nla(1, PutString(name)), n], true, []) == Ok([Tc.Kind(name), a])
  {
    var k := Nla(1, PutString(name));
    hide PutString, ParseString;
    assert Tc.DecodeAttribute(k, []) == Ok(Tc.Kind(name));
    hide Tc.DecodeAttribute, Tc.DecodeAttributes;
    var xs := [Tc.Kind(name), a];
    assert Tc.KindBefore(xs, 0) == [] && Tc.KindBefore(xs, 1) == name;
    Tc.DecodeMeans([k, n], true, xs);
  }

  // ---- actions ----


  /** The options of an action: under "mirred" type 1 is opaque and type 2 a record of seven
      words, under "nat" type 1 is a record of nine words and type 2 opaque, under any other
      name they are kept. A short record is an error, and what follows a record is ignored. */
  lemma ActionOptionsByName(n: Nla, kind: Bytes)
    ensures var mirred := DecodeActionOption(n, EngineOf(Ascii("mirred")));
            (n.Type() == 1 ==> mirred == Ok(MirrorTm(n.value))) &&
            (n.Type() == 2 && |n.value| < 28 ==> mirred == Err) &&
            (n.Type() == 2 && |n.value| >= 28 ==> mirred == Ok(MirrorParms(GetWords(n.value, 7)))) &&
            (n.Type() !in {1, 2} ==> mirred == Ok(MirrorOther(n)))
    ensures var nat_ := DecodeActionOption(n, EngineOf(Ascii("nat")));
            (n.Type() == 1 && |n.value| < 36 ==> nat_ == Err) &&
            (n.Type() == 1 && |n.value| >= 36 ==> nat_ == Ok(NatParms(GetWords(n.value, 9)))) &&
            (n.Type() == 2 ==> nat_ == Ok(NatTm(n.value))) &&
            (n.Type() !in {1, 2} ==> nat_ == Ok(NatOther(n)))
    ensures kind !in {Ascii("mirred"), Ascii("nat")} ==> DecodeActionOption(n, EngineOf(kind)) == Ok(UnknownOption(n))
  {
    NamesDiffer();
    hide Ascii, GetWords;
  }

  /** Statistics: under "fq_codel" a tag of 0 or 1 selects nine or six words, any other tag
      keeps the octets; under any other name the octets are kept. */
  lemma XstatsByName(b: Bytes, kind: Bytes)
    ensures var fq := DecodeXstats(b, Ascii("fq_codel"));
            (|b| < 4 ==> fq == Err) &&
            (|b| >= 4 && b[..4] == [0, 0, 0, 0] ==> fq == if |b| < 40 then Panic else Ok(FqQdisc(GetWords(b[4..], 9)))) &&
            (|b| >= 4 && b[..4] == [1, 0, 0, 0] ==> fq == if |b| < 28 then Panic else Ok(FqClass(GetWords(b[4..], 6)))) &&
            (|b| >= 4 && b[..4] !in {[0, 0, 0, 0], [1, 0, 0, 0]} ==> fq == Ok(FqOther(b)))
    ensures kind != Ascii("fq_codel") ==> DecodeXstats(b, kind) == Ok(OtherXstats(b))
  {
    hide Ascii, GetWords;
    if |b| >= 4 {
      PutGet32(b[..4]);
      assert Put32(0) == [0, 0, 0, 0] && Put32(1) == [1, 0, 0, 0];
      assert Get32([0, 0, 0, 0]) == 0 && Get32([1, 0, 0, 0]) == 1;
    }
  }
}
