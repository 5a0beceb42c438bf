/** packages/shared/src/cose-verify.js and decodeCoseSign1 of packages/shared/src/cbor.js, over both decoders. */
module Cose {
  import opened Bytes
  import opened CborGrammar
  import opened CborRead
  import CborDecoding
  import BerGrammar
  import Cms
  import Words

  // ----- Two decoders, one meaning -----

  lemma StandsAt(before: seq<byte>, e: seq<byte>, after: seq<byte>)
    ensures At(before + e + after, |before|, e)
  {
  }

  /**
   However an item is framed and wherever it stands, the shared decoder reads its value and stops right
   behind it; and the web decoder reads the same value from the encoding alone.
   */
  lemma DecodersAgree(f: Framed, before: seq<byte>, after: seq<byte>)
    requires WellFormed(f)
    ensures Read(before + Enc(f) + after, |before|) == Ok((ValueOf(f), |before| + |Enc(f)|))
    ensures CborDecoding.DecodeWhole(Enc(f)) == Ok(ValueOf(f))
  {
    hide Read, CborDecoding.Decode, Enc, ValueOf, WellFormed;
    StandsAt(before, Enc(f), after);
    ReadComplete(before + Enc(f) + after, |before|, f);
    assert At(Enc(f), 0, Enc(f));
    CborDecoding.DecodeComplete(Enc(f), 0, f);
  }

  // ----- Sig_structure -----

  datatype SigItem = Text(utf8: seq<byte>) | Binary(data: seq<byte>) {
    function Payload(): seq<byte> {
      if Text? then utf8 else data
    }
  }

  datatype CoseError = LengthOutOfRange | NotSign1 | PayloadNotBytes | PayloadNotMap | Cbor(error: CborError)

  /** The narrowest of the four length classes the encoder knows. */
  function NarrowestWidth(n: nat): (w: Width)
    ensures n < 0x1_0000_0000 ==> w.Fits(n)
  {
    if n < 24 then W0 else if n < 0x100 then W1 else if n < 0x1_0000 then W2 else W4
  }

  /** No head that fits a length is shorter than the one written. */
  lemma HeadsAreNarrowest(n: nat, other: Width)
    requires n < 0x1_0000_0000 && other.Fits(n)
    ensures NarrowestWidth(n).Fits(n) && NarrowestWidth(n).Octets() <= other.Octets()
  {
  }

  predicate InRange(items: seq<SigItem>) {
    |items| < 0x1_0000_0000 && forall item :: item in items ==> |item.Payload()| < 0x1_0000_0000
  }

  function FramedItem(item: SigItem): Framed {
    Str(item.Text?, NarrowestWidth(|item.Payload()|), item.Payload())
  }

  function FramedItems(items: seq<SigItem>): (fs: seq<Framed>)
    ensures |fs| == |items|
  {
    if items == [] then [] else [FramedItem(items[0])] + FramedItems(items[1..])
  }

  function SigFrame(items: seq<SigItem>): Framed {
    Arr(NarrowestWidth(|items|), FramedItems(items))
  }

  function SigValues(items: seq<SigItem>): seq<Value> {
    if items == [] then [] else [StringValue(items[0].Text?, items[0].Payload())] + SigValues(items[1..])
  }

  lemma {:induction false} FramedItemsWellFormed(items: seq<SigItem>)
    requires forall item :: item in items ==> |item.Payload()| < 0x1_0000_0000
    ensures AllWellFormed(FramedItems(items))
    ensures ValuesOf(FramedItems(items)) == SigValues(items)
  {
    if items != [] {
      assert items[0] in items;
      FramedItemsWellFormed(items[1..]);
      assert FramedItems(items)[1..] == FramedItems(items[1..]);
    }
  }

  method EncodeHead(major: nat, len: nat) returns (r: Result<seq<byte>, CoseError>)
    requires major < 8
    ensures if len < 0x1_0000_0000 then r == Ok(Head(major, NarrowestWidth(len), len)) else r == Err(LengthOutOfRange)
  {
    if len < 24 {
      assert Head(major, W0, len) == [major * 32 + len];
      return Ok([major * 32 + len]);
    }
    if len < 256 {
      OneOctet(len);
      assert Head(major, W1, len) == [major * 32 + 24, len];
      return Ok([major * 32 + 24, len]);
    }
    if len < 65536 {
      TwoOctets(len);
      assert Head(major, W2, len) == [major * 32 + 25, len / 256 % 256, len % 256];
      return Ok([major * 32 + 25, len / 256 % 256, len % 256]);
    }
    if len >= 0x1_0000_0000 {
      return Err(LengthOutOfRange);
    }
    FourOctets(len);
    var b: seq<byte> := [len / 0x100_0000 % 256, len / 0x1_0000 % 256, len / 0x100 % 256, len % 256];
    assert Head(major, W4, len) == [major * 32 + 26] + b;
    return Ok([major * 32 + 26] + b);
  }

  lemma OneOctet(n: nat)
    ensures FixedBigEndian(n, 1) == [n % 256]
  {
    assert FixedBigEndian(n, 1) == FixedBigEndian(n / 256, 0) + [n % 256];
  }

  lemma TwoOctets(n: nat)
    ensures FixedBigEndian(n, 2) == [n / 256 % 256, n % 256]
  {
    assert FixedBigEndian(n / 256, 1) == FixedBigEndian(n / 256 / 256, 0) + [n / 256 % 256];
  }

  lemma FourOctets(n: nat)
    ensures FixedBigEndian(n, 4) == [n / 0x100_0000 % 256, n / 0x1_0000 % 256, n / 0x100 % 256, n % 256]
  {
    TwoOctets(n / 0x1_0000);
    assert n / 256 / 256 == n / 0x1_0000;
    assert FixedBigEndian(n / 256, 3) == FixedBigEndian(n / 0x1_0000, 2) + [n / 256 % 256];
  }

  method CborEncodeSigStructure(items: seq<SigItem>) returns (r: Result<seq<byte>, CoseError>)
    ensures if InRange(items) then WellFormed(SigFrame(items)) && r == Ok(Enc(SigFrame(items)))
            else r == Err(LengthOutOfRange)
  {
    hide Enc, EncAll, WellFormed, AllWellFormed, FramedItems, SigFrame, Head;
    var parts :- EncodeHead(4, |items|);
    ghost var head := parts;
    NoItems();
    for i := 0 to |items|
      invariant forall k :: 0 <= k < i ==> |items[k].Payload()| < 0x1_0000_0000
      invariant AllWellFormed(FramedItems(items[..i]))
      invariant parts == head + EncAll(FramedItems(items[..i]))
    {
      var item := items[i];
      var b := item.Payload();
      assert item in items;
      var h :- EncodeHead(if item.Text? then 3 else 2, |b|);
      ItemEncoding(item);
      parts := parts + h + b;
      EncAppend(items[..i], item);
      assert items[..i + 1] == items[..i] + [item];
    }
    assert items[..|items|] == items;
    FrameEncoding(items);
    return Ok(parts);
  }

  lemma NoItems()
    ensures AllWellFormed(FramedItems([])) && EncAll(FramedItems([])) == []
  {
  }

  lemma ItemEncoding(item: SigItem)
    requires |item.Payload()| < 0x1_0000_0000
    ensures var n := |item.Payload()|;
            && WellFormed(FramedItem(item))
            && Enc(FramedItem(item)) == Head(if item.Text? then 3 else 2, NarrowestWidth(n), n) + item.Payload()
  {
  }

  lemma FrameEncoding(items: seq<SigItem>)
    requires |items| < 0x1_0000_0000 && AllWellFormed(FramedItems(items))
    ensures WellFormed(SigFrame(items))
    ensures Enc(SigFrame(items)) == Head(4, NarrowestWidth(|items|), |items|) + EncAll(FramedItems(items))
  {
    hide FramedItems, NarrowestWidth;
    ArrEncoding(NarrowestWidth(|items|), FramedItems(items));
  }

  lemma {:induction false} EncAppend(items: seq<SigItem>, item: SigItem)
    requires AllWellFormed(FramedItems(items)) && WellFormed(FramedItem(item))
    ensures AllWellFormed(FramedItems(items + [item]))
    ensures EncAll(FramedItems(items + [item])) == EncAll(FramedItems(items)) + Enc(FramedItem(item))
  {
    if items == [] {
      assert items + [item] == [item];
      assert FramedItems([item]) == [FramedItem(item)];
    } else {
      assert (items + [item])[1..] == items[1..] + [item];
      assert FramedItems(items)[1..] == FramedItems(items[1..]);
      EncAppend(items[1..], item);
      assert FramedItems(items + [item])[1..] == FramedItems(items[1..] + [item]);
    }
  }

  /** The decoder undoes the encoder, for strings and byte strings of every length class. */
  lemma SigStructureRoundTrip(items: seq<SigItem>, after: seq<byte>)
    requires InRange(items)
    ensures WellFormed(SigFrame(items))
    ensures Read(Enc(SigFrame(items)) + after, 0) == Ok((List(SigValues(items)), |Enc(SigFrame(items))|))
  {
    hide Read;
    FramedItemsWellFormed(items);
    var e := Enc(SigFrame(items));
    DecodersAgree(SigFrame(items), [], after);
    assert [] + e + after == e + after;
  }

  lemma {:induction false} SigValuesInjective(items: seq<SigItem>, items': seq<SigItem>)
    requires SigValues(items) == SigValues(items')
    ensures items == items'
  {
    if items == [] || items' == [] {
      assert |SigValues(items)| == 0;
    } else {
      assert SigValues(items)[0] == SigValues(items')[0];
      assert SigValues(items)[1..] == SigValues(items[1..]) && SigValues(items')[1..] == SigValues(items'[1..]);
      SigValuesInjective(items[1..], items'[1..]);
    }
  }

  /** So distinct lists, text and bytes told apart, never share an encoding. */
  lemma SigStructureInjective(items: seq<SigItem>, items': seq<SigItem>)
    requires InRange(items) && InRange(items')
    requires WellFormed(SigFrame(items)) && WellFormed(SigFrame(items'))
    requires Enc(SigFrame(items)) == Enc(SigFrame(items'))
    ensures items == items'
  {
    hide Read;
    SigStructureRoundTrip(items, []);
    SigStructureRoundTrip(items', []);
    SigValuesInjective(items, items');
  }

  /** "Signature1" in UTF-8. */
  const SIGNATURE1: seq<byte> := [0x53, 0x69, 0x67, 0x6e, 0x61, 0x74, 0x75, 0x72, 0x65, 0x31]

  function Sign1Items(protectedHeader: seq<byte>, payload: seq<byte>): seq<SigItem> {
    [Text(SIGNATURE1), Binary(protectedHeader), Binary([]), Binary(payload)]
  }

  method BuildCoseSign1SigStructure(protectedHeader: seq<byte>, payload: seq<byte>)
    returns (r: Result<seq<byte>, CoseError>)
    ensures var items := Sign1Items(protectedHeader, payload);
            if InRange(items) then WellFormed(SigFrame(items)) && r == Ok(Enc(SigFrame(items)))
            else r == Err(LengthOutOfRange)
    ensures |protectedHeader| < 0x1_0000_0000 && |payload| < 0x1_0000_0000 <==> r.Ok?
    ensures r.Ok? ==> Read(r.value, 0) == Ok((Sign1Structure(protectedHeader, payload), |r.value|))
  {
    hide Read, Enc, FixedBigEndian;
    Sign1InRange(protectedHeader, payload);
    r := CborEncodeSigStructure(Sign1Items(protectedHeader, payload));
    if r.Ok? {
      Sign1StructureReads(protectedHeader, payload, []);
      assert r.value + [] == r.value;
    }
  }

  lemma Sign1InRange(protectedHeader: seq<byte>, payload: seq<byte>)
    ensures InRange(Sign1Items(protectedHeader, payload)) <==>
            |protectedHeader| < 0x1_0000_0000 && |payload| < 0x1_0000_0000
  {
    var items := Sign1Items(protectedHeader, payload);
    assert items[1] in items && items[3] in items;
  }

  /** The Sig_structure of RFC 8152, section 4.4: context, protected header, no external data, payload. */
  function Sign1Structure(protectedHeader: seq<byte>, payload: seq<byte>): Value {
    List([TextString(Words.Ascii("Signature1")), ByteString(protectedHeader), ByteString([]), ByteString(payload)])
  }

  /** What is encoded reads as that structure, whatever follows. */
  lemma Sign1StructureReads(protectedHeader: seq<byte>, payload: seq<byte>, after: seq<byte>)
    requires |protectedHeader| < 0x1_0000_0000 && |payload| < 0x1_0000_0000
    ensures var f := SigFrame(Sign1Items(protectedHeader, payload));
            && WellFormed(f)
            && Read(Enc(f) + after, 0) == Ok((Sign1Structure(protectedHeader, payload), |Enc(f)|))
  {
    hide Read, Enc;
    var items := Sign1Items(protectedHeader, payload);
    SigStructureRoundTrip(items, after);
    assert Words.Ascii("Signature1") == SIGNATURE1;
    FourValues(items);
    assert SigValues(items) == Sign1Structure(protectedHeader, payload).items;
  }

  lemma FourValues(items: seq<SigItem>)
    requires |items| == 4
    ensures var v := SigValues(items);
            && |v| == 4
            && forall i :: 0 <= i < 4 ==>
                 v[i] == match items[i] case Text(utf8) => TextString(utf8) case Binary(data) => ByteString(data)
  {
    assert SigValues(items)[1..] == SigValues(items[1..]);
    assert SigValues(items[1..])[1..] == SigValues(items[1..][1..]);
    assert SigValues(items[1..][1..])[1..] == SigValues(items[1..][1..][1..]);
  }

  /** What is signed determines the protected header and the payload. */
  lemma Sign1StructureInjective(header: seq<byte>, payload: seq<byte>, header': seq<byte>, payload': seq<byte>)
    requires |header| < 0x1_0000_0000 && |payload| < 0x1_0000_0000
    requires |header'| < 0x1_0000_0000 && |payload'| < 0x1_0000_0000
    ensures var items, items' := Sign1Items(header, payload), Sign1Items(header', payload');
            && WellFormed(SigFrame(items)) && WellFormed(SigFrame(items'))
            && (Enc(SigFrame(items)) == Enc(SigFrame(items')) ==> header == header' && payload == payload')
  {
    hide Read;
    var items, items' := Sign1Items(header, payload), Sign1Items(header', payload');
    FramedItemsWellFormed(items);
    FramedItemsWellFormed(items');
    if Enc(SigFrame(items)) == Enc(SigFrame(items')) {
      SigStructureInjective(items, items');
      assert items[1] == items'[1] && items[3] == items'[3];
    }
  }

  // ----- decodeCoseSign1 -----

  datatype CoseSign1 = CoseSign1(
    protectedHeader: seq<byte>,
    payloadBytes: seq<byte>,
    payload: Value,
    signature: seq<byte>)

  /** What JavaScript takes for a non-array object: a map, but also a byte string. */
  predicate IsObject(v: Value) {
    v.Dict? || v.ByteString?
  }

  function BytesOrEmpty(v: Value): seq<byte> {
    if v.ByteString? then v.data else []
  }

  function DecodeCoseSign1(buf: seq<byte>): Result<CoseSign1, CoseError> {
    match Read(buf, 0)
    case Err(e) => Err(Cbor(e))
    case Ok((cose, _)) =>
      if !cose.List? || |cose.items| != 4 then Err(NotSign1)
      else if !cose.items[2].ByteString? then Err(PayloadNotBytes)
      else
        match Read(cose.items[2].data, 0)
        case Err(e) => Err(Cbor(e))
        case Ok((payload, _)) =>
          if !IsObject(payload) then Err(PayloadNotMap)
          else Ok(CoseSign1(BytesOrEmpty(cose.items[0]), cose.items[2].data, payload, BytesOrEmpty(cose.items[3])))
  }

  /**
   A COSE_Sign1 message in any framing, tagged or not, gives up its four parts; the header and payload
   octets are the signer's own, so the structure rebuilt from them is the one that was signed.
   */
  lemma Sign1Recovered(message: Framed, map_: Framed, header: seq<byte>, unprotected: Value, junk: seq<byte>,
                       signature: seq<byte>, after: seq<byte>)
    requires WellFormed(message) && WellFormed(map_) && ValueOf(map_).Dict?
    requires ValueOf(message) == List([ByteString(header), unprotected, ByteString(Enc(map_) + junk),
                                       ByteString(signature)])
    ensures DecodeCoseSign1(Enc(message) + after) ==
            Ok(CoseSign1(header, Enc(map_) + junk, ValueOf(map_), signature))
  {
    hide Read, Enc, ValueOf, WellFormed;
    DecodersAgree(message, [], after);
    assert [] + Enc(message) + after == Enc(message) + after;
    DecodersAgree(map_, [], junk);
    assert [] + Enc(map_) + junk == Enc(map_) + junk;
  }

  /** Only an array of four with a byte string third, that itself holds a map, is taken for a message. */
  lemma Sign1Sound(buf: seq<byte>)
    requires DecodeCoseSign1(buf).Ok?
    ensures var c := DecodeCoseSign1(buf).value;
            exists items: seq<Value>, pos, pos' ::
              && Read(buf, 0) == Ok((List(items), pos)) && |items| == 4
              && items[2] == ByteString(c.payloadBytes) && Read(c.payloadBytes, 0) == Ok((c.payload, pos'))
              && (c.payload.Dict? || c.payload.ByteString?)
              && (if items[0].ByteString? then items[0] == ByteString(c.protectedHeader) else c.protectedHeader == [])
              && (if items[3].ByteString? then items[3] == ByteString(c.signature) else c.signature == [])
  {
    hide Read;
    var (cose, pos) := Read(buf, 0).value;
    var (payload, pos') := Read(cose.items[2].data, 0).value;
    assert Read(buf, 0) == Ok((List(cose.items), pos)) && Read(cose.items[2].data, 0) == Ok((payload, pos'));
  }

  // ----- ES384 signatures to DER -----

  /** The value of a big-endian two's complement string (X.690, section 8.3.3). */
  function TwosComplement(c: seq<byte>): int
    requires c != []
  {
    if c[0] >= 0x80 then BigEndian(c) - Pow256(|c|) else BigEndian(c)
  }

  /** Not empty, and its first nine bits neither all zero nor all one (X.690, section 8.3.2). */
  predicate IsMinimalInteger(c: seq<byte>) {
    && c != []
    && (|c| > 1 ==> !(c[0] == 0 && c[1] < 0x80) && !(c[0] == 0xff && c[1] >= 0x80))
  }

  /** How many zero octets can go without emptying the string. */
  function LeadingZeros(s: seq<byte>): (n: nat)
    requires s != []
    ensures n < |s|
  {
    if |s| > 1 && s[0] == 0 then 1 + LeadingZeros(s[1..]) else 0
  }

  function IntegerContent(s: seq<byte>): seq<byte>
    requires s != []
  {
    var trimmed := s[LeadingZeros(s)..];
    if trimmed[0] >= 0x80 then [0] + trimmed else trimmed
  }

  lemma {:induction false} TrimKeepsValue(s: seq<byte>)
    requires s != []
    ensures var t := s[LeadingZeros(s)..]; t != [] && BigEndian(t) == BigEndian(s) && (|t| > 1 ==> t[0] != 0)
  {
    if |s| > 1 && s[0] == 0 {
      TrimKeepsValue(s[1..]);
      assert s[1..][LeadingZeros(s[1..])..] == s[LeadingZeros(s)..];
      assert s == [0] + s[1..];
      BigEndianAppend([0], s[1..]);
      assert BigEndian([0]) == BigEndian([]) * 256 + 0;
    }
  }

  /** The content is the minimal two's complement writing of the unsigned value of the octets. */
  lemma IntegerContentExact(s: seq<byte>)
    requires s != []
    ensures IsMinimalInteger(IntegerContent(s))
    ensures TwosComplement(IntegerContent(s)) == BigEndian(IntegerContent(s)) == BigEndian(s)
    ensures |IntegerContent(s)| <= |s| + 1
  {
    var t := s[LeadingZeros(s)..];
    TrimKeepsValue(s);
    BigEndianAppend([0], t);
    assert BigEndian([0]) == BigEndian([]) * 256 + 0;
  }

  method EncodeInt(bytes: seq<byte>) returns (r: seq<byte>)
    requires 0 < |bytes| < 0x7f
    ensures |IntegerContent(bytes)| < 0x80
    ensures r == [0x02, |IntegerContent(bytes)|] + IntegerContent(bytes)
  {
    var i := CountLeadingZeros(bytes);
    var trimmed := bytes[i..];
    if trimmed[0] >= 0x80 {
      trimmed := [0] + trimmed;
    }
    return [0x02, |trimmed|] + trimmed;
  }

  method CountLeadingZeros(bytes: seq<byte>) returns (i: nat)
    requires bytes != []
    ensures i == LeadingZeros(bytes)
  {
    i := 0;
    while i < |bytes| - 1 && bytes[i] == 0
      invariant i < |bytes|
      invariant LeadingZeros(bytes) == i + LeadingZeros(bytes[i..])
    {
      assert bytes[i..][1..] == bytes[i + 1..];
      i := i + 1;
    }
  }

  function SignatureTree(raw: seq<byte>): BerGrammar.Tree
    requires |raw| == 96
  {
    BerGrammar.Node([0x30], [BerGrammar.Leaf([0x02], IntegerContent(raw[..48])),
                             BerGrammar.Leaf([0x02], IntegerContent(raw[48..]))])
  }

  /** None: not a raw signature. Otherwise the DER of a SEQUENCE of two INTEGERs. */
  method CoseEs384SignatureToDer(raw: seq<byte>) returns (der: seq<byte>, ok: bool)
    ensures ok == (|raw| == 96)
    ensures ok ==> der == BerGrammar.Der(SignatureTree(raw))
  {
    if |raw| != 96 {
      return [], false;
    }
    var r := EncodeInt(raw[..48]);
    var s := EncodeInt(raw[48..]);
    SignatureDer(raw);
    var body := r + s;
    return [0x30, |body|] + body, true;
  }

  /** All lengths are in the short form, and every part is well formed. */
  lemma SignatureDer(raw: seq<byte>)
    requires |raw| == 96
    ensures var c, d := IntegerContent(raw[..48]), IntegerContent(raw[48..]);
            var body := [0x02, |c|] + c + ([0x02, |d|] + d);
            && |c| <= 49 && |d| <= 49 && |body| < 0x80
            && BerGrammar.Der(SignatureTree(raw)) == [0x30, |body|] + body
            && BerGrammar.Encodable(SignatureTree(raw))
  {
    hide IntegerContent, IsMinimalInteger, TwosComplement, BigEndian;
    IntegerContentExact(raw[..48]);
    IntegerContentExact(raw[48..]);
    SequenceOfTwo(IntegerContent(raw[..48]), IntegerContent(raw[48..]));
  }

  lemma SequenceOfTwo(c: seq<byte>, d: seq<byte>)
    requires |c| <= 49 && |d| <= 49
    ensures var tree := BerGrammar.Node([0x30], [BerGrammar.Leaf([0x02], c), BerGrammar.Leaf([0x02], d)]);
            var body := [0x02, |c|] + c + ([0x02, |d|] + d);
            BerGrammar.Der(tree) == [0x30, |body|] + body && BerGrammar.Encodable(tree)
  {
    var left, right := BerGrammar.Leaf([0x02], c), BerGrammar.Leaf([0x02], d);
    var body := [0x02, |c|] + c + ([0x02, |d|] + d);
    ShortDer(left);
    ShortDer(right);
    TwoChildren(left, right);
    assert [0x30] + [|body|] == [0x30, |body|];
  }

  lemma TwoChildren(left: BerGrammar.Tree, right: BerGrammar.Tree)
    ensures BerGrammar.DerAll([left, right]) == BerGrammar.Der(left) + BerGrammar.Der(right)
    ensures BerGrammar.AllEncodable([left, right]) == (BerGrammar.Encodable(left) && BerGrammar.Encodable(right))
  {
    hide BerGrammar.Der, BerGrammar.Encodable;
    assert [left, right][1..] == [right] && [right][1..] == [];
    assert BerGrammar.DerAll([right]) == BerGrammar.Der(right) + [];
    assert BerGrammar.AllEncodable([right]) == BerGrammar.Encodable(right);
  }

  lemma ShortDer(leaf: BerGrammar.Tree)
    requires leaf.Leaf? && leaf.tag == [0x02] && |leaf.content| < 0x80
    ensures BerGrammar.Der(leaf) == [0x02, |leaf.content|] + leaf.content && BerGrammar.Encodable(leaf)
  {
    assert [0x02] + [|leaf.content|] == [0x02, |leaf.content|];
  }

  /**
   For every raw signature: two minimal non-negative INTEGERs with the values of the two halves, in a
   well-formed SEQUENCE; and distinct signatures give distinct outputs.
   */
  lemma Es384Exact(raw: seq<byte>, raw': seq<byte>)
    requires |raw| == |raw'| == 96
    ensures var tree := SignatureTree(raw);
            && BerGrammar.Encodable(tree) && |BerGrammar.Der(tree)| <= 104
            && tree.Node? && tree.tag == [0x30] && |tree.children| == 2
            && (forall i :: 0 <= i < 2 ==>
                  && tree.children[i].Leaf? && tree.children[i].tag == [0x02]
                  && IsMinimalInteger(tree.children[i].content))
            && TwosComplement(tree.children[0].content) == BigEndian(raw[..48])
            && TwosComplement(tree.children[1].content) == BigEndian(raw[48..])
    ensures BerGrammar.Der(SignatureTree(raw)) == BerGrammar.Der(SignatureTree(raw')) ==> raw == raw'
  {
    IntegerContentExact(raw[..48]);
    IntegerContentExact(raw[48..]);
    SignatureDer(raw);
    if BerGrammar.Der(SignatureTree(raw)) == BerGrammar.Der(SignatureTree(raw')) {
      SignatureDer(raw');
      Cms.DerInjective(SignatureTree(raw), SignatureTree(raw'));
      SameTreeSameHalves(raw, raw');
    }
  }

  lemma SameTreeSameHalves(raw: seq<byte>, raw': seq<byte>)
    requires |raw| == |raw'| == 96 && SignatureTree(raw) == SignatureTree(raw')
    ensures raw == raw'
  {
    assert SignatureTree(raw).children[0] == SignatureTree(raw').children[0];
    assert SignatureTree(raw).children[1] == SignatureTree(raw').children[1];
    IntegerContentExact(raw[..48]);
    IntegerContentExact(raw'[..48]);
    IntegerContentExact(raw[48..]);
    IntegerContentExact(raw'[48..]);
    BigEndianInjective(raw[..48], raw'[..48]);
    BigEndianInjective(raw[48..], raw'[48..]);
    assert raw == raw[..48] + raw[48..] && raw' == raw'[..48] + raw'[48..];
  }
}
