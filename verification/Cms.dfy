/** deploy/nitro/nsm-attest/cms.go: the BER to DER transcoder, segment joining and PKCS#7 unpadding. */
module Cms {
  import opened Bytes
  import opened BerGrammar
  import opened BerParser

  /** An append-only byte buffer. */
  class Buffer {
    var data: seq<byte>

    constructor ()
      ensures data == []
    {
      data := [];
    }

    method Write(s: seq<byte>)
      modifies this
      ensures data == old(data) + s
    {
      data := data + s;
    }
  }

  method WriteTagLen(out: Buffer, tag: seq<byte>, length: nat)
    modifies out
    ensures out.data == old(out.data) + tag + DerLength(length)
  {
    out.Write(tag);
    if length < 0x80 {
      out.Write([length]);
      return;
    }
    var lenBytes := LengthBytes(length);
    assert DerLength(length) == [LongLength(|lenBytes|)] + lenBytes;
    out.Write([LongLength(|lenBytes|)]);
    out.Write(lenBytes);
  }

  method LengthBytes(length: nat) returns (lenBytes: seq<byte>)
    ensures lenBytes == ToBigEndian(length)
  {
    lenBytes := [];
    var l := length;
    while l > 0
      invariant ToBigEndian(l) + lenBytes == ToBigEndian(length)
    {
      ToBigEndianUnfold(l, lenBytes);
      lenBytes := [l % 256] + lenBytes;
      l := l / 256;
    }
  }

  lemma ToBigEndianUnfold(l: nat, tail: seq<byte>)
    requires l > 0
    ensures ToBigEndian(l) + tail == ToBigEndian(l / 256) + ([l % 256] + tail)
  {
  }

  /** The identifier octets: the index just past them. */
  method ReadTag(input: seq<byte>) returns (r: Result<nat, BerError>)
    requires |input| >= 2
    ensures r == if HasLongTag(input[0]) then TagEnd(input, 1) else Ok(1)
  {
    var i := 1;
    if HasLongTag(input[0]) {
      while true
        invariant 1 <= i <= |input|
        invariant TagEnd(input, i) == TagEnd(input, 1)
        decreases |input| - i
      {
        if i >= |input| {
          return Err(TruncatedIdentifier);
        }
        var c := input[i];
        i := i + 1;
        if c < 0x80 {
          break;
        }
      }
    }
    return Ok(i);
  }

  /** The definite length octets at the front of s, and their value. */
  method ReadLength(s: seq<byte>) returns (r: Result<(seq<byte>, nat), BerError>)
    requires s != []
    ensures r == ParseLength(s)
  {
    if s[0] < 0x80 {
      return Ok((s[..1], s[0]));
    }
    var n := s[0] - 0x80;
    if n == 0 || n > 4 {
      return Err(UnsupportedLengthOfLength);
    }
    if 1 + n > |s| {
      return Err(TruncatedLength);
    }
    var length: nat := 0;
    for k := 0 to n
      invariant length == BigEndian(s[1..1 + k])
    {
      length := length * 256 + s[1 + k];
      assert s[1..1 + k + 1][..k] == s[1..1 + k];
    }
    return Ok((s[..1 + n], length));
  }

  method ReadHeader(input: seq<byte>) returns (r: Result<Header, BerError>)
    ensures r == ParseHeader(input)
  {
    if |input| < 2 {
      return Err(TruncatedTlv);
    }
    var i :- ReadTag(input);
    if i >= |input| {
      return Err(MissingLength);
    }
    if input[i] == 0x80 {
      return if IsConstructed(input[0]) then Ok(Header(input[..i], [0x80], 0)) else Err(IndefinitePrimitive);
    }
    var length :- ReadLength(input[i..]);
    return Ok(Header(input[..i], length.0, length.1));
  }

  method WriteElement(out: Buffer, tag: seq<byte>, body: seq<byte>)
    modifies out
    ensures out.data == old(out.data) + DerElement(tag, body)
  {
    WriteTagLen(out, tag, |body|);
    out.Write(body);
  }

  /** What reading on from rest means once the elements in front of it have been read. */
  ghost function After(done: seq<Framed>, r: Result<(seq<Framed>, seq<byte>), BerError>)
    : Result<(seq<Framed>, seq<byte>), BerError>
  {
    match r
    case Err(e) => Err(e)
    case Ok((fs, rest)) => Ok((done + fs, rest))
  }

  ghost function AllAfter(done: seq<Framed>, r: Result<seq<Framed>, BerError>): Result<seq<Framed>, BerError>
  {
    match r
    case Err(e) => Err(e)
    case Ok(fs) => Ok(done + fs)
  }

  /**
   Consume one element and append its DER form to out. It fails exactly when the grammar's parser
   fails, and then leaves out alone. Every call consumes at least two octets.
   */
  method ConvertTlv(input: seq<byte>, out: Buffer) returns (r: Result<seq<byte>, BerError>)
    modifies out
    ensures match Parse(input)
            case Err(e) => r == Err(e) && out.data == old(out.data)
            case Ok((f, rest)) => r == Ok(rest) && out.data == old(out.data) + Der(Strip(f))
    decreases |input|, 1
  {
    var h :- ReadHeader(input);
    r := ConvertBody(input, h, out);
  }

  method ConvertBody(input: seq<byte>, h: Header, out: Buffer) returns (r: Result<seq<byte>, BerError>)
    requires 2 <= h.size <= |input|
    modifies out
    ensures match ParseBody(input, h)
            case Err(e) => r == Err(e) && out.data == old(out.data)
            case Ok((f, rest)) => r == Ok(rest) && out.data == old(out.data) + Der(Strip(f))
    decreases |input|, 0
  {
    if h.IsIndefinite() {
      var children, end := ConvertUntilEnd(input[h.size..]);
      if end.Ok? {
        WriteElement(out, h.tag, children.data);
      }
      return end;
    }
    if h.size + h.n > |input| {
      return Err(ContentExceedsBuffer);
    }
    var content, rest := input[h.size..h.size + h.n], input[h.size + h.n..];
    if !IsConstructed(input[0]) {
      WriteElement(out, h.tag, content);
      return Ok(rest);
    }
    var children, failed := ConvertAll(content);
    if failed.Err? {
      return Err(failed.error);
    }
    WriteElement(out, h.tag, children.data);
    return Ok(rest);
  }

  method ConvertAll(content: seq<byte>) returns (children: Buffer, r: Result<(), BerError>)
    ensures fresh(children)
    ensures match ParseAll(content)
            case Err(e) => r == Err(e)
            case Ok(fs) => r == Ok(()) && children.data == DerAll(StripAll(fs))
    decreases |content|, 2
  {
    children := new Buffer();
    var cr := content;
    ghost var done: seq<Framed> := [];
    NothingDone(content);
    while |cr| > 0
      invariant |cr| <= |content|
      invariant fresh(children)
      invariant AllAfter(done, ParseAll(cr)) == ParseAll(content)
      invariant children.data == DerAll(StripAll(done))
    {
      var next := ConvertTlv(cr, children);
      if next.Err? {
        return children, Err(next.error);
      }
      ghost var f := Parse(cr).value.0;
      DerAllAppend(done, f);
      AllAfterStep(done, cr);
      done := done + [f];
      cr := next.value;
    }
    assert done + [] == done;
    r := Ok(());
  }

  method ConvertUntilEnd(input: seq<byte>) returns (children: Buffer, r: Result<seq<byte>, BerError>)
    ensures fresh(children)
    ensures match ParseUntilEnd(input)
            case Err(e) => r == Err(e)
            case Ok((fs, rest)) => r == Ok(rest) && children.data == DerAll(StripAll(fs))
    decreases |input|, 2
  {
    children := new Buffer();
    var rest := input;
    ghost var done: seq<Framed> := [];
    NothingDone(input);
    while true
      invariant |rest| <= |input|
      invariant fresh(children)
      invariant After(done, ParseUntilEnd(rest)) == ParseUntilEnd(input)
      invariant children.data == DerAll(StripAll(done))
      decreases |rest|
    {
      if |rest| < 2 {
        return children, Err(MissingEndOfContents);
      }
      if rest[0] == 0 && rest[1] == 0 {
        assert done + [] == done;
        return children, Ok(rest[2..]);
      }
      var next := ConvertTlv(rest, children);
      if next.Err? {
        return children, next;
      }
      ghost var f := Parse(rest).value.0;
      DerAllAppend(done, f);
      AfterStep(done, rest);
      done := done + [f];
      rest := next.value;
    }
  }

  lemma NothingDone(s: seq<byte>)
    ensures After([], ParseUntilEnd(s)) == ParseUntilEnd(s)
    ensures AllAfter([], ParseAll(s)) == ParseAll(s)
  {
    if ParseUntilEnd(s).Ok? {
      assert [] + ParseUntilEnd(s).value.0 == ParseUntilEnd(s).value.0;
    }
    if ParseAll(s).Ok? {
      assert [] + ParseAll(s).value == ParseAll(s).value;
    }
  }

  lemma AfterStep(done: seq<Framed>, s: seq<byte>)
    requires |s| >= 2 && !(s[0] == 0 && s[1] == 0) && Parse(s).Ok?
    ensures var (f, rest) := Parse(s).value;
            After(done, ParseUntilEnd(s)) == After(done + [f], ParseUntilEnd(rest))
  {
    var (f, rest) := Parse(s).value;
    if ParseUntilEnd(rest).Ok? {
      var others := ParseUntilEnd(rest).value.0;
      assert done + ([f] + others) == done + [f] + others;
    }
  }

  lemma AllAfterStep(done: seq<Framed>, s: seq<byte>)
    requires s != [] && Parse(s).Ok?
    ensures var (f, rest) := Parse(s).value;
            AllAfter(done, ParseAll(s)) == AllAfter(done + [f], ParseAll(rest))
  {
    var (f, rest) := Parse(s).value;
    if ParseAll(rest).Ok? {
      assert done + ([f] + ParseAll(rest).value) == done + [f] + ParseAll(rest).value;
    }
  }

  ghost predicate AllZero(s: seq<byte>) {
    forall i :: 0 <= i < |s| ==> s[i] == 0
  }

  /** berToDER: one element, then nothing but zero octets. */
  ghost function Transcode(ber: seq<byte>): Result<seq<byte>, BerError> {
    var (f, rest) :- Parse(ber);
    if AllZero(rest) then Ok(Der(Strip(f))) else Err(TrailingData)
  }

  method BerToDer(ber: seq<byte>) returns (r: Result<seq<byte>, BerError>)
    ensures r == Transcode(ber)
  {
    var out := new Buffer();
    var rest :- ConvertTlv(ber, out);
    for i := 0 to |rest|
      invariant forall k :: 0 <= k < i ==> rest[k] == 0
    {
      if rest[i] != 0x00 {
        return Err(TrailingData);
      }
    }
    assert [] + Der(Strip(Parse(ber).value.0)) == Der(Strip(Parse(ber).value.0));
    return Ok(out.data);
  }

  lemma TranscodeSound(ber: seq<byte>) returns (f: Framed, pad: seq<byte>)
    requires Transcode(ber).Ok?
    ensures WellFormed(f) && AllZero(pad) && ber == Ber(f) + pad && Transcode(ber) == Ok(Der(Strip(f)))
  {
    f, pad := Parse(ber).value.0, Parse(ber).value.1;
    ParseSound(ber, f, pad);
  }

  lemma TranscodeComplete(f: Framed, pad: seq<byte>)
    requires WellFormed(f) && AllZero(pad)
    ensures Transcode(Ber(f) + pad) == Ok(Der(Strip(f)))
  {
    ParseComplete(f, pad);
  }

  /** After one element, nothing but zero octets is tolerated. */
  lemma TrailingDataIsRefused(f: Framed, rest: seq<byte>)
    requires WellFormed(f)
    ensures Transcode(Ber(f) + rest) == if forall k :: 0 <= k < |rest| ==> rest[k] == 0 then Ok(Der(Strip(f)))
                                        else Err(TrailingData)
  {
    ParseComplete(f, rest);
  }

  /**
   Meaning is preserved: the transcoder accepts exactly the octet strings that are some BER encoding
   of some tree plus zero padding, and its output is the DER of that very tree.
   */
  lemma TranscodeMeaning(ber: seq<byte>, out: seq<byte>)
    ensures Transcode(ber) == Ok(out) <==>
            exists f, pad :: WellFormed(f) && AllZero(pad) && ber == Ber(f) + pad && out == Der(Strip(f))
  {
    if Transcode(ber) == Ok(out) {
      var f, pad := TranscodeSound(ber);
    }
    if f, pad :| WellFormed(f) && AllZero(pad) && ber == Ber(f) + pad && out == Der(Strip(f)) {
      TranscodeComplete(f, pad);
    }
  }

  /** A well-formed element has one reading: neither its framing nor what follows it is ambiguous. */
  lemma BerUnambiguous(f: Framed, g: Framed, rest: seq<byte>, rest': seq<byte>)
    requires WellFormed(f) && WellFormed(g) && Ber(f) + rest == Ber(g) + rest'
    ensures f == g && rest == rest'
  {
    ParseComplete(f, rest);
    ParseComplete(g, rest');
  }

  /** DER is a fixed point, whatever follows it, and distinct trees have distinct DER. */
  lemma DerFixedPoint(t: Tree, rest: seq<byte>)
    requires Encodable(t)
    ensures Parse(Der(t) + rest) == Ok((Canonical(t), rest)) && Der(Strip(Canonical(t))) == Der(t)
    ensures Transcode(Der(t)) == Ok(Der(t))
  {
    CanonicalIsDer(t);
    ParseComplete(Canonical(t), rest);
    ParseComplete(Canonical(t), []);
    assert Der(t) + [] == Der(t);
  }

  lemma DerInjective(t: Tree, u: Tree)
    requires Encodable(t) && Encodable(u) && Der(t) == Der(u)
    ensures t == u
  {
    DerFixedPoint(t, []);
    DerFixedPoint(u, []);
    CanonicalIsDer(t);
    CanonicalIsDer(u);
  }

  /** Transcoding twice is transcoding once, for outputs short enough for the parser to read. */
  lemma TranscodeIdempotent(ber: seq<byte>)
    requires Transcode(ber).Ok? && |Transcode(ber).value| < 0x1_0000_0000
    ensures Transcode(Transcode(ber).value) == Transcode(ber)
  {
    var (f, rest) := Parse(ber).value;
    ParseSound(ber, f, rest);
    ShortDerIsEncodable(f);
    DerFixedPoint(Strip(f), []);
  }
}
