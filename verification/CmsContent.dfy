/** deploy/nitro/nsm-attest/cms.go: joining segmented OCTET STRINGs and stripping PKCS#7 padding. */
module CmsContent {
  import opened Bytes
  import opened Prelude
  import opened BerGrammar
  import opened BerParser
  import Cms

  datatype CmsError =
    | TruncatedSegment
    | BadSegmentLength
    | SegmentExceedsBuffer
    | UnexpectedSegmentTag
    | InvalidBlockSize
    | NotBlockMultiple
    | InvalidPaddingLength
    | InvalidPaddingBytes

  /** A run of primitive OCTET STRINGs, and the octets they carry between them. */
  ghost predicate AreSegments(fs: seq<Framed>) {
    forall f :: f in fs ==> f.Primitive? && f.tag == [0x04]
  }

  ghost function Contents(fs: seq<Framed>): seq<byte>
    requires AreSegments(fs)
  {
    if fs == [] then [] else fs[0].content + Contents(fs[1..])
  }

  /** The first segment of a non-empty run: its content, and what follows it. */
  ghost function FirstSegment(s: seq<byte>): (r: Result<(seq<byte>, seq<byte>), CmsError>)
    requires s != []
    ensures r.Ok? ==> |r.value.1| < |s|
  {
    if |s| < 2 then Err(TruncatedSegment)
    else
      match ParseLength(s[1..])
      case Err(_) => Err(BadSegmentLength)
      case Ok((len, n)) =>
        var j := 1 + |len|;
        if j + n > |s| then Err(SegmentExceedsBuffer)
        else if s[0] != 0x04 then Err(UnexpectedSegmentTag)
        else Ok((s[j..j + n], s[j + n..]))
  }

  ghost function JoinSegments(s: seq<byte>): Result<seq<byte>, CmsError>
    decreases |s|
  {
    if s == [] then Ok([])
    else
      var (content, rest) :- FirstSegment(s);
      var others :- JoinSegments(rest);
      Ok(content + others)
  }

  ghost function Prefixed(done: seq<byte>, r: Result<seq<byte>, CmsError>): Result<seq<byte>, CmsError> {
    match r
    case Err(e) => Err(e)
    case Ok(s) => Ok(done + s)
  }

  method ConcatOctetSegments(input: seq<byte>) returns (r: Result<seq<byte>, CmsError>)
    ensures r == JoinSegments(input)
  {
    var out: seq<byte> := [];
    var rest := input;
    NothingJoined(JoinSegments(input));
    while |rest| > 0
      invariant Prefixed(out, JoinSegments(rest)) == JoinSegments(input)
      decreases |rest|
    {
      if |rest| < 2 {
        return Err(TruncatedSegment);
      }
      var header := Cms.ReadLength(rest[1..]);
      if header.Err? {
        return Err(BadSegmentLength);
      }
      var (len, n) := header.value;
      var j := 1 + |len|;
      if j + n > |rest| {
        return Err(SegmentExceedsBuffer);
      }
      if rest[0] != 0x04 {
        return Err(UnexpectedSegmentTag);
      }
      JoinStep(out, rest, rest[j..j + n], rest[j + n..]);
      out := out + rest[j..j + n];
      rest := rest[j + n..];
    }
    assert out + [] == out;
    return Ok(out);
  }

  lemma NothingJoined(r: Result<seq<byte>, CmsError>)
    ensures Prefixed([], r) == r
  {
    if r.Ok? {
      assert [] + r.value == r.value;
    }
  }

  lemma JoinStep(done: seq<byte>, s: seq<byte>, content: seq<byte>, rest: seq<byte>)
    requires s != [] && FirstSegment(s) == Ok((content, rest))
    ensures Prefixed(done, JoinSegments(s)) == Prefixed(done + content, JoinSegments(rest))
  {
    if JoinSegments(rest).Ok? {
      var others := JoinSegments(rest).value;
      assert done + content + others == done + (content + others);
    }
  }

  lemma FirstSegmentSound(s: seq<byte>) returns (f: Framed)
    requires s != [] && FirstSegment(s).Ok?
    ensures WellFormed(f) && f.Primitive? && f.tag == [0x04]
    ensures f.content == FirstSegment(s).value.0 && s == Ber(f) + FirstSegment(s).value.1
  {
    var (len, n) := ParseLength(s[1..]).value;
    var j := 1 + |len|;
    f := Primitive([0x04], len, s[j..j + n]);
    assert s[1..][..|len|] == s[1..j];
    assert s == [0x04] + s[1..j] + s[j..j + n] + s[j + n..];
  }

  lemma FirstSegmentComplete(f: Framed, rest: seq<byte>)
    requires WellFormed(f) && f.Primitive? && f.tag == [0x04]
    ensures |Ber(f)| >= 2
    ensures FirstSegment(Ber(f) + rest) == Ok((f.content, rest))
  {
    Regroup(f.tag, f.len, f.content, rest);
    SegmentAt(Ber(f) + rest, f.len, f.content, rest);
  }

  lemma Regroup(a: seq<byte>, b: seq<byte>, c: seq<byte>, d: seq<byte>)
    ensures a + b + c + d == a + (b + (c + d))
  {
  }

  lemma SegmentAt(s: seq<byte>, len: seq<byte>, content: seq<byte>, rest: seq<byte>)
    requires IsLength(len, |content|) && s == [0x04] + (len + (content + rest))
    ensures FirstSegment(s) == Ok((content, rest))
  {
    LengthInFront(s[1..], len, |content|, content + rest);
    var j := 1 + |len|;
    assert s[j..] == content + rest;
    assert s[j..j + |content|] == content && s[j + |content|..] == rest;
  }

  lemma LengthInFront(s: seq<byte>, len: seq<byte>, n: nat, tail: seq<byte>)
    requires IsLength(len, n) && s == len + tail
    ensures s != [] && ParseLength(s) == Ok((len, n))
  {
    assert s[0] == len[0];
    ParseLengthExact(s, len, n);
  }

  /** Joining accepts exactly the runs of primitive OCTET STRINGs, and returns what they carry. */
  lemma {:induction false} JoinSegmentsSound(s: seq<byte>) returns (fs: seq<Framed>)
    requires JoinSegments(s).Ok?
    ensures AllWellFormed(fs) && AreSegments(fs) && s == BerAll(fs) && JoinSegments(s) == Ok(Contents(fs))
    decreases |s|
  {
    fs := [];
    if s != [] {
      var f := FirstSegmentSound(s);
      var others := JoinSegmentsSound(FirstSegment(s).value.1);
      fs := [f] + others;
      assert fs[1..] == others;
    }
  }

  lemma {:induction false} JoinSegmentsComplete(fs: seq<Framed>)
    requires AllWellFormed(fs) && AreSegments(fs)
    ensures JoinSegments(BerAll(fs)) == Ok(Contents(fs))
  {
    if fs != [] {
      FirstSegmentComplete(fs[0], BerAll(fs[1..]));
      JoinSegmentsComplete(fs[1..]);
    }
  }

  lemma LegalLengthBound(len: seq<byte>, n: nat)
    requires IsLength(len, n)
    ensures n < 0x1_0000_0000
  {
    if |len| > 1 {
      Pow256Values();
      BigEndianBound(len[1..]);
    }
  }

  lemma {:induction false} CanonicalSegments(fs: seq<Framed>)
    requires AllWellFormed(fs) && AreSegments(fs)
    ensures AllEncodable(StripAll(fs)) && AreSegments(CanonicalAll(StripAll(fs)))
    ensures Contents(CanonicalAll(StripAll(fs))) == Contents(fs)
  {
    if fs != [] {
      LegalLengthBound(fs[0].len, |fs[0].content|);
      CanonicalSegments(fs[1..]);
      var first := Canonical(Strip(fs[0]));
      assert CanonicalAll(StripAll(fs)) == [first] + CanonicalAll(StripAll(fs[1..]));
    }
  }

  /**
   A constructed element whose children are OCTET STRING segments, its own length definite or not and
   the segment lengths written in any legal way: transcoding it and joining the body of the result
   gives back the octets that were split.
   */
  lemma SegmentedRecovery(f: Framed, pad: seq<byte>)
    requires WellFormed(f) && !f.Primitive? && AreSegments(f.children) && Cms.AllZero(pad)
    ensures exists body :: Cms.Transcode(Ber(f) + pad) == Ok(DerElement(f.tag, body)) &&
                           JoinSegments(body) == Ok(Contents(f.children))
  {
    var body := DerAll(StripAll(f.children));
    Cms.TranscodeComplete(f, pad);
    CanonicalSegments(f.children);
    CanonicalAllIsDer(StripAll(f.children));
    JoinSegmentsComplete(CanonicalAll(StripAll(f.children)));
    assert Cms.Transcode(Ber(f) + pad) == Ok(DerElement(f.tag, body));
  }

  /** PKCS#7 padding (section 6.3 of RFC 5652): fill the last block with octets that count themselves. */
  function Pkcs7Pad(data: seq<byte>, blockSize: int): seq<byte>
    requires 1 <= blockSize <= 255
  {
    var pad: byte := blockSize - |data| % blockSize;
    data + seq(pad, _ => pad)
  }

  function Pkcs7Unpad(data: seq<byte>, blockSize: int): Result<seq<byte>, CmsError> {
    if blockSize <= 0 || blockSize > 255 then Err(InvalidBlockSize)
    else
      var n := |data|;
      if n == 0 || n % blockSize != 0 then Err(NotBlockMultiple)
      else
        var pad := data[n - 1];
        if pad == 0 || pad > blockSize || pad > n then Err(InvalidPaddingLength)
        else if data[n - pad..] != seq(pad, _ => pad) then Err(InvalidPaddingBytes)
        else Ok(data[..n - pad])
  }

  lemma Pkcs7UnpadSound(padded: seq<byte>, blockSize: int)
    requires Pkcs7Unpad(padded, blockSize).Ok?
    ensures 1 <= blockSize <= 255 && padded == Pkcs7Pad(Pkcs7Unpad(padded, blockSize).value, blockSize)
  {
    var pad := padded[|padded| - 1];
    PadFillsBlock(|padded|, blockSize, pad);
    assert padded == padded[..|padded| - pad] + padded[|padded| - pad..];
  }

  lemma Pkcs7UnpadComplete(data: seq<byte>, blockSize: int)
    requires 1 <= blockSize <= 255
    ensures Pkcs7Unpad(Pkcs7Pad(data, blockSize), blockSize) == Ok(data)
  {
    var pad: byte := blockSize - |data| % blockSize;
    var padding := seq(pad, _ => pad);
    var whole := data + padding;
    WholeBlocks(|data|, blockSize);
    assert whole[|whole| - 1] == padding[pad - 1] == pad;
    assert whole[|whole| - pad..] == padding && whole[..|whole| - pad] == data;
  }

  /** Unpadding is the exact partial inverse of padding: it accepts padded data and nothing else. */
  lemma Pkcs7Inverse(padded: seq<byte>, blockSize: int, data: seq<byte>)
    ensures Pkcs7Unpad(padded, blockSize) == Ok(data) <==>
            1 <= blockSize <= 255 && padded == Pkcs7Pad(data, blockSize)
  {
    if Pkcs7Unpad(padded, blockSize) == Ok(data) {
      Pkcs7UnpadSound(padded, blockSize);
    }
    if 1 <= blockSize <= 255 {
      Pkcs7UnpadComplete(data, blockSize);
    }
  }

  lemma PadFillsBlock(n: nat, k: int, pad: int)
    requires 1 <= pad <= k && pad <= n && n % k == 0
    ensures k - (n - pad) % k == pad
  {
    var q := n / k;
    assert n - pad == (q - 1) * k + (k - pad);
    QuotientUnique(n - pad, k, q - 1, k - pad);
  }

  lemma WholeBlocks(n: nat, k: int)
    requires 1 <= k
    ensures (n + (k - n % k)) % k == 0
  {
    assert n + (k - n % k) == (n / k + 1) * k + 0;
    QuotientUnique(n + (k - n % k), k, n / k + 1, 0);
  }
}
