/**
 The grammar of BER (X.690, section 8.1) and of its canonical subset DER (section 10.1), stated on
 trees. A Framed value is one BER encoding: the tree, and how each of its lengths is written. Strip
 forgets the writing and leaves the meaning.
 */
module BerGrammar {
  import opened Bytes

  datatype Tree =
    | Leaf(tag: seq<byte>, content: seq<byte>)
    | Node(tag: seq<byte>, children: seq<Tree>)

  datatype Framed =
    | Primitive(tag: seq<byte>, len: seq<byte>, content: seq<byte>)
    | Definite(tag: seq<byte>, len: seq<byte>, children: seq<Framed>)
    | Indefinite(tag: seq<byte>, children: seq<Framed>)

  /** Two zero octets: an ordinary element by its shape, the end-of-contents mark by its place. */
  const END_OF_CONTENTS := Primitive([0], [0], [])

  predicate IsConstructed(first: byte) {
    first / 0x20 % 2 == 1
  }

  predicate HasLongTag(first: byte) {
    first % 0x20 == 0x1f
  }

  /** Identifier octets (section 8.1.2): one octet, or a run closed by the first octet with a clear top bit. */
  predicate IsTag(tag: seq<byte>, constructed: bool) {
    && tag != []
    && IsConstructed(tag[0]) == constructed
    && if HasLongTag(tag[0]) then
         && |tag| >= 2
         && tag[|tag| - 1] < 0x80
         && forall i :: 1 <= i < |tag| - 1 ==> tag[i] >= 0x80
       else
         |tag| == 1
  }

  /** Length octets (section 8.1.3): the short form, or the long form with one to four octets. */
  predicate IsLength(len: seq<byte>, n: nat) {
    || (|len| == 1 && len[0] < 0x80 && len[0] == n)
    || (2 <= |len| <= 5 && len[0] == 0x80 + |len| - 1 && BigEndian(len[1..]) == n)
  }

  predicate WellFormed(f: Framed)
    decreases f, 1
  {
    match f
    case Primitive(tag, len, content) => IsTag(tag, false) && IsLength(len, |content|)
    case Definite(tag, len, children) =>
      IsTag(tag, true) && AllWellFormed(children) && IsLength(len, |BerAll(children)|)
    case Indefinite(tag, children) =>
      IsTag(tag, true) && AllWellFormed(children) && END_OF_CONTENTS !in children
  }

  predicate AllWellFormed(fs: seq<Framed>)
    decreases fs, 0
  {
    fs == [] || (WellFormed(fs[0]) && AllWellFormed(fs[1..]))
  }

  function Ber(f: Framed): seq<byte>
    decreases f, 1
  {
    match f
    case Primitive(tag, len, content) => tag + len + content
    case Definite(tag, len, children) => tag + len + BerAll(children)
    case Indefinite(tag, children) => tag + [0x80] + BerAll(children) + [0, 0]
  }

  function BerAll(fs: seq<Framed>): seq<byte>
    decreases fs, 0
  {
    if fs == [] then [] else Ber(fs[0]) + BerAll(fs[1..])
  }

  function Strip(f: Framed): Tree
    decreases f, 1
  {
    match f
    case Primitive(tag, _, content) => Leaf(tag, content)
    case Definite(tag, _, children) => Node(tag, StripAll(children))
    case Indefinite(tag, children) => Node(tag, StripAll(children))
  }

  function StripAll(fs: seq<Framed>): seq<Tree>
    decreases fs, 0
  {
    if fs == [] then [] else [Strip(fs[0])] + StripAll(fs[1..])
  }

  /** The octet byte(0x80 | k), which keeps the low seven bits of k. */
  function LongLength(k: nat): byte {
    0x80 + k % 0x80
  }

  /** The definite length octets writeTagLen emits. */
  function DerLength(n: nat): seq<byte> {
    if n < 0x80 then [n] else [LongLength(|ToBigEndian(n)|)] + ToBigEndian(n)
  }

  function DerElement(tag: seq<byte>, body: seq<byte>): seq<byte> {
    tag + DerLength(|body|) + body
  }

  function Der(t: Tree): seq<byte>
    decreases t, 1
  {
    match t
    case Leaf(tag, content) => DerElement(tag, content)
    case Node(tag, children) => DerElement(tag, DerAll(children))
  }

  function DerAll(ts: seq<Tree>): seq<byte>
    decreases ts, 0
  {
    if ts == [] then [] else Der(ts[0]) + DerAll(ts[1..])
  }

  /** A tree whose tags are well formed and whose bodies all have under 2^32 octets. */
  predicate Encodable(t: Tree)
    decreases t, 1
  {
    match t
    case Leaf(tag, content) => IsTag(tag, false) && |content| < 0x1_0000_0000
    case Node(tag, children) => IsTag(tag, true) && AllEncodable(children) && |DerAll(children)| < 0x1_0000_0000
  }

  predicate AllEncodable(ts: seq<Tree>)
    decreases ts, 0
  {
    ts == [] || (Encodable(ts[0]) && AllEncodable(ts[1..]))
  }

  /** The tree with every length written the DER way. */
  function Canonical(t: Tree): Framed
    decreases t, 1
  {
    match t
    case Leaf(tag, content) => Primitive(tag, DerLength(|content|), content)
    case Node(tag, children) => Definite(tag, DerLength(|DerAll(children)|), CanonicalAll(children))
  }

  function CanonicalAll(ts: seq<Tree>): seq<Framed>
    decreases ts, 0
  {
    if ts == [] then [] else [Canonical(ts[0])] + CanonicalAll(ts[1..])
  }

  lemma DerLengthLegal(n: nat)
    requires n < 0x1_0000_0000
    ensures IsLength(DerLength(n), n)
  {
    if n >= 0x80 {
      Pow256Values();
      ToBigEndianLength(n, 4);
      ToBigEndianValue(n);
      assert DerLength(n)[1..] == ToBigEndian(n);
    }
  }

  /** The DER length octets are the shortest legal ones, and the only legal ones of that size. */
  lemma DerLengthMinimal(n: nat, len: seq<byte>)
    requires n < 0x1_0000_0000 && IsLength(len, n)
    ensures |len| >= |DerLength(n)|
    ensures |len| == |DerLength(n)| ==> len == DerLength(n)
  {
    DerLengthLegal(n);
    if |len| > 1 && n >= 0x80 {
      ToBigEndianShortest(len[1..]);
      if |len| == |DerLength(n)| {
        assert DerLength(n)[1..] == ToBigEndian(n);
        ToBigEndianValue(n);
        BigEndianInjective(len[1..], ToBigEndian(n));
        assert len == [len[0]] + len[1..];
      }
    }
  }

  /** DER is one of the BER encodings of a tree: the one Canonical picks. */
  lemma {:induction false} CanonicalIsDer(t: Tree)
    ensures Ber(Canonical(t)) == Der(t)
    ensures Strip(Canonical(t)) == t
    ensures Encodable(t) ==> WellFormed(Canonical(t))
    decreases t, 1
  {
    match t
    case Leaf(tag, content) =>
      if |content| < 0x1_0000_0000 {
        DerLengthLegal(|content|);
      }
    case Node(tag, children) =>
      CanonicalAllIsDer(children);
      if |DerAll(children)| < 0x1_0000_0000 {
        DerLengthLegal(|DerAll(children)|);
      }
  }

  lemma {:induction false} CanonicalAllIsDer(ts: seq<Tree>)
    ensures BerAll(CanonicalAll(ts)) == DerAll(ts)
    ensures StripAll(CanonicalAll(ts)) == ts
    ensures AllEncodable(ts) ==> AllWellFormed(CanonicalAll(ts))
    decreases ts, 0
  {
    if ts != [] {
      CanonicalIsDer(ts[0]);
      CanonicalAllIsDer(ts[1..]);
    }
  }

  /** The DER of a tree is bounded by every body inside it, so a short DER is an encodable tree. */
  lemma {:induction false} ShortDerIsEncodable(f: Framed)
    requires WellFormed(f) && |Der(Strip(f))| < 0x1_0000_0000
    ensures Encodable(Strip(f))
    decreases f, 1
  {
    if !f.Primitive? {
      ShortDerAllIsEncodable(f.children);
    }
  }

  lemma {:induction false} ShortDerAllIsEncodable(fs: seq<Framed>)
    requires AllWellFormed(fs) && |DerAll(StripAll(fs))| < 0x1_0000_0000
    ensures AllEncodable(StripAll(fs))
    decreases fs, 0
  {
    if fs != [] {
      ShortDerIsEncodable(fs[0]);
      ShortDerAllIsEncodable(fs[1..]);
    }
  }

  lemma {:induction false} DerAllAppend(fs: seq<Framed>, f: Framed)
    ensures DerAll(StripAll(fs + [f])) == DerAll(StripAll(fs)) + Der(Strip(f))
  {
    if fs == [] {
      assert fs + [f] == [f];
    } else {
      assert (fs + [f])[1..] == fs[1..] + [f];
      DerAllAppend(fs[1..], f);
    }
  }
}

/** A parser for the grammar, and the proof that it reads exactly the grammar's encodings. */
module BerParser {
  import opened Bytes
  import opened BerGrammar

  datatype BerError =
    | TruncatedTlv
    | TruncatedIdentifier
    | MissingLength
    | IndefinitePrimitive
    | MissingEndOfContents
    | UnsupportedLengthOfLength
    | TruncatedLength
    | ContentExceedsBuffer
    | TrailingData

  /** Where the continuation octets that start at i end: just past the first with a clear top bit. */
  function TagEnd(s: seq<byte>, i: nat): (r: Result<nat, BerError>)
    requires i <= |s|
    ensures r.Ok? ==> i < r.value <= |s|
    decreases |s| - i
  {
    if i == |s| then Err(TruncatedIdentifier)
    else if s[i] < 0x80 then Ok(i + 1)
    else TagEnd(s, i + 1)
  }

  /** The definite length octets at the front of s and the number they denote. */
  function ParseLength(s: seq<byte>): (r: Result<(seq<byte>, nat), BerError>)
    requires s != []
    ensures r.Ok? ==> r.value.0 <= s && IsLength(r.value.0, r.value.1)
  {
    if s[0] < 0x80 then Ok((s[..1], s[0]))
    else
      var n := s[0] - 0x80;
      if n == 0 || n > 4 then Err(UnsupportedLengthOfLength)
      else if 1 + n > |s| then Err(TruncatedLength)
      else
        assert s[..1 + n][1..] == s[1..1 + n];
        Ok((s[..1 + n], BigEndian(s[1..1 + n])))
  }

  /** Identifier and length octets; an indefinite length is the single octet 0x80. */
  datatype Header = Header(tag: seq<byte>, len: seq<byte>, n: nat) {
    const size := |tag| + |len|

    predicate IsIndefinite() {
      len == [0x80]
    }
  }

  function ParseHeader(s: seq<byte>): (r: Result<Header, BerError>)
    ensures r.Ok? ==> 2 <= r.value.size <= |s|
  {
    if |s| < 2 then Err(TruncatedTlv) else
    var i :- if HasLongTag(s[0]) then TagEnd(s, 1) else Ok(1);
    if i >= |s| then Err(MissingLength)
    else if s[i] == 0x80 then
      if IsConstructed(s[0]) then Ok(Header(s[..i], [0x80], 0)) else Err(IndefinitePrimitive)
    else
      var (len, n) :- ParseLength(s[i..]);
      Ok(Header(s[..i], len, n))
  }

  /** Read one element; the result carries what follows it. */
  function Parse(s: seq<byte>): (r: Result<(Framed, seq<byte>), BerError>)
    ensures r.Ok? ==> |r.value.1| + 2 <= |s|
    decreases |s|, 1
  {
    var h :- ParseHeader(s);
    ParseBody(s, h)
  }

  function ParseBody(s: seq<byte>, h: Header): (r: Result<(Framed, seq<byte>), BerError>)
    requires 2 <= h.size <= |s|
    ensures r.Ok? ==> |r.value.1| + 2 <= |s|
    decreases |s|, 0
  {
    if h.IsIndefinite() then
      var (children, rest) :- ParseUntilEnd(s[h.size..]);
      Ok((Indefinite(h.tag, children), rest))
    else
      var end := h.size + h.n;
      if end > |s| then Err(ContentExceedsBuffer)
      else if !IsConstructed(s[0]) then Ok((Primitive(h.tag, h.len, s[h.size..end]), s[end..]))
      else
        var children :- ParseAll(s[h.size..end]);
        Ok((Definite(h.tag, h.len, children), s[end..]))
  }

  /** Read elements up to the end-of-contents octets of an indefinite-length element. */
  function ParseUntilEnd(s: seq<byte>): (r: Result<(seq<Framed>, seq<byte>), BerError>)
    ensures r.Ok? ==> |r.value.1| + 2 <= |s|
    decreases |s|, 2
  {
    if |s| < 2 then Err(MissingEndOfContents)
    else if s[0] == 0 && s[1] == 0 then Ok(([], s[2..]))
    else
      var (first, rest) :- Parse(s);
      var (others, rest') :- ParseUntilEnd(rest);
      Ok(([first] + others, rest'))
  }

  function ParseAll(s: seq<byte>): Result<seq<Framed>, BerError>
    decreases |s|, 2
  {
    if s == [] then Ok([])
    else
      var (first, rest) :- Parse(s);
      var others :- ParseAll(rest);
      Ok([first] + others)
  }

  lemma {:induction false} TagEndExact(s: seq<byte>, i: nat, j: nat)
    requires i <= |s|
    ensures TagEnd(s, i) == Ok(j) <==>
            i < j <= |s| && s[j - 1] < 0x80 && forall k :: i <= k < j - 1 ==> s[k] >= 0x80
    decreases |s| - i
  {
    if i < |s| && s[i] >= 0x80 {
      TagEndExact(s, i + 1, j);
    }
  }

  lemma ParseLengthExact(s: seq<byte>, len: seq<byte>, n: nat)
    requires s != [] && s[0] != 0x80
    ensures ParseLength(s) == Ok((len, n)) <==> len <= s && IsLength(len, n)
  {
    if len <= s && IsLength(len, n) {
      assert len == s[..|len|];
      if |len| > 1 {
        assert len[1..] == s[1..|len|];
      }
    }
  }

  ghost predicate IsHeader(h: Header, s: seq<byte>) {
    && h.tag + h.len <= s
    && s != []
    && IsTag(h.tag, IsConstructed(s[0]))
    && if h.IsIndefinite() then IsConstructed(s[0]) && h.n == 0 else IsLength(h.len, h.n)
  }

  lemma TagSound(s: seq<byte>, i: nat)
    requires s != [] && i <= |s|
    requires if HasLongTag(s[0]) then TagEnd(s, 1) == Ok(i) else i == 1
    ensures IsTag(s[..i], IsConstructed(s[0]))
  {
    if HasLongTag(s[0]) {
      TagEndExact(s, 1, i);
    }
  }

  lemma HeaderSound(s: seq<byte>)
    requires ParseHeader(s).Ok?
    ensures IsHeader(ParseHeader(s).value, s)
  {
    var h := ParseHeader(s).value;
    var i := |h.tag|;
    TagSound(s, i);
    if !h.IsIndefinite() {
      ParseLengthExact(s[i..], h.len, h.n);
      assert h.len == s[i..][..|h.len|];
    }
    assert h.tag + h.len == s[..i + |h.len|];
  }

  lemma HeaderComplete(s: seq<byte>, h: Header)
    requires IsHeader(h, s)
    ensures ParseHeader(s) == Ok(h)
  {
    var i := |h.tag|;
    assert h.tag == (h.tag + h.len)[..i] == s[..i];
    assert h.tag[0] == s[0];
    if HasLongTag(s[0]) {
      assert forall k :: 0 <= k < i ==> s[k] == h.tag[k];
      TagEndExact(s, 1, i);
    }
    assert h.len == (h.tag + h.len)[i..] == s[i..i + |h.len|];
    assert s[i] == h.len[0];
    if !h.IsIndefinite() {
      assert h.len <= s[i..];
      ParseLengthExact(s[i..], h.len, h.n);
    }
  }

  /** Soundness: what Parse accepts is an encoding of the tree it returns, followed by the rest. */
  lemma {:induction false} ParseSound(s: seq<byte>, f: Framed, rest: seq<byte>)
    requires Parse(s) == Ok((f, rest))
    ensures WellFormed(f) && s == Ber(f) + rest
    decreases |s|, 1
  {
    HeaderSound(s);
    ParseBodySound(s, ParseHeader(s).value, f, rest);
  }

  lemma {:induction false} ParseBodySound(s: seq<byte>, h: Header, f: Framed, rest: seq<byte>)
    requires IsHeader(h, s) && 2 <= h.size <= |s| && ParseBody(s, h) == Ok((f, rest))
    ensures WellFormed(f) && s == Ber(f) + rest
    decreases |s|, 0
  {
    match f
    case Primitive(_, _, content) =>
      PrimitiveSound(s, h, content, rest);
    case Definite(_, _, children) =>
      ParseAllSound(s[h.size..h.size + h.n], children);
      DefiniteSound(s, h, children, rest);
    case Indefinite(_, children) =>
      ParseUntilEndSound(s[h.size..], children, rest);
      IndefiniteSound(s, h, children, rest);
  }

  lemma PrimitiveSound(s: seq<byte>, h: Header, content: seq<byte>, rest: seq<byte>)
    requires IsHeader(h, s) && !h.IsIndefinite() && !IsConstructed(s[0]) && h.size + h.n <= |s|
    requires content == s[h.size..h.size + h.n] && rest == s[h.size + h.n..]
    ensures WellFormed(Primitive(h.tag, h.len, content))
    ensures s == Ber(Primitive(h.tag, h.len, content)) + rest
  {
    Reassemble(s, h, content, rest);
  }

  lemma DefiniteSound(s: seq<byte>, h: Header, children: seq<Framed>, rest: seq<byte>)
    requires IsHeader(h, s) && !h.IsIndefinite() && IsConstructed(s[0]) && h.size + h.n <= |s|
    requires AllWellFormed(children) && BerAll(children) == s[h.size..h.size + h.n] && rest == s[h.size + h.n..]
    ensures WellFormed(Definite(h.tag, h.len, children))
    ensures s == Ber(Definite(h.tag, h.len, children)) + rest
  {
    Reassemble(s, h, BerAll(children), rest);
  }

  lemma IndefiniteSound(s: seq<byte>, h: Header, children: seq<Framed>, rest: seq<byte>)
    requires IsHeader(h, s) && h.IsIndefinite()
    requires AllWellFormed(children) && END_OF_CONTENTS !in children
    requires s[h.size..] == BerAll(children) + ([0, 0] + rest)
    ensures WellFormed(Indefinite(h.tag, children))
    ensures s == Ber(Indefinite(h.tag, children)) + rest
  {
    Reassemble(s, h, BerAll(children), [0, 0] + rest);
  }

  lemma Reassemble(s: seq<byte>, h: Header, body: seq<byte>, rest: seq<byte>)
    requires h.tag + h.len <= s && h.size + |body| <= |s|
    requires s[h.size..] == body + rest || (s[h.size..h.size + |body|] == body && s[h.size + |body|..] == rest)
    ensures s == h.tag + h.len + body + rest
  {
    assert s == s[..h.size] + s[h.size..];
  }

  lemma ConsFramed(f: Framed, fs: seq<Framed>, s: seq<byte>, tail: seq<byte>, end: seq<byte>)
    requires WellFormed(f) && AllWellFormed(fs) && s == Ber(f) + tail && tail == BerAll(fs) + end
    ensures AllWellFormed([f] + fs) && s == BerAll([f] + fs) + end
    ensures f == END_OF_CONTENTS ==> s[..2] == [0, 0]
  {
    assert ([f] + fs)[1..] == fs;
  }

  lemma {:induction false} ParseUntilEndSound(s: seq<byte>, fs: seq<Framed>, rest: seq<byte>)
    requires ParseUntilEnd(s) == Ok((fs, rest))
    ensures AllWellFormed(fs) && END_OF_CONTENTS !in fs && s == BerAll(fs) + ([0, 0] + rest)
    decreases |s|, 2
  {
    if s[0] == 0 && s[1] == 0 {
      assert s == [0, 0] + s[2..];
    } else {
      var (first, tail) := Parse(s).value;
      var others := ParseUntilEnd(tail).value.0;
      ParseSound(s, first, tail);
      ParseUntilEndSound(tail, others, rest);
      ConsFramed(first, others, s, tail, [0, 0] + rest);
    }
  }

  lemma {:induction false} ParseAllSound(s: seq<byte>, fs: seq<Framed>)
    requires ParseAll(s) == Ok(fs)
    ensures AllWellFormed(fs) && s == BerAll(fs)
    decreases |s|, 2
  {
    if s != [] {
      var (first, tail) := Parse(s).value;
      var others := ParseAll(tail).value;
      ParseSound(s, first, tail);
      ParseAllSound(tail, others);
      ConsFramed(first, others, s, tail, []);
    }
  }

  /** Completeness: every encoding is accepted, whatever octets follow it, and read back exactly. */
  lemma {:induction false} ParseComplete(f: Framed, rest: seq<byte>)
    requires WellFormed(f)
    ensures Parse(Ber(f) + rest) == Ok((f, rest))
    decreases f, 1
  {
    match f
    case Primitive(tag, len, content) =>
      HeaderInFront(Header(tag, len, |content|), content, rest, Ber(f) + rest);
    case Definite(tag, len, children) =>
      HeaderInFront(Header(tag, len, |BerAll(children)|), BerAll(children), rest, Ber(f) + rest);
      ParseAllComplete(children);
    case Indefinite(tag, children) =>
      ParseUntilEndComplete(children, rest);
      IndefiniteComplete(tag, children, rest);
  }

  lemma IndefiniteComplete(tag: seq<byte>, children: seq<Framed>, rest: seq<byte>)
    requires IsTag(tag, true)
    requires ParseUntilEnd(BerAll(children) + ([0, 0] + rest)) == Ok((children, rest))
    ensures Parse(Ber(Indefinite(tag, children)) + rest) == Ok((Indefinite(tag, children), rest))
  {
    var s := Ber(Indefinite(tag, children)) + rest;
    assert s == tag + [0x80] + BerAll(children) + ([0, 0] + rest);
    HeaderInFront(Header(tag, [0x80], 0), BerAll(children), [0, 0] + rest, s);
  }

  lemma HeaderInFront(h: Header, body: seq<byte>, rest: seq<byte>, s: seq<byte>)
    requires h.tag != [] && s == h.tag + h.len + body + rest
    requires IsTag(h.tag, IsConstructed(h.tag[0]))
    requires if h.IsIndefinite() then IsConstructed(h.tag[0]) && h.n == 0 else IsLength(h.len, h.n) && h.n == |body|
    ensures ParseHeader(s) == Ok(h)
    ensures s[0] == h.tag[0] && s[h.size..] == body + rest
    ensures s[h.size..h.size + |body|] == body && s[h.size + |body|..] == rest
  {
    assert s[..h.size] == h.tag + h.len;
    HeaderComplete(s, h);
  }

  lemma {:induction false} ParseUntilEndComplete(fs: seq<Framed>, rest: seq<byte>)
    requires AllWellFormed(fs) && END_OF_CONTENTS !in fs
    ensures ParseUntilEnd(BerAll(fs) + ([0, 0] + rest)) == Ok((fs, rest))
    decreases fs, 0
  {
    var s := BerAll(fs) + ([0, 0] + rest);
    if fs == [] {
      assert s[2..] == rest;
    } else {
      var tail := BerAll(fs[1..]) + ([0, 0] + rest);
      assert s == Ber(fs[0]) + tail;
      OnlyEndOfContentsStartsWithZeros(fs[0]);
      ParseComplete(fs[0], tail);
      ParseUntilEndComplete(fs[1..], rest);
      ParseUntilEndStep(s, fs[0], tail);
      assert [fs[0]] + fs[1..] == fs;
    }
  }

  lemma ParseUntilEndStep(s: seq<byte>, f: Framed, tail: seq<byte>)
    requires |s| >= 2 && !(s[0] == 0 && s[1] == 0)
    requires Parse(s) == Ok((f, tail)) && ParseUntilEnd(tail).Ok?
    ensures ParseUntilEnd(s) == Ok(([f] + ParseUntilEnd(tail).value.0, ParseUntilEnd(tail).value.1))
  {
  }

  lemma {:induction false} ParseAllComplete(fs: seq<Framed>)
    requires AllWellFormed(fs)
    ensures ParseAll(BerAll(fs)) == Ok(fs)
    decreases fs, 0
  {
    if fs != [] {
      OnlyEndOfContentsStartsWithZeros(fs[0]);
      ParseComplete(fs[0], BerAll(fs[1..]));
      ParseAllComplete(fs[1..]);
      assert [fs[0]] + fs[1..] == fs;
    }
  }

  lemma OnlyEndOfContentsStartsWithZeros(f: Framed)
    requires WellFormed(f)
    ensures |Ber(f)| >= 2
    ensures Ber(f)[0] == 0 && Ber(f)[1] == 0 ==> f == END_OF_CONTENTS
  {
    assert Ber(f)[0] == f.tag[0];
    if f.tag[0] == 0 {
      assert |f.tag| == 1;
    }
  }
}
