/**
 The part of CBOR (RFC 8949, section 3) both decoders read, as a grammar. A Framed value is one
 encoding of a data item: the item, and for every head how wide its argument is written and whether
 the length is definite or indefinite. ValueOf forgets the writing.
 */
module CborGrammar {
  import opened Bytes

  /** What decoding yields. Text is its UTF-8 octets. Break is the stop code, as cborRead surfaces it. */
  datatype Value =
    | Num(n: int)
    | ByteString(data: seq<byte>)
    | TextString(data: seq<byte>)
    | List(items: seq<Value>)
    | Dict(entries: seq<Entry>)
    | Bool(b: bool)
    | Null
    | Undefined
    | Float(bits: seq<byte>)
    | Break

  datatype Entry = Entry(key: Value, value: Value)

  /** Where an argument is written: in the initial octet, or in 1, 2, 4 or 8 octets after it. */
  datatype Width = W0 | W1 | W2 | W4 | W8 {
    function Octets(): nat {
      match this
      case W0 => 0
      case W1 => 1
      case W2 => 2
      case W4 => 4
      case W8 => 8
    }

    /** The low five bits of the initial octet. */
    function Info(n: nat): nat {
      match this
      case W0 => n
      case W1 => 24
      case W2 => 25
      case W4 => 26
      case W8 => 27
    }

    /** Arguments are kept below 2^53, where a JavaScript number is exact. */
    predicate Fits(n: nat) {
      match this
      case W0 => n < 24
      case W1 => n < 0x100
      case W2 => n < 0x1_0000
      case W4 => n < 0x1_0000_0000
      case W8 => n < 0x20_0000_0000_0000
    }
  }

  datatype Chunk = Chunk(w: Width, data: seq<byte>)

  datatype Framed =
    | Unsigned(w: Width, n: nat)
    | Negative(w: Width, n: nat)
    | Str(text: bool, w: Width, data: seq<byte>)
    | OpenStr(text: bool, chunks: seq<Chunk>)
    | Arr(w: Width, items: seq<Framed>)
    | OpenArr(items: seq<Framed>)
    | Map(w: Width, pairs: seq<Pair>)
    | OpenMap(pairs: seq<Pair>)
    | Tag(w: Width, number: nat, inner: Framed)
    | Simple(simple: SimpleValue)

  datatype Pair = Pair(key: Framed, value: Framed)

  datatype SimpleValue = False | True | NullValue | UndefinedValue

  function StringMajor(text: bool): nat {
    if text then 3 else 2
  }

  function StringValue(text: bool, data: seq<byte>): Value {
    if text then TextString(data) else ByteString(data)
  }

  function Head(major: nat, w: Width, n: nat): seq<byte>
    requires major < 8 && w.Fits(n)
  {
    [major * 32 + w.Info(n)] + FixedBigEndian(n, w.Octets())
  }

  function OpenHead(major: nat): seq<byte>
    requires major < 8
  {
    [major * 32 + 31]
  }

  const STOP: seq<byte> := [0xff]

  predicate IsText(f: Framed) {
    (f.Str? || f.OpenStr?) && f.text
  }

  predicate WellFormed(f: Framed)
    decreases f, 1
  {
    match f
    case Unsigned(w, n) => w.Fits(n)
    case Negative(w, n) => w.Fits(n)
    case Str(_, w, data) => w.Fits(|data|)
    case OpenStr(_, chunks) => forall c :: c in chunks ==> c.w.Fits(|c.data|)
    case Arr(w, items) => w.Fits(|items|) && |items| < 0x1_0000_0000 && AllWellFormed(items)
    case OpenArr(items) => AllWellFormed(items)
    case Map(w, pairs) => w.Fits(|pairs|) && PairsWellFormed(pairs) && DistinctKeys(pairs)
    case OpenMap(pairs) => PairsWellFormed(pairs) && DistinctKeys(pairs)
    case Tag(w, number, inner) => w.Fits(number) && WellFormed(inner)
    case Simple(_) => true
  }

  predicate AllWellFormed(fs: seq<Framed>)
    decreases fs, 0
  {
    fs == [] || (WellFormed(fs[0]) && AllWellFormed(fs[1..]))
  }

  predicate PairsWellFormed(ps: seq<Pair>)
    decreases ps, 0
  {
    ps == [] || (PairWellFormed(ps[0]) && PairsWellFormed(ps[1..]))
  }

  predicate PairWellFormed(p: Pair)
    decreases p, 2
  {
    IsText(p.key) && WellFormed(p.key) && WellFormed(p.value)
  }

  predicate DistinctKeys(ps: seq<Pair>) {
    forall i, j :: 0 <= i < j < |ps| ==> ValueOf(ps[i].key) != ValueOf(ps[j].key)
  }

  function Enc(f: Framed): seq<byte>
    requires WellFormed(f)
    decreases f, 1
  {
    match f
    case Unsigned(w, n) => Head(0, w, n)
    case Negative(w, n) => Head(1, w, n)
    case Str(text, w, data) => Head(StringMajor(text), w, |data|) + data
    case OpenStr(text, chunks) => OpenHead(StringMajor(text)) + (EncChunks(text, chunks) + STOP)
    case Arr(w, items) => Head(4, w, |items|) + EncAll(items)
    case OpenArr(items) => OpenHead(4) + (EncAll(items) + STOP)
    case Map(w, pairs) => Head(5, w, |pairs|) + EncPairs(pairs)
    case OpenMap(pairs) => OpenHead(5) + (EncPairs(pairs) + STOP)
    case Tag(w, number, inner) => Head(6, w, number) + Enc(inner)
    case Simple(simple) => [SimpleOctet(simple)]
  }

  function SimpleOctet(simple: SimpleValue): byte {
    match simple
    case False => 0xf4
    case True => 0xf5
    case NullValue => 0xf6
    case UndefinedValue => 0xf7
  }

  function EncChunks(text: bool, chunks: seq<Chunk>): seq<byte>
    requires forall c :: c in chunks ==> c.w.Fits(|c.data|)
  {
    if chunks == [] then []
    else
      assert chunks[0] in chunks;
      Head(StringMajor(text), chunks[0].w, |chunks[0].data|) + chunks[0].data + EncChunks(text, chunks[1..])
  }

  function EncAll(fs: seq<Framed>): seq<byte>
    requires AllWellFormed(fs)
    decreases fs, 0
  {
    if fs == [] then [] else Enc(fs[0]) + EncAll(fs[1..])
  }

  function EncPairs(ps: seq<Pair>): seq<byte>
    requires PairsWellFormed(ps)
    decreases ps, 0
  {
    if ps == [] then [] else EncPair(ps[0]) + EncPairs(ps[1..])
  }

  function EncPair(p: Pair): seq<byte>
    requires PairWellFormed(p)
    decreases p, 2
  {
    Enc(p.key) + Enc(p.value)
  }

  function ValueOf(f: Framed): Value
    decreases f, 1
  {
    match f
    case Unsigned(_, n) => Num(n)
    case Negative(_, n) => Num(-1 - n)
    case Str(text, _, data) => StringValue(text, data)
    case OpenStr(text, chunks) => StringValue(text, Join(chunks))
    case Arr(_, items) => List(ValuesOf(items))
    case OpenArr(items) => List(ValuesOf(items))
    case Map(_, pairs) => Dict(EntriesOf(pairs))
    case OpenMap(pairs) => Dict(EntriesOf(pairs))
    case Tag(_, _, inner) => ValueOf(inner)
    case Simple(simple) => SimpleMeaning(simple)
  }

  function SimpleMeaning(simple: SimpleValue): Value {
    match simple
    case False => Bool(false)
    case True => Bool(true)
    case NullValue => Null
    case UndefinedValue => Undefined
  }

  function Join(chunks: seq<Chunk>): seq<byte> {
    if chunks == [] then [] else chunks[0].data + Join(chunks[1..])
  }

  function ValuesOf(fs: seq<Framed>): seq<Value>
    decreases fs, 0
  {
    if fs == [] then [] else [ValueOf(fs[0])] + ValuesOf(fs[1..])
  }

  function EntriesOf(ps: seq<Pair>): seq<Entry>
    decreases ps, 0
  {
    if ps == [] then [] else [EntryOf(ps[0])] + EntriesOf(ps[1..])
  }

  function EntryOf(p: Pair): Entry
    decreases p, 2
  {
    Entry(ValueOf(p.key), ValueOf(p.value))
  }

  // ----- What the decoders share -----

  datatype CborError =
    | Truncated
    | UnsupportedInfo
    | IndefiniteNotAllowed
    | BadChunk
    | UnsafeInteger
    | InvalidArrayLength
    | UnsupportedSimple
    | TrailingBytes
    | KeyNotModelled

  /** Keys a JavaScript Map compares by value; the others it compares by identity. */
  predicate IsPrimitiveKey(v: Value) {
    v.Num? || v.TextString? || v.Bool? || v.Null? || v.Undefined?
  }

  /** Setting a key: in place when it is there, at the end when it is not. */
  function Put(entries: seq<Entry>, key: Value, value: Value): seq<Entry> {
    if entries == [] then [Entry(key, value)]
    else if IsPrimitiveKey(key) && entries[0].key == key then [Entry(key, value)] + entries[1..]
    else [entries[0]] + Put(entries[1..], key, value)
  }

  lemma {:induction false} PutFresh(entries: seq<Entry>, key: Value, value: Value)
    requires forall e :: e in entries ==> e.key != key
    ensures Put(entries, key, value) == entries + [Entry(key, value)]
  {
    if entries != [] {
      assert entries[0] in entries;
      PutFresh(entries[1..], key, value);
    }
  }

  /** The argument whose low five bits are info, and where the item goes on. */
  function ReadArgument(buf: seq<byte>, pos: nat, info: nat): (r: Result<(nat, nat), CborError>)
    ensures r.Ok? ==> pos <= r.value.1
  {
    if info < 24 then Ok((info, pos))
    else if info > 27 then Err(UnsupportedInfo)
    else
      var k := if info == 24 then 1 else if info == 25 then 2 else if info == 26 then 4 else 8;
      if pos + k > |buf| then Err(Truncated) else Ok((BigEndian(buf[pos..pos + k]), pos + k))
  }

  lemma WidthFits(w: Width, n: nat)
    requires w.Fits(n)
    ensures w != W0 ==> n < Pow256(w.Octets())
  {
    Pow256Values();
    assert Pow256(5) == 256 * Pow256(4);
    assert Pow256(6) == 256 * Pow256(5);
    assert Pow256(7) == 256 * Pow256(6);
    assert Pow256(8) == 256 * Pow256(7);
  }

  /** Reading back a head: its major type, its info bits and its argument. */
  lemma HeadReads(buf: seq<byte>, pos: nat, major: nat, w: Width, n: nat)
    requires major < 8 && w.Fits(n) && At(buf, pos, Head(major, w, n))
    ensures pos < |buf| && buf[pos] / 32 == major && buf[pos] % 32 == w.Info(n) <= 27
    ensures ReadArgument(buf, pos + 1, w.Info(n)) == Ok((n, pos + |Head(major, w, n)|))
  {
    var arg := FixedBigEndian(n, w.Octets());
    AtSplit(buf, pos, [major * 32 + w.Info(n)], arg);
    assert buf[pos] == buf[pos..pos + 1][0];
    WidthFits(w, n);
    if w != W0 {
      FixedBigEndianValue(n, w.Octets());
    }
  }

  lemma OctetAt(buf: seq<byte>, pos: nat, b: byte)
    requires At(buf, pos, [b])
    ensures pos < |buf| && buf[pos] == b
  {
    assert buf[pos] == buf[pos..pos + 1][0];
  }

  /** No well-formed encoding starts with the stop code. */
  lemma {:induction false} NoStopInFront(f: Framed)
    requires WellFormed(f)
    ensures Enc(f) != [] && Enc(f)[0] != 0xff && ValueOf(f) != Break
  {
    if f.Tag? {
      NoStopInFront(f.inner);
    }
  }

  lemma SizedAt(buf: seq<byte>, pos: nat, major: nat, w: Width, n: nat, body: seq<byte>)
    requires major < 8 && w.Fits(n) && At(buf, pos, Head(major, w, n) + body)
    ensures pos < |buf| && buf[pos] / 32 == major && buf[pos] % 32 == w.Info(n) <= 27
    ensures ReadArgument(buf, pos + 1, w.Info(n)) == Ok((n, pos + |Head(major, w, n)|))
    ensures At(buf, pos + |Head(major, w, n)|, body)
  {
    AtSplit(buf, pos, Head(major, w, n), body);
    HeadReads(buf, pos, major, w, n);
  }

  lemma OpenAt(buf: seq<byte>, pos: nat, major: nat, body: seq<byte>)
    requires major < 8 && At(buf, pos, OpenHead(major) + (body + STOP))
    ensures pos < |buf| && buf[pos] / 32 == major && buf[pos] % 32 == 31
    ensures At(buf, pos + 1, body + STOP) && At(buf, pos + 1 + |body|, STOP)
    ensures pos + 1 + |body| < |buf| && buf[pos + 1 + |body|] == 0xff
  {
    AtSplit(buf, pos, OpenHead(major), body + STOP);
    AtSplit(buf, pos + 1, body, STOP);
    OctetAt(buf, pos, major * 32 + 31);
    OctetAt(buf, pos + 1 + |body|, 0xff);
  }

  lemma TextValue(f: Framed)
    requires IsText(f)
    ensures ValueOf(f).TextString?
  {
  }

  /** The keys still to come differ from each other and from the ones already there. */
  ghost predicate FreshKeys(entries: seq<Entry>, ps: seq<Pair>) {
    && DistinctKeys(ps)
    && forall e, p :: e in entries && p in ps ==> e.key != ValueOf(p.key)
  }

  lemma NextFreshKey(entries: seq<Entry>, ps: seq<Pair>)
    requires FreshKeys(entries, ps) && ps != []
    ensures Put(entries, ValueOf(ps[0].key), ValueOf(ps[0].value)) == entries + [EntryOf(ps[0])]
    ensures FreshKeys(entries + [EntryOf(ps[0])], ps[1..])
  {
    assert ps[0] in ps;
    PutFresh(entries, ValueOf(ps[0].key), ValueOf(ps[0].value));
    forall p | p in ps[1..]
      ensures p in ps && ValueOf(p.key) != ValueOf(ps[0].key)
    {
      var i :| 0 <= i < |ps[1..]| && ps[1..][i] == p;
      assert ps[i + 1] == p;
    }
  }

  lemma NextValue(arr: seq<Value>, fs: seq<Framed>)
    requires fs != []
    ensures arr + [ValueOf(fs[0])] + ValuesOf(fs[1..]) == arr + ValuesOf(fs)
  {
    assert ValuesOf(fs) == [ValueOf(fs[0])] + ValuesOf(fs[1..]);
  }

  lemma ArrEncoding(w: Width, items: seq<Framed>)
    requires w.Fits(|items|) && |items| < 0x1_0000_0000 && AllWellFormed(items)
    ensures WellFormed(Arr(w, items)) && Enc(Arr(w, items)) == Head(4, w, |items|) + EncAll(items)
  {
    hide EncAll, AllWellFormed, Head;
  }
}
