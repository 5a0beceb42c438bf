/** packages/shared/src/cbor.js: the shared decoder, as it reads and as it loops. */
module CborRead {
  import opened Bytes
  import opened CborGrammar

  type Reading = Result<(Value, nat), CborError>

  /** Octets pos to pos + n of buf, as far as there are any. */
  function Slice(buf: seq<byte>, pos: nat, n: nat): seq<byte> {
    if pos >= |buf| then [] else if pos + n > |buf| then buf[pos..] else buf[pos..pos + n]
  }

  /** One item from offset: its value and the position after it. */
  function Read(buf: seq<byte>, offset: nat): (r: Reading)
    ensures r.Ok? ==> offset < r.value.1 && offset < |buf|
    decreases |buf| - offset, 1
  {
    if offset >= |buf| then Err(Truncated)
    else
      var major, minor := buf[offset] / 32, buf[offset] % 32;
      if minor == 31 then ReadOpen(buf, offset + 1, major)
      else
        var (n, pos) :- ReadArgument(buf, offset + 1, minor);
        ReadSized(buf, pos, major, minor, n)
  }

  function ReadSized(buf: seq<byte>, pos: nat, major: nat, minor: nat, n: nat): (r: Reading)
    requires major < 8
    ensures r.Ok? ==> pos <= r.value.1
    decreases |buf| - pos, 4
  {
    match major
    case 0 => Ok((Num(n), pos))
    case 1 => Ok((Num(-1 - n), pos))
    case 2 => Ok((ByteString(Slice(buf, pos, n)), pos + n))
    case 3 => Ok((TextString(Slice(buf, pos, n)), pos + n))
    case 4 => ReadItems(buf, pos, n, [])
    case 5 => ReadPairs(buf, pos, n, [])
    case 6 => Read(buf, pos)
    case _ =>
      Ok((if minor == 20 then Bool(false) else if minor == 21 then Bool(true)
          else if minor == 23 then Undefined else Null, pos))
  }

  function ReadOpen(buf: seq<byte>, pos: nat, major: nat): (r: Reading)
    ensures r.Ok? ==> pos <= r.value.1
    decreases |buf| - pos, 4
  {
    match major
    case 2 => ReadChunks(buf, pos, false, [])
    case 3 => ReadChunks(buf, pos, true, [])
    case 4 => ReadUntilBreak(buf, pos, [])
    case 5 => ReadPairsUntilBreak(buf, pos, [])
    case 7 => Ok((Break, pos))
    case _ => Err(IndefiniteNotAllowed)
  }

  function ReadItems(buf: seq<byte>, pos: nat, n: nat, arr: seq<Value>): (r: Reading)
    ensures r.Ok? ==> pos <= r.value.1
    decreases |buf| - pos, 2
  {
    if n == 0 then Ok((List(arr), pos))
    else
      var (v, pos') :- Read(buf, pos);
      ReadItems(buf, pos', n - 1, arr + [v])
  }

  function ReadUntilBreak(buf: seq<byte>, pos: nat, arr: seq<Value>): (r: Reading)
    ensures r.Ok? ==> pos <= r.value.1
    decreases |buf| - pos, 2
  {
    var (v, pos') :- Read(buf, pos);
    if v == Break then Ok((List(arr), pos')) else ReadUntilBreak(buf, pos', arr + [v])
  }

  function ReadChunks(buf: seq<byte>, pos: nat, text: bool, data: seq<byte>): (r: Reading)
    ensures r.Ok? ==> pos <= r.value.1
    decreases |buf| - pos, 2
  {
    var (v, pos') :- Read(buf, pos);
    if v == Break then Ok((StringValue(text, data), pos'))
    else if v.ByteString? || v.TextString? then ReadChunks(buf, pos', text, data + v.data)
    else Err(BadChunk)
  }

  /** One pair into the map; a stop code where a key should be adds nothing. */
  function ReadPair(buf: seq<byte>, pos: nat, entries: seq<Entry>): (r: Result<(bool, seq<Entry>, nat), CborError>)
    ensures r.Ok? ==> pos < r.value.2 && pos < |buf|
    decreases |buf| - pos, 2
  {
    var (key, pos1) :- Read(buf, pos);
    if key == Break then Ok((false, entries, pos1))
    else
      var (value, pos2) :- Read(buf, pos1);
      if key.TextString? then Ok((true, Put(entries, key, value), pos2)) else Err(KeyNotModelled)
  }

  function ReadPairs(buf: seq<byte>, pos: nat, n: nat, entries: seq<Entry>): (r: Reading)
    ensures r.Ok? ==> pos <= r.value.1
    decreases |buf| - pos, 3
  {
    if n == 0 then Ok((Dict(entries), pos))
    else
      var (_, entries', pos') :- ReadPair(buf, pos, entries);
      ReadPairs(buf, pos', n - 1, entries')
  }

  function ReadPairsUntilBreak(buf: seq<byte>, pos: nat, entries: seq<Entry>): (r: Reading)
    ensures r.Ok? ==> pos <= r.value.1
    decreases |buf| - pos, 3
  {
    var (more, entries', pos') :- ReadPair(buf, pos, entries);
    if more then ReadPairsUntilBreak(buf, pos', entries') else Ok((Dict(entries'), pos'))
  }

  // ----- The decoder as it runs -----

  method ReadUint(buf: seq<byte>, start: nat, n: nat) returns (r: Result<(nat, nat), CborError>)
    ensures r == if start + n > |buf| then Err(Truncated) else Ok((BigEndian(buf[start..start + n]), start + n))
  {
    var value: nat := 0;
    for i := 0 to n
      invariant i > 0 ==> start + i <= |buf|
      invariant i > 0 ==> value == BigEndian(buf[start..start + i])
      invariant i == 0 ==> value == 0
    {
      if start + i >= |buf| {
        return Err(Truncated);
      }
      assert buf[start..start + i + 1][..i] == buf[start..start + i];
      value := value * 256 + buf[start + i];
    }
    return if start + n > |buf| then Err(Truncated) else Ok((value, start + n));
  }

  method CborRead(buf: seq<byte>, offset: nat) returns (r: Reading)
    ensures r == Read(buf, offset)
    decreases |buf| - offset, 1
  {
    if offset >= |buf| {
      return Err(Truncated);
    }
    var major, minor := buf[offset] / 32, buf[offset] % 32;
    if minor == 31 {
      r := CborReadOpen(buf, offset + 1, major);
      return;
    }
    var n, pos := minor, offset + 1;
    if minor >= 24 {
      if minor > 27 {
        return Err(UnsupportedInfo);
      }
      var octets := if minor == 24 then 1 else if minor == 25 then 2 else if minor == 26 then 4 else 8;
      var argument := ReadUint(buf, pos, octets);
      if argument.Err? {
        return Err(argument.error);
      }
      n, pos := argument.value.0, argument.value.1;
    }
    match major {
      case 4 => r := CborReadItems(buf, pos, n);
      case 5 => r := CborReadPairs(buf, pos, n);
      case 6 => r := CborRead(buf, pos);
      case _ => r := ReadSized(buf, pos, major, minor, n);
    }
  }

  method CborReadOpen(buf: seq<byte>, pos: nat, major: nat) returns (r: Reading)
    requires major < 8
    ensures r == ReadOpen(buf, pos, major)
    decreases |buf| - pos, 4
  {
    match major {
      case 2 => r := CborReadChunks(buf, pos, false);
      case 3 => r := CborReadChunks(buf, pos, true);
      case 4 => r := CborReadUntilBreak(buf, pos);
      case 5 => r := CborReadPairsUntilBreak(buf, pos);
      case 7 => r := Ok((Break, pos));
      case _ => r := Err(IndefiniteNotAllowed);
    }
  }

  method CborReadItems(buf: seq<byte>, start: nat, n: nat) returns (r: Reading)
    ensures r == ReadItems(buf, start, n, [])
    decreases |buf| - start, 2
  {
    var arr, pos: nat := [], start;
    for i := 0 to n
      invariant pos == start || start < |buf|
      invariant start <= pos
      invariant ReadItems(buf, pos, n - i, arr) == ReadItems(buf, start, n, [])
    {
      var item := CborRead(buf, pos);
      if item.Err? {
        return item;
      }
      arr := arr + [item.value.0];
      pos := item.value.1;
    }
    return Ok((List(arr), pos));
  }

  method CborReadUntilBreak(buf: seq<byte>, start: nat) returns (r: Reading)
    ensures r == ReadUntilBreak(buf, start, [])
    decreases |buf| - start, 2
  {
    var arr, pos: nat := [], start;
    while true
      invariant pos == start || start < |buf|
      invariant start <= pos
      invariant ReadUntilBreak(buf, pos, arr) == ReadUntilBreak(buf, start, [])
      decreases |buf| - pos
    {
      var item := CborRead(buf, pos);
      if item.Err? {
        return item;
      }
      pos := item.value.1;
      if item.value.0 == Break {
        return Ok((List(arr), pos));
      }
      arr := arr + [item.value.0];
    }
  }

  method CborReadChunks(buf: seq<byte>, start: nat, text: bool) returns (r: Reading)
    ensures r == ReadChunks(buf, start, text, [])
    decreases |buf| - start, 2
  {
    var joined: seq<byte>, pos: nat := [], start;
    while true
      invariant pos == start || start < |buf|
      invariant start <= pos
      invariant ReadChunks(buf, pos, text, joined) == ReadChunks(buf, start, text, [])
      decreases |buf| - pos
    {
      var item := CborRead(buf, pos);
      if item.Err? {
        return item;
      }
      pos := item.value.1;
      var chunk := item.value.0;
      if chunk == Break {
        return Ok((StringValue(text, joined), pos));
      }
      if !chunk.ByteString? && !chunk.TextString? {
        return Err(BadChunk);
      }
      joined := joined + chunk.data;
    }
  }

  method AddPair(buf: seq<byte>, pos: nat, entries: seq<Entry>) returns (r: Result<(bool, seq<Entry>, nat), CborError>)
    ensures r == ReadPair(buf, pos, entries)
    decreases |buf| - pos, 2
  {
    var key := CborRead(buf, pos);
    if key.Err? {
      return Err(key.error);
    }
    if key.value.0 == Break {
      return Ok((false, entries, key.value.1));
    }
    var value := CborRead(buf, key.value.1);
    if value.Err? {
      return Err(value.error);
    }
    if !key.value.0.TextString? {
      return Err(KeyNotModelled);
    }
    return Ok((true, Put(entries, key.value.0, value.value.0), value.value.1));
  }

  method CborReadPairs(buf: seq<byte>, start: nat, n: nat) returns (r: Reading)
    ensures r == ReadPairs(buf, start, n, [])
    decreases |buf| - start, 3
  {
    var entries: seq<Entry>, pos: nat := [], start;
    for i := 0 to n
      invariant pos == start || start < |buf|
      invariant start <= pos
      invariant ReadPairs(buf, pos, n - i, entries) == ReadPairs(buf, start, n, [])
    {
      var pair := AddPair(buf, pos, entries);
      if pair.Err? {
        return Err(pair.error);
      }
      entries, pos := pair.value.1, pair.value.2;
    }
    return Ok((Dict(entries), pos));
  }

  method CborReadPairsUntilBreak(buf: seq<byte>, start: nat) returns (r: Reading)
    ensures r == ReadPairsUntilBreak(buf, start, [])
    decreases |buf| - start, 3
  {
    var entries: seq<Entry>, pos: nat := [], start;
    while true
      invariant pos == start || start < |buf|
      invariant start <= pos
      invariant ReadPairsUntilBreak(buf, pos, entries) == ReadPairsUntilBreak(buf, start, [])
      decreases |buf| - pos
    {
      var pair := AddPair(buf, pos, entries);
      if pair.Err? {
        return Err(pair.error);
      }
      entries, pos := pair.value.1, pair.value.2;
      if !pair.value.0 {
        return Ok((Dict(entries), pos));
      }
    }
  }

  // ----- Every encoding is read back -----

  // The functions above unfold into each other; each lemma below hides those it does not look into.

  /** A sized head leads to the reader of its major type. */
  lemma SizedReads(buf: seq<byte>, pos: nat, major: nat, w: Width, n: nat, body: seq<byte>)
    requires major < 8 && w.Fits(n) && At(buf, pos, Head(major, w, n) + body)
    ensures Read(buf, pos) == ReadSized(buf, pos + |Head(major, w, n)|, major, w.Info(n), n)
    ensures At(buf, pos + |Head(major, w, n)|, body)
  {
    hide ReadSized, ReadOpen;
    SizedAt(buf, pos, major, w, n, body);
  }

  lemma OpenReads(buf: seq<byte>, pos: nat, major: nat, body: seq<byte>)
    requires major < 8 && At(buf, pos, OpenHead(major) + (body + STOP))
    ensures Read(buf, pos) == ReadOpen(buf, pos + 1, major)
    ensures At(buf, pos + 1, body + STOP)
  {
    hide ReadSized, ReadOpen;
    OpenAt(buf, pos, major, body);
  }

  lemma SizedCases(buf: seq<byte>, pos: nat, minor: nat, n: nat)
    ensures ReadSized(buf, pos, 0, minor, n) == Ok((Num(n), pos))
    ensures ReadSized(buf, pos, 1, minor, n) == Ok((Num(-1 - n), pos))
    ensures ReadSized(buf, pos, 2, minor, n) == Ok((ByteString(Slice(buf, pos, n)), pos + n))
    ensures ReadSized(buf, pos, 3, minor, n) == Ok((TextString(Slice(buf, pos, n)), pos + n))
    ensures ReadSized(buf, pos, 4, minor, n) == ReadItems(buf, pos, n, [])
    ensures ReadSized(buf, pos, 5, minor, n) == ReadPairs(buf, pos, n, [])
    ensures ReadSized(buf, pos, 6, minor, n) == Read(buf, pos)
  {
    hide Read, ReadOpen, ReadItems, ReadPairs;
  }

  lemma OpenCases(buf: seq<byte>, pos: nat)
    ensures ReadOpen(buf, pos, 2) == ReadChunks(buf, pos, false, [])
    ensures ReadOpen(buf, pos, 3) == ReadChunks(buf, pos, true, [])
    ensures ReadOpen(buf, pos, 4) == ReadUntilBreak(buf, pos, [])
    ensures ReadOpen(buf, pos, 5) == ReadPairsUntilBreak(buf, pos, [])
    ensures ReadOpen(buf, pos, 7) == Ok((Break, pos))
  {
    hide Read, ReadChunks, ReadUntilBreak, ReadPairsUntilBreak;
  }

  /** Wherever an encoding stands, whatever surrounds it, reading there yields its value and consumes just it. */
  lemma {:induction false} ReadComplete(buf: seq<byte>, pos: nat, f: Framed)
    requires WellFormed(f) && At(buf, pos, Enc(f))
    ensures Read(buf, pos) == Ok((ValueOf(f), pos + |Enc(f)|))
    decreases f, 3
  {
    hide EncAll, EncPairs, EncChunks, ValuesOf, EntriesOf, Join, AllWellFormed, PairsWellFormed, At, Read, ReadSized;
    hide ReadOpen, ReadItems, ReadUntilBreak, ReadChunks, ReadPair, ReadPairs, ReadPairsUntilBreak;
    match f
    case Unsigned(w, n) => NumberComplete(buf, pos, 0, w, n);
    case Negative(w, n) => NumberComplete(buf, pos, 1, w, n);
    case Str(text, w, data) => StrComplete(buf, pos, text, w, data);
    case OpenStr(text, chunks) => OpenStrComplete(buf, pos, text, chunks);
    case Arr(w, items) => ArrComplete(buf, pos, w, items);
    case OpenArr(items) => OpenArrComplete(buf, pos, items);
    case Map(w, pairs) => MapComplete(buf, pos, w, pairs);
    case OpenMap(pairs) => OpenMapComplete(buf, pos, pairs);
    case Tag(w, number, inner) =>
      SizedReads(buf, pos, 6, w, number, Enc(inner));
      SizedCases(buf, pos + |Head(6, w, number)|, w.Info(number), number);
      ReadComplete(buf, pos + |Head(6, w, number)|, inner);
    case Simple(simple) => SimpleComplete(buf, pos, simple);
  }

  lemma NumberComplete(buf: seq<byte>, pos: nat, major: nat, w: Width, n: nat)
    requires major < 2 && w.Fits(n) && At(buf, pos, Head(major, w, n))
    ensures Read(buf, pos) == Ok((if major == 0 then Num(n) else Num(-1 - n), pos + |Head(major, w, n)|))
  {
    hide Read, ReadSized, ReadOpen, ReadItems, ReadUntilBreak, ReadChunks, ReadPair, ReadPairs, ReadPairsUntilBreak;
    assert Head(major, w, n) + [] == Head(major, w, n);
    SizedReads(buf, pos, major, w, n, []);
    SizedCases(buf, pos + |Head(major, w, n)|, w.Info(n), n);
  }

  lemma SimpleComplete(buf: seq<byte>, pos: nat, simple: SimpleValue)
    requires At(buf, pos, [SimpleOctet(simple)])
    ensures Read(buf, pos) == Ok((SimpleMeaning(simple), pos + 1))
  {
    hide ReadOpen, ReadItems, ReadPairs;
    OctetAt(buf, pos, SimpleOctet(simple));
  }

  lemma StrComplete(buf: seq<byte>, pos: nat, text: bool, w: Width, data: seq<byte>)
    requires w.Fits(|data|) && At(buf, pos, Head(StringMajor(text), w, |data|) + data)
    ensures Read(buf, pos) == Ok((StringValue(text, data), pos + |Head(StringMajor(text), w, |data|)| + |data|))
  {
    hide Read, ReadSized, ReadOpen, ReadItems, ReadUntilBreak, ReadChunks, ReadPair, ReadPairs, ReadPairsUntilBreak;
    SizedReads(buf, pos, StringMajor(text), w, |data|, data);
    SizedCases(buf, pos + |Head(StringMajor(text), w, |data|)|, w.Info(|data|), |data|);
  }

  lemma OpenStrComplete(buf: seq<byte>, pos: nat, text: bool, chunks: seq<Chunk>)
    requires (forall c :: c in chunks ==> c.w.Fits(|c.data|))
    requires At(buf, pos, OpenHead(StringMajor(text)) + (EncChunks(text, chunks) + STOP))
    ensures Read(buf, pos) == Ok((StringValue(text, Join(chunks)), pos + |EncChunks(text, chunks)| + 2))
  {
    hide Read, ReadSized, ReadOpen, ReadItems, ReadUntilBreak, ReadChunks, ReadPair, ReadPairs, ReadPairsUntilBreak;
    OpenReads(buf, pos, StringMajor(text), EncChunks(text, chunks));
    OpenCases(buf, pos + 1);
    ChunksComplete(buf, pos + 1, text, chunks, []);
    assert [] + Join(chunks) == Join(chunks);
  }

  lemma {:induction false} ArrComplete(buf: seq<byte>, pos: nat, w: Width, items: seq<Framed>)
    requires w.Fits(|items|) && AllWellFormed(items) && At(buf, pos, Head(4, w, |items|) + EncAll(items))
    ensures Read(buf, pos) == Ok((List(ValuesOf(items)), pos + |Head(4, w, |items|)| + |EncAll(items)|))
    decreases items, 1
  {
    hide Read, ReadSized, ReadOpen, ReadItems, ReadUntilBreak, ReadChunks, ReadPair, ReadPairs, ReadPairsUntilBreak;
    var pos' := pos + |Head(4, w, |items|)|;
    SizedReads(buf, pos, 4, w, |items|, EncAll(items));
    SizedCases(buf, pos', w.Info(|items|), |items|);
    ItemsComplete(buf, pos', items, []);
    assert [] + ValuesOf(items) == ValuesOf(items);
  }

  lemma {:induction false} OpenArrComplete(buf: seq<byte>, pos: nat, items: seq<Framed>)
    requires AllWellFormed(items) && At(buf, pos, OpenHead(4) + (EncAll(items) + STOP))
    ensures Read(buf, pos) == Ok((List(ValuesOf(items)), pos + |EncAll(items)| + 2))
    decreases items, 1
  {
    hide Read, ReadSized, ReadOpen, ReadItems, ReadUntilBreak, ReadChunks, ReadPair, ReadPairs, ReadPairsUntilBreak;
    OpenReads(buf, pos, 4, EncAll(items));
    OpenCases(buf, pos + 1);
    UntilBreakComplete(buf, pos + 1, items, []);
    assert [] + ValuesOf(items) == ValuesOf(items);
  }

  lemma {:induction false} MapComplete(buf: seq<byte>, pos: nat, w: Width, pairs: seq<Pair>)
    requires w.Fits(|pairs|) && PairsWellFormed(pairs) && DistinctKeys(pairs)
    requires At(buf, pos, Head(5, w, |pairs|) + EncPairs(pairs))
    ensures Read(buf, pos) == Ok((Dict(EntriesOf(pairs)), pos + |Head(5, w, |pairs|)| + |EncPairs(pairs)|))
    decreases pairs, 1
  {
    hide Read, ReadSized, ReadOpen, ReadItems, ReadUntilBreak, ReadChunks, ReadPair, ReadPairs, ReadPairsUntilBreak;
    var pos' := pos + |Head(5, w, |pairs|)|;
    SizedReads(buf, pos, 5, w, |pairs|, EncPairs(pairs));
    SizedCases(buf, pos', w.Info(|pairs|), |pairs|);
    PairsComplete(buf, pos', pairs, []);
    assert [] + EntriesOf(pairs) == EntriesOf(pairs);
  }

  lemma {:induction false} OpenMapComplete(buf: seq<byte>, pos: nat, pairs: seq<Pair>)
    requires PairsWellFormed(pairs) && DistinctKeys(pairs) && At(buf, pos, OpenHead(5) + (EncPairs(pairs) + STOP))
    ensures Read(buf, pos) == Ok((Dict(EntriesOf(pairs)), pos + |EncPairs(pairs)| + 2))
    decreases pairs, 1
  {
    hide Read, ReadSized, ReadOpen, ReadItems, ReadUntilBreak, ReadChunks, ReadPair, ReadPairs, ReadPairsUntilBreak;
    OpenReads(buf, pos, 5, EncPairs(pairs));
    OpenCases(buf, pos + 1);
    PairsUntilBreakComplete(buf, pos + 1, pairs, []);
    assert [] + EntriesOf(pairs) == EntriesOf(pairs);
  }

  lemma ReadStop(buf: seq<byte>, pos: nat, entries: seq<Entry>)
    requires At(buf, pos, STOP)
    ensures Read(buf, pos) == Ok((Break, pos + 1))
    ensures ReadPair(buf, pos, entries) == Ok((false, entries, pos + 1))
  {
    hide ReadSized, ReadChunks, ReadUntilBreak, ReadPairsUntilBreak;
    OctetAt(buf, pos, 0xff);
  }

  lemma {:induction false} ItemsComplete(buf: seq<byte>, pos: nat, fs: seq<Framed>, arr: seq<Value>)
    requires AllWellFormed(fs) && At(buf, pos, EncAll(fs))
    ensures ReadItems(buf, pos, |fs|, arr) == Ok((List(arr + ValuesOf(fs)), pos + |EncAll(fs)|))
    decreases fs, 0
  {
    hide At, Enc, WellFormed, ValueOf, Read, ReadSized, ReadOpen, ReadUntilBreak, ReadChunks, ReadPair, ReadPairs;
    hide ReadPairsUntilBreak;
    if fs == [] {
      assert arr + [] == arr;
    } else {
      AtSplit(buf, pos, Enc(fs[0]), EncAll(fs[1..]));
      ReadComplete(buf, pos, fs[0]);
      ItemsComplete(buf, pos + |Enc(fs[0])|, fs[1..], arr + [ValueOf(fs[0])]);
      NextValue(arr, fs);
    }
  }

  lemma {:induction false} UntilBreakComplete(buf: seq<byte>, pos: nat, fs: seq<Framed>, arr: seq<Value>)
    requires AllWellFormed(fs) && At(buf, pos, EncAll(fs) + STOP)
    ensures ReadUntilBreak(buf, pos, arr) == Ok((List(arr + ValuesOf(fs)), pos + |EncAll(fs)| + 1))
    decreases fs, 0
  {
    hide At, Enc, WellFormed, ValueOf, Read, ReadSized, ReadOpen, ReadItems, ReadChunks, ReadPair, ReadPairs;
    hide ReadPairsUntilBreak;
    if fs == [] {
      assert EncAll(fs) + STOP == STOP;
      ReadStop(buf, pos, []);
      assert arr + [] == arr;
    } else {
      FirstOf(buf, pos, Enc(fs[0]), EncAll(fs[1..]));
      ReadComplete(buf, pos, fs[0]);
      NoStopInFront(fs[0]);
      UntilBreakComplete(buf, pos + |Enc(fs[0])|, fs[1..], arr + [ValueOf(fs[0])]);
      NextValue(arr, fs);
    }
  }

  lemma FirstOf(buf: seq<byte>, pos: nat, first: seq<byte>, others: seq<byte>)
    requires At(buf, pos, first + others + STOP)
    ensures At(buf, pos, first) && At(buf, pos + |first|, others + STOP)
  {
    assert first + others + STOP == first + (others + STOP);
    AtSplit(buf, pos, first, others + STOP);
  }

  lemma {:induction false} ChunksComplete(buf: seq<byte>, pos: nat, text: bool, chunks: seq<Chunk>, data: seq<byte>)
    requires (forall c :: c in chunks ==> c.w.Fits(|c.data|)) && At(buf, pos, EncChunks(text, chunks) + STOP)
    ensures ReadChunks(buf, pos, text, data) ==
            Ok((StringValue(text, data + Join(chunks)), pos + |EncChunks(text, chunks)| + 1))
    decreases chunks
  {
    hide At, Read, ReadSized, ReadOpen, ReadItems, ReadUntilBreak, ReadPair, ReadPairs, ReadPairsUntilBreak;
    if chunks == [] {
      assert EncChunks(text, chunks) + STOP == STOP;
      ReadStop(buf, pos, []);
      assert data + [] == data;
    } else {
      assert chunks[0] in chunks;
      var c := chunks[0];
      var first := Head(StringMajor(text), c.w, |c.data|) + c.data;
      FirstOf(buf, pos, first, EncChunks(text, chunks[1..]));
      StrComplete(buf, pos, text, c.w, c.data);
      ChunksComplete(buf, pos + |first|, text, chunks[1..], data + c.data);
      ChunksStep(buf, pos, text, data, c.data, pos + |first|);
      assert data + c.data + Join(chunks[1..]) == data + Join(chunks);
    }
  }

  lemma ChunksStep(buf: seq<byte>, pos: nat, text: bool, data: seq<byte>, chunk: seq<byte>, pos': nat)
    requires Read(buf, pos) == Ok((StringValue(text, chunk), pos'))
    ensures ReadChunks(buf, pos, text, data) == ReadChunks(buf, pos', text, data + chunk)
  {
  }

  /** One more pair of a map, read and added. */
  lemma {:induction false} PairComplete(buf: seq<byte>, pos: nat, ps: seq<Pair>, entries: seq<Entry>)
    requires PairsWellFormed(ps) && ps != [] && FreshKeys(entries, ps) && At(buf, pos, EncPair(ps[0]))
    ensures ReadPair(buf, pos, entries) == Ok((true, entries + [EntryOf(ps[0])], pos + |EncPair(ps[0])|))
    ensures FreshKeys(entries + [EntryOf(ps[0])], ps[1..])
    ensures entries + [EntryOf(ps[0])] + EntriesOf(ps[1..]) == entries + EntriesOf(ps)
    decreases ps, 0, 0
  {
    hide At, FreshKeys, DistinctKeys, Put, Enc, WellFormed, ValueOf, Read, ReadSized, ReadOpen, ReadItems;
    hide ReadUntilBreak, ReadChunks, ReadPair, ReadPairs, ReadPairsUntilBreak;
    var p := ps[0];
    NextFreshKey(entries, ps);
    PairReads(buf, pos, p, entries);
  }

  lemma {:induction false} PairReads(buf: seq<byte>, pos: nat, p: Pair, entries: seq<Entry>)
    requires PairWellFormed(p) && At(buf, pos, EncPair(p))
    ensures ReadPair(buf, pos, entries) ==
            Ok((true, Put(entries, ValueOf(p.key), ValueOf(p.value)), pos + |EncPair(p)|))
    decreases p, 4
  {
    hide At, Enc, WellFormed, ValueOf, Put, Read, ReadSized, ReadOpen, ReadItems, ReadUntilBreak, ReadChunks;
    hide ReadPairs, ReadPairsUntilBreak;
    AtSplit(buf, pos, Enc(p.key), Enc(p.value));
    ReadComplete(buf, pos, p.key);
    ReadComplete(buf, pos + |Enc(p.key)|, p.value);
    TextValue(p.key);
  }

  lemma {:induction false} PairsComplete(buf: seq<byte>, pos: nat, ps: seq<Pair>, entries: seq<Entry>)
    requires PairsWellFormed(ps) && FreshKeys(entries, ps) && At(buf, pos, EncPairs(ps))
    ensures ReadPairs(buf, pos, |ps|, entries) == Ok((Dict(entries + EntriesOf(ps)), pos + |EncPairs(ps)|))
    decreases ps, 0, 1
  {
    hide At, FreshKeys, DistinctKeys, Put, Enc, WellFormed, ValueOf, Read, ReadSized, ReadOpen, ReadItems;
    hide ReadUntilBreak, ReadChunks, ReadPair, ReadPairsUntilBreak;
    if ps == [] {
      assert entries + [] == entries;
    } else {
      AtSplit(buf, pos, EncPair(ps[0]), EncPairs(ps[1..]));
      PairComplete(buf, pos, ps, entries);
      PairsComplete(buf, pos + |EncPair(ps[0])|, ps[1..], entries + [EntryOf(ps[0])]);
    }
  }

  lemma {:induction false} PairsUntilBreakComplete(buf: seq<byte>, pos: nat, ps: seq<Pair>, entries: seq<Entry>)
    requires PairsWellFormed(ps) && FreshKeys(entries, ps) && At(buf, pos, EncPairs(ps) + STOP)
    ensures ReadPairsUntilBreak(buf, pos, entries) == Ok((Dict(entries + EntriesOf(ps)), pos + |EncPairs(ps)| + 1))
    decreases ps, 0, 1
  {
    hide At, FreshKeys, DistinctKeys, Put, Enc, WellFormed, ValueOf, Read, ReadSized, ReadOpen, ReadItems;
    hide ReadUntilBreak, ReadChunks, ReadPair, ReadPairs;
    if ps == [] {
      assert EncPairs(ps) + STOP == STOP;
      ReadStop(buf, pos, entries);
      assert entries + [] == entries;
    } else {
      FirstOf(buf, pos, EncPair(ps[0]), EncPairs(ps[1..]));
      PairComplete(buf, pos, ps, entries);
      PairsUntilBreakComplete(buf, pos + |EncPair(ps[0])|, ps[1..], entries + [EntryOf(ps[0])]);
    }
  }
}
