/** apps/web/lib/nitro-attestation.ts, class CborDecoder: the web application's own decoder. */
module CborDecoding {
  import opened Bytes
  import opened CborGrammar

  type Reading = Result<(Value, nat), CborError>

  const MAX_ARRAY_LENGTH := 0x1_0000_0000

  /** readUint: like ReadArgument, but an eight-octet argument must be a safe integer. */
  function ReadSafe(buf: seq<byte>, pos: nat, info: nat): (r: Result<(nat, nat), CborError>)
    requires pos <= |buf|
    ensures r.Ok? ==> pos <= r.value.1 <= |buf|
  {
    var (n, pos') :- ReadArgument(buf, pos, info);
    if info == 27 && n >= 0x20_0000_0000_0000 then Err(UnsafeInteger)
    else if pos' > |buf| then Err(Truncated)
    else Ok((n, pos'))
  }

  /** One item from pos: its value and the position after it. */
  function Decode(buf: seq<byte>, pos: nat): (r: Reading)
    requires pos <= |buf|
    ensures r.Ok? ==> pos < r.value.1 <= |buf|
    decreases |buf| - pos, 1
  {
    if pos == |buf| then Err(Truncated)
    else
      var major, info := buf[pos] / 32, buf[pos] % 32;
      if major == 7 then DecodeSimple(buf, pos + 1, info)
      else if 2 <= major <= 5 && info == 31 then DecodeOpen(buf, pos + 1, major)
      else
        var (n, pos') :- ReadSafe(buf, pos + 1, info);
        DecodeSized(buf, pos', major, n)
  }

  function DecodeSimple(buf: seq<byte>, pos: nat, info: nat): (r: Reading)
    requires pos <= |buf|
    ensures r.Ok? ==> pos <= r.value.1 <= |buf|
  {
    match info
    case 20 => Ok((Bool(false), pos))
    case 21 => Ok((Bool(true), pos))
    case 22 => Ok((Null, pos))
    case 23 => Ok((Undefined, pos))
    case _ =>
      if info < 25 || info > 27 then Err(UnsupportedSimple)
      else
        var k := if info == 25 then 2 else if info == 26 then 4 else 8;
        if pos + k > |buf| then Err(Truncated) else Ok((Float(buf[pos..pos + k]), pos + k))
  }

  function DecodeSized(buf: seq<byte>, pos: nat, major: nat, n: nat): (r: Reading)
    requires pos <= |buf| && major < 7
    ensures r.Ok? ==> pos <= r.value.1 <= |buf|
    decreases |buf| - pos, 4
  {
    match major
    case 0 => Ok((Num(n), pos))
    case 1 => Ok((Num(-1 - n), pos))
    case 2 => if pos + n > |buf| then Err(Truncated) else Ok((ByteString(buf[pos..pos + n]), pos + n))
    case 3 => if pos + n > |buf| then Err(Truncated) else Ok((TextString(buf[pos..pos + n]), pos + n))
    case 4 => if n >= MAX_ARRAY_LENGTH then Err(InvalidArrayLength) else DecodeItems(buf, pos, n, [])
    case 5 => DecodePairs(buf, pos, n, [])
    case _ => Decode(buf, pos)
  }

  function DecodeOpen(buf: seq<byte>, pos: nat, major: nat): (r: Reading)
    requires pos <= |buf| && 2 <= major <= 5
    ensures r.Ok? ==> pos <= r.value.1 <= |buf|
    decreases |buf| - pos, 4
  {
    match major
    case 2 => DecodeChunks(buf, pos, false, [])
    case 3 => DecodeChunks(buf, pos, true, [])
    case 4 => DecodeUntilStop(buf, pos, [])
    case _ => DecodePairsUntilStop(buf, pos, [])
  }

  function DecodeItems(buf: seq<byte>, pos: nat, n: nat, arr: seq<Value>): (r: Reading)
    requires pos <= |buf|
    ensures r.Ok? ==> pos <= r.value.1 <= |buf|
    decreases |buf| - pos, 2
  {
    if n == 0 then Ok((List(arr), pos))
    else
      var (v, pos') :- Decode(buf, pos);
      DecodeItems(buf, pos', n - 1, arr + [v])
  }

  function DecodeUntilStop(buf: seq<byte>, pos: nat, arr: seq<Value>): (r: Reading)
    requires pos <= |buf|
    ensures r.Ok? ==> pos <= r.value.1 <= |buf|
    decreases |buf| - pos, 2
  {
    if pos == |buf| then Err(Truncated)
    else if buf[pos] == 0xff then Ok((List(arr), pos + 1))
    else
      var (v, pos') :- Decode(buf, pos);
      DecodeUntilStop(buf, pos', arr + [v])
  }

  function DecodeChunks(buf: seq<byte>, pos: nat, text: bool, data: seq<byte>): (r: Reading)
    requires pos <= |buf|
    ensures r.Ok? ==> pos <= r.value.1 <= |buf|
    decreases |buf| - pos, 2
  {
    if pos == |buf| then Err(Truncated)
    else if buf[pos] == 0xff then Ok((StringValue(text, data), pos + 1))
    else
      var (v, pos') :- Decode(buf, pos);
      if (text && v.TextString?) || (!text && v.ByteString?) then DecodeChunks(buf, pos', text, data + v.data)
      else Err(BadChunk)
  }

  function DecodePair(buf: seq<byte>, pos: nat, entries: seq<Entry>): (r: Result<(seq<Entry>, nat), CborError>)
    requires pos <= |buf|
    ensures r.Ok? ==> pos < r.value.1 <= |buf|
    decreases |buf| - pos, 2
  {
    var (key, pos1) :- Decode(buf, pos);
    var (value, pos2) :- Decode(buf, pos1);
    Ok((Put(entries, key, value), pos2))
  }

  function DecodePairs(buf: seq<byte>, pos: nat, n: nat, entries: seq<Entry>): (r: Reading)
    requires pos <= |buf|
    ensures r.Ok? ==> pos <= r.value.1 <= |buf|
    decreases |buf| - pos, 3
  {
    if n == 0 then Ok((Dict(entries), pos))
    else
      var (entries', pos') :- DecodePair(buf, pos, entries);
      DecodePairs(buf, pos', n - 1, entries')
  }

  function DecodePairsUntilStop(buf: seq<byte>, pos: nat, entries: seq<Entry>): (r: Reading)
    requires pos <= |buf|
    ensures r.Ok? ==> pos <= r.value.1 <= |buf|
    decreases |buf| - pos, 3
  {
    if pos == |buf| then Err(Truncated)
    else if buf[pos] == 0xff then Ok((Dict(entries), pos + 1))
    else
      var (entries', pos') :- DecodePair(buf, pos, entries);
      DecodePairsUntilStop(buf, pos', entries')
  }

  /** The whole buffer as one item. */
  function DecodeWhole(buf: seq<byte>): Result<Value, CborError> {
    var (v, pos) :- Decode(buf, 0);
    if pos == |buf| then Ok(v) else Err(TrailingBytes)
  }

  // ----- The decoder as it runs -----

  class CborDecoder {
    const buf: seq<byte>
    var pos: nat

    constructor (buf: seq<byte>)
      ensures this.buf == buf && pos == 0
    {
      this.buf := buf;
      pos := 0;
    }

    static method DecodeFirst(buf: seq<byte>) returns (r: Result<Value, CborError>)
      ensures r == DecodeWhole(buf)
    {
      var dec := new CborDecoder(buf);
      var value := dec.ReadValue();
      if value.Err? {
        return value;
      }
      return if dec.pos != |buf| then Err(TrailingBytes) else value;
    }

    method ReadUint(info: nat) returns (r: Result<nat, CborError>)
      requires pos <= |buf|
      modifies this`pos
      ensures Agrees1(old(pos), ReadSafe(buf, old(pos), info), r)
    {
      if info < 24 {
        return Ok(info);
      }
      if info > 27 {
        return Err(UnsupportedInfo);
      }
      var k := if info == 24 then 1 else if info == 25 then 2 else if info == 26 then 4 else 8;
      if pos + k > |buf| {
        return Err(Truncated);
      }
      var v := ReadBigEndian(buf[pos..pos + k]);
      pos := pos + k;
      if info == 27 && v >= 0x20_0000_0000_0000 {
        return Err(UnsafeInteger);
      }
      return Ok(v);
    }

    /** The outcome and the position both are what the reading says; after an error the position is of no use. */
    ghost predicate Agrees(reading: Reading, r: Result<Value, CborError>)
      reads this
    {
      match reading
      case Err(e) => r == Err(e)
      case Ok((v, pos')) => r == Ok(v) && pos == pos'
    }

    ghost predicate Agrees1(start: nat, reading: Result<(nat, nat), CborError>, r: Result<nat, CborError>)
      reads this
    {
      match reading
      case Err(e) => r == Err(e)
      case Ok((n, pos')) => r == Ok(n) && start <= pos == pos'
    }

    method ReadValue() returns (r: Result<Value, CborError>)
      requires pos <= |buf|
      modifies this`pos
      ensures Agrees(Decode(buf, old(pos)), r)
      decreases |buf| - pos, 1
    {
      if pos == |buf| {
        return Err(Truncated);
      }
      var initial := buf[pos];
      pos := pos + 1;
      var major, info := initial / 32, initial % 32;
      if major == 7 {
        r := ReadSimple(info);
        return;
      }
      if 2 <= major <= 5 && info == 31 {
        r := ReadOpenValue(major);
        return;
      }
      var argument := ReadUint(info);
      if argument.Err? {
        return Err(argument.error);
      }
      r := ReadSizedValue(major, argument.value);
    }

    method ReadSimple(info: nat) returns (r: Result<Value, CborError>)
      requires pos <= |buf|
      modifies this`pos
      ensures Agrees(DecodeSimple(buf, old(pos), info), r)
    {
      match info {
        case 20 => return Ok(Bool(false));
        case 21 => return Ok(Bool(true));
        case 22 => return Ok(Null);
        case 23 => return Ok(Undefined);
        case _ =>
      }
      if info < 25 || info > 27 {
        return Err(UnsupportedSimple);
      }
      var k := if info == 25 then 2 else if info == 26 then 4 else 8;
      if pos + k > |buf| {
        return Err(Truncated);
      }
      r := Ok(Float(buf[pos..pos + k]));
      pos := pos + k;
    }

    method ReadSizedValue(major: nat, n: nat) returns (r: Result<Value, CborError>)
      requires pos <= |buf| && major < 7
      modifies this`pos
      ensures Agrees(DecodeSized(buf, old(pos), major, n), r)
      decreases |buf| - pos, 4
    {
      match major {
        case 0 => return Ok(Num(n));
        case 1 => return Ok(Num(-1 - n));
        case 4 =>
          if n >= MAX_ARRAY_LENGTH {
            return Err(InvalidArrayLength);
          }
          r := ReadItems(n);
        case 5 => r := ReadPairs(n);
        case 6 => r := ReadValue();
        case _ =>
          if pos + n > |buf| {
            return Err(Truncated);
          }
          r := Ok(StringValue(major == 3, buf[pos..pos + n]));
          pos := pos + n;
      }
    }

    method ReadOpenValue(major: nat) returns (r: Result<Value, CborError>)
      requires pos <= |buf| && 2 <= major <= 5
      modifies this`pos
      ensures Agrees(DecodeOpen(buf, old(pos), major), r)
      decreases |buf| - pos, 4
    {
      match major {
        case 2 => r := ReadChunks(false);
        case 3 => r := ReadChunks(true);
        case 4 => r := ReadUntilStop();
        case _ => r := ReadPairsUntilStop();
      }
    }

    method ReadItems(n: nat) returns (r: Result<Value, CborError>)
      requires pos <= |buf|
      modifies this`pos
      ensures Agrees(DecodeItems(buf, old(pos), n, []), r)
      decreases |buf| - pos, 2
    {
      var arr: seq<Value> := [];
      for i := 0 to n
        invariant old(pos) <= pos <= |buf|
        invariant DecodeItems(buf, pos, n - i, arr) == DecodeItems(buf, old(pos), n, [])
      {
        var item := ReadValue();
        if item.Err? {
          return item;
        }
        arr := arr + [item.value];
      }
      return Ok(List(arr));
    }

    method ReadUntilStop() returns (r: Result<Value, CborError>)
      requires pos <= |buf|
      modifies this`pos
      ensures Agrees(DecodeUntilStop(buf, old(pos), []), r)
      decreases |buf| - pos, 2
    {
      var arr: seq<Value> := [];
      while true
        invariant old(pos) <= pos <= |buf|
        invariant DecodeUntilStop(buf, pos, arr) == DecodeUntilStop(buf, old(pos), [])
        decreases |buf| - pos
      {
        if pos == |buf| {
          return Err(Truncated);
        }
        if buf[pos] == 0xff {
          pos := pos + 1;
          return Ok(List(arr));
        }
        var item := ReadValue();
        if item.Err? {
          return item;
        }
        arr := arr + [item.value];
      }
    }

    method ReadChunks(text: bool) returns (r: Result<Value, CborError>)
      requires pos <= |buf|
      modifies this`pos
      ensures Agrees(DecodeChunks(buf, old(pos), text, []), r)
      decreases |buf| - pos, 2
    {
      var joined: seq<byte> := [];
      while true
        invariant old(pos) <= pos <= |buf|
        invariant DecodeChunks(buf, pos, text, joined) == DecodeChunks(buf, old(pos), text, [])
        decreases |buf| - pos
      {
        if pos == |buf| {
          return Err(Truncated);
        }
        if buf[pos] == 0xff {
          pos := pos + 1;
          return Ok(StringValue(text, joined));
        }
        var chunk := ReadValue();
        if chunk.Err? {
          return chunk;
        }
        if (text && !chunk.value.TextString?) || (!text && !chunk.value.ByteString?) {
          return Err(BadChunk);
        }
        joined := joined + chunk.value.data;
      }
    }

    method ReadPair(entries: seq<Entry>) returns (r: Result<seq<Entry>, CborError>)
      requires pos <= |buf|
      modifies this`pos
      ensures match DecodePair(buf, old(pos), entries)
              case Err(e) => r == Err(e)
              case Ok((entries', pos')) => r == Ok(entries') && pos == pos'
      decreases |buf| - pos, 2
    {
      var key := ReadValue();
      if key.Err? {
        return Err(key.error);
      }
      var value := ReadValue();
      if value.Err? {
        return Err(value.error);
      }
      return Ok(Put(entries, key.value, value.value));
    }

    method ReadPairs(n: nat) returns (r: Result<Value, CborError>)
      requires pos <= |buf|
      modifies this`pos
      ensures Agrees(DecodePairs(buf, old(pos), n, []), r)
      decreases |buf| - pos, 3
    {
      var entries: seq<Entry> := [];
      for i := 0 to n
        invariant old(pos) <= pos <= |buf|
        invariant DecodePairs(buf, pos, n - i, entries) == DecodePairs(buf, old(pos), n, [])
      {
        var next := ReadPair(entries);
        if next.Err? {
          return Err(next.error);
        }
        entries := next.value;
      }
      return Ok(Dict(entries));
    }

    method ReadPairsUntilStop() returns (r: Result<Value, CborError>)
      requires pos <= |buf|
      modifies this`pos
      ensures Agrees(DecodePairsUntilStop(buf, old(pos), []), r)
      decreases |buf| - pos, 3
    {
      var entries: seq<Entry> := [];
      while true
        invariant old(pos) <= pos <= |buf|
        invariant DecodePairsUntilStop(buf, pos, entries) == DecodePairsUntilStop(buf, old(pos), [])
        decreases |buf| - pos
      {
        if pos == |buf| {
          return Err(Truncated);
        }
        if buf[pos] == 0xff {
          pos := pos + 1;
          return Ok(Dict(entries));
        }
        var next := ReadPair(entries);
        if next.Err? {
          return Err(next.error);
        }
        entries := next.value;
      }
    }
  }

  method ReadBigEndian(s: seq<byte>) returns (value: nat)
    ensures value == BigEndian(s)
  {
    value := 0;
    for i := 0 to |s|
      invariant value == BigEndian(s[..i])
    {
      assert s[..i + 1][..i] == s[..i];
      value := value * 256 + s[i];
    }
    assert s[..|s|] == s;
  }

  // ----- Every encoding is read back -----
  // The functions above unfold into each other; each lemma below hides those it does not look into.

  lemma SizedReads(buf: seq<byte>, pos: nat, major: nat, w: Width, n: nat, body: seq<byte>)
    requires major < 7 && w.Fits(n) && At(buf, pos, Head(major, w, n) + body)
    ensures pos + |Head(major, w, n)| <= |buf|
    ensures Decode(buf, pos) == DecodeSized(buf, pos + |Head(major, w, n)|, major, n)
    ensures At(buf, pos + |Head(major, w, n)|, body)
  {
    hide DecodeSized, DecodeOpen;
    SizedAt(buf, pos, major, w, n, body);
    assert w == W8 ==> n < 0x20_0000_0000_0000;
  }

  lemma OpenReads(buf: seq<byte>, pos: nat, major: nat, body: seq<byte>)
    requires 2 <= major <= 5 && At(buf, pos, OpenHead(major) + (body + STOP))
    ensures pos + 1 + |body| < |buf| && buf[pos + 1 + |body|] == 0xff
    ensures Decode(buf, pos) == DecodeOpen(buf, pos + 1, major)
    ensures At(buf, pos + 1, body + STOP)
  {
    hide DecodeSized, DecodeOpen;
    OpenAt(buf, pos, major, body);
  }

  lemma SizedCases(buf: seq<byte>, pos: nat, n: nat)
    requires pos <= |buf|
    ensures DecodeSized(buf, pos, 0, n) == Ok((Num(n), pos))
    ensures DecodeSized(buf, pos, 1, n) == Ok((Num(-1 - n), pos))
    ensures pos + n <= |buf| ==> DecodeSized(buf, pos, 2, n) == Ok((ByteString(buf[pos..pos + n]), pos + n))
    ensures pos + n <= |buf| ==> DecodeSized(buf, pos, 3, n) == Ok((TextString(buf[pos..pos + n]), pos + n))
    ensures n < MAX_ARRAY_LENGTH ==> DecodeSized(buf, pos, 4, n) == DecodeItems(buf, pos, n, [])
    ensures DecodeSized(buf, pos, 5, n) == DecodePairs(buf, pos, n, [])
    ensures DecodeSized(buf, pos, 6, n) == Decode(buf, pos)
  {
    hide Decode, DecodeOpen, DecodeItems, DecodePairs;
  }

  lemma OpenCases(buf: seq<byte>, pos: nat)
    requires pos <= |buf|
    ensures DecodeOpen(buf, pos, 2) == DecodeChunks(buf, pos, false, [])
    ensures DecodeOpen(buf, pos, 3) == DecodeChunks(buf, pos, true, [])
    ensures DecodeOpen(buf, pos, 4) == DecodeUntilStop(buf, pos, [])
    ensures DecodeOpen(buf, pos, 5) == DecodePairsUntilStop(buf, pos, [])
  {
    hide Decode, DecodeChunks, DecodeUntilStop, DecodePairsUntilStop;
  }

  /** Wherever an encoding stands, whatever surrounds it, decoding there yields its value and consumes just it. */
  lemma {:induction false} DecodeComplete(buf: seq<byte>, pos: nat, f: Framed)
    requires WellFormed(f) && At(buf, pos, Enc(f))
    ensures pos <= |buf| && Decode(buf, pos) == Ok((ValueOf(f), pos + |Enc(f)|))
    decreases f, 3
  {
    hide EncAll, EncPairs, EncChunks, ValuesOf, EntriesOf, Join, AllWellFormed, PairsWellFormed;
    hide Decode, DecodeSized, DecodeOpen, DecodeItems, DecodeUntilStop, DecodeChunks, DecodePair, DecodePairs,
         DecodePairsUntilStop;
    match f
    case Unsigned(w, n) => NumberComplete(buf, pos, 0, w, n);
    case Negative(w, n) => NumberComplete(buf, pos, 1, w, n);
    case Str(text, w, data) => StrComplete(buf, pos, text, w, data);
    case OpenStr(text, chunks) => OpenStrComplete(buf, pos, text, chunks);
    case Arr(w, items) => ArrComplete(buf, pos, w, items);
    case OpenArr(items) => OpenArrComplete(buf, pos, items);
    case Map(w, pairs) => MapComplete(buf, pos, w, pairs);
    case OpenMap(pairs) => OpenMapComplete(buf, pos, pairs);
    case Tag(w, number, inner) =>
      SizedReads(buf, pos, 6, w, number, Enc(inner));
      SizedCases(buf, pos + |Head(6, w, number)|, number);
      DecodeComplete(buf, pos + |Head(6, w, number)|, inner);
    case Simple(simple) => SimpleComplete(buf, pos, simple);
  }

  lemma NumberComplete(buf: seq<byte>, pos: nat, major: nat, w: Width, n: nat)
    requires major < 2 && w.Fits(n) && At(buf, pos, Head(major, w, n))
    ensures Decode(buf, pos) == Ok((if major == 0 then Num(n) else Num(-1 - n), pos + |Head(major, w, n)|))
  {
    hide Decode, DecodeSized, DecodeOpen, DecodeItems, DecodeUntilStop, DecodeChunks, DecodePair, DecodePairs,
         DecodePairsUntilStop;
    assert Head(major, w, n) + [] == Head(major, w, n);
    SizedReads(buf, pos, major, w, n, []);
    SizedCases(buf, pos + |Head(major, w, n)|, n);
  }

  lemma SimpleComplete(buf: seq<byte>, pos: nat, simple: SimpleValue)
    requires At(buf, pos, [SimpleOctet(simple)])
    ensures Decode(buf, pos) == Ok((SimpleMeaning(simple), pos + 1))
  {
    hide DecodeOpen, DecodeSized;
    OctetAt(buf, pos, SimpleOctet(simple));
  }

  lemma StrComplete(buf: seq<byte>, pos: nat, text: bool, w: Width, data: seq<byte>)
    requires w.Fits(|data|) && At(buf, pos, Head(StringMajor(text), w, |data|) + data)
    ensures Decode(buf, pos) == Ok((StringValue(text, data), pos + |Head(StringMajor(text), w, |data|)| + |data|))
  {
    hide Decode, DecodeSized, DecodeOpen, DecodeItems, DecodeUntilStop, DecodeChunks, DecodePair, DecodePairs,
         DecodePairsUntilStop;
    SizedReads(buf, pos, StringMajor(text), w, |data|, data);
    SizedCases(buf, pos + |Head(StringMajor(text), w, |data|)|, |data|);
  }

  lemma OpenStrComplete(buf: seq<byte>, pos: nat, text: bool, chunks: seq<Chunk>)
    requires (forall c :: c in chunks ==> c.w.Fits(|c.data|))
    requires At(buf, pos, OpenHead(StringMajor(text)) + (EncChunks(text, chunks) + STOP))
    ensures Decode(buf, pos) == Ok((StringValue(text, Join(chunks)), pos + |EncChunks(text, chunks)| + 2))
  {
    hide Decode, DecodeSized, DecodeOpen, DecodeItems, DecodeUntilStop, DecodeChunks, DecodePair, DecodePairs,
         DecodePairsUntilStop;
    OpenReads(buf, pos, StringMajor(text), EncChunks(text, chunks));
    OpenCases(buf, pos + 1);
    ChunksComplete(buf, pos + 1, text, chunks, []);
    assert [] + Join(chunks) == Join(chunks);
  }

  lemma {:induction false} ArrComplete(buf: seq<byte>, pos: nat, w: Width, items: seq<Framed>)
    requires w.Fits(|items|) && |items| < MAX_ARRAY_LENGTH && AllWellFormed(items)
    requires At(buf, pos, Head(4, w, |items|) + EncAll(items))
    ensures Decode(buf, pos) == Ok((List(ValuesOf(items)), pos + |Head(4, w, |items|)| + |EncAll(items)|))
    decreases items, 1
  {
    hide Decode, DecodeSized, DecodeOpen, DecodeItems, DecodeUntilStop, DecodeChunks, DecodePair, DecodePairs,
         DecodePairsUntilStop;
    var pos' := pos + |Head(4, w, |items|)|;
    SizedReads(buf, pos, 4, w, |items|, EncAll(items));
    SizedCases(buf, pos', |items|);
    ItemsComplete(buf, pos', items, []);
    assert [] + ValuesOf(items) == ValuesOf(items);
  }

  lemma {:induction false} OpenArrComplete(buf: seq<byte>, pos: nat, items: seq<Framed>)
    requires AllWellFormed(items) && At(buf, pos, OpenHead(4) + (EncAll(items) + STOP))
    ensures Decode(buf, pos) == Ok((List(ValuesOf(items)), pos + |EncAll(items)| + 2))
    decreases items, 1
  {
    hide Decode, DecodeSized, DecodeOpen, DecodeItems, DecodeUntilStop, DecodeChunks, DecodePair, DecodePairs,
         DecodePairsUntilStop;
    OpenReads(buf, pos, 4, EncAll(items));
    OpenCases(buf, pos + 1);
    UntilStopComplete(buf, pos + 1, items, []);
    assert [] + ValuesOf(items) == ValuesOf(items);
  }

  lemma {:induction false} MapComplete(buf: seq<byte>, pos: nat, w: Width, pairs: seq<Pair>)
    requires w.Fits(|pairs|) && PairsWellFormed(pairs) && DistinctKeys(pairs)
    requires At(buf, pos, Head(5, w, |pairs|) + EncPairs(pairs))
    ensures Decode(buf, pos) == Ok((Dict(EntriesOf(pairs)), pos + |Head(5, w, |pairs|)| + |EncPairs(pairs)|))
    decreases pairs, 1
  {
    hide Decode, DecodeSized, DecodeOpen, DecodeItems, DecodeUntilStop, DecodeChunks, DecodePair, DecodePairs,
         DecodePairsUntilStop;
    var pos' := pos + |Head(5, w, |pairs|)|;
    SizedReads(buf, pos, 5, w, |pairs|, EncPairs(pairs));
    SizedCases(buf, pos', |pairs|);
    PairsComplete(buf, pos', pairs, []);
    assert [] + EntriesOf(pairs) == EntriesOf(pairs);
  }

  lemma {:induction false} OpenMapComplete(buf: seq<byte>, pos: nat, pairs: seq<Pair>)
    requires PairsWellFormed(pairs) && DistinctKeys(pairs) && At(buf, pos, OpenHead(5) + (EncPairs(pairs) + STOP))
    ensures Decode(buf, pos) == Ok((Dict(EntriesOf(pairs)), pos + |EncPairs(pairs)| + 2))
    decreases pairs, 1
  {
    hide Decode, DecodeSized, DecodeOpen, DecodeItems, DecodeUntilStop, DecodeChunks, DecodePair, DecodePairs,
         DecodePairsUntilStop;
    OpenReads(buf, pos, 5, EncPairs(pairs));
    OpenCases(buf, pos + 1);
    PairsUntilStopComplete(buf, pos + 1, pairs, []);
    assert [] + EntriesOf(pairs) == EntriesOf(pairs);
  }

  lemma {:induction false} ItemsComplete(buf: seq<byte>, pos: nat, fs: seq<Framed>, arr: seq<Value>)
    requires AllWellFormed(fs) && At(buf, pos, EncAll(fs)) && pos <= |buf|
    ensures DecodeItems(buf, pos, |fs|, arr) == Ok((List(arr + ValuesOf(fs)), pos + |EncAll(fs)|))
    decreases fs, 0
  {
    hide At, Enc, WellFormed, ValueOf, Decode, DecodeSized, DecodeOpen;
    if fs == [] {
      assert arr + [] == arr;
    } else {
      AtSplit(buf, pos, Enc(fs[0]), EncAll(fs[1..]));
      DecodeComplete(buf, pos, fs[0]);
      ItemsComplete(buf, pos + |Enc(fs[0])|, fs[1..], arr + [ValueOf(fs[0])]);
      NextValue(arr, fs);
    }
  }

  /** Before the stop code: what stands at pos is the first of the encodings, and no stop code. */
  lemma FirstOf(buf: seq<byte>, pos: nat, first: seq<byte>, others: seq<byte>)
    requires At(buf, pos, first + others + STOP) && first != [] && first[0] != 0xff
    ensures At(buf, pos, first) && At(buf, pos + |first|, others + STOP)
    ensures pos < |buf| && buf[pos] != 0xff && pos + |first| <= |buf|
  {
    assert first + others + STOP == first + (others + STOP);
    AtSplit(buf, pos, first, others + STOP);
    assert buf[pos] == buf[pos..pos + |first|][0];
  }

  lemma {:induction false} UntilStopComplete(buf: seq<byte>, pos: nat, fs: seq<Framed>, arr: seq<Value>)
    requires AllWellFormed(fs) && At(buf, pos, EncAll(fs) + STOP) && pos <= |buf|
    ensures DecodeUntilStop(buf, pos, arr) == Ok((List(arr + ValuesOf(fs)), pos + |EncAll(fs)| + 1))
    decreases fs, 0
  {
    hide At, Enc, WellFormed, ValueOf, Decode, DecodeSized, DecodeOpen;
    if fs == [] {
      assert EncAll(fs) + STOP == STOP;
      OctetAt(buf, pos, 0xff);
      assert arr + [] == arr;
    } else {
      NoStopInFront(fs[0]);
      FirstOf(buf, pos, Enc(fs[0]), EncAll(fs[1..]));
      DecodeComplete(buf, pos, fs[0]);
      UntilStopComplete(buf, pos + |Enc(fs[0])|, fs[1..], arr + [ValueOf(fs[0])]);
      NextValue(arr, fs);
    }
  }

  lemma {:induction false} ChunksComplete(buf: seq<byte>, pos: nat, text: bool, chunks: seq<Chunk>, data: seq<byte>)
    requires (forall c :: c in chunks ==> c.w.Fits(|c.data|)) && At(buf, pos, EncChunks(text, chunks) + STOP)
    requires pos <= |buf|
    ensures DecodeChunks(buf, pos, text, data) ==
            Ok((StringValue(text, data + Join(chunks)), pos + |EncChunks(text, chunks)| + 1))
    decreases chunks
  {
    hide At, Decode, DecodeSized, DecodeOpen;
    if chunks == [] {
      assert EncChunks(text, chunks) + STOP == STOP;
      OctetAt(buf, pos, 0xff);
      assert data + [] == data;
    } else {
      assert chunks[0] in chunks;
      var c := chunks[0];
      var first := Head(StringMajor(text), c.w, |c.data|) + c.data;
      FirstOf(buf, pos, first, EncChunks(text, chunks[1..]));
      StrComplete(buf, pos, text, c.w, c.data);
      ChunksComplete(buf, pos + |first|, text, chunks[1..], data + c.data);
      ChunksStep(buf, pos, text, data, c.data, pos + |first|);
      assert data + c.data + Join(chunks[1..]) == data + Join(chunks);
    }
  }

  lemma ChunksStep(buf: seq<byte>, pos: nat, text: bool, data: seq<byte>, chunk: seq<byte>, pos': nat)
    requires pos < |buf| && buf[pos] != 0xff && pos' <= |buf|
    requires Decode(buf, pos) == Ok((StringValue(text, chunk), pos'))
    ensures DecodeChunks(buf, pos, text, data) == DecodeChunks(buf, pos', text, data + chunk)
  {
    hide Decode, DecodeSized, DecodeOpen;
  }

  /** One more pair of a map, read and added. */
  lemma {:induction false} PairComplete(buf: seq<byte>, pos: nat, ps: seq<Pair>, entries: seq<Entry>)
    requires PairsWellFormed(ps) && ps != [] && FreshKeys(entries, ps) && At(buf, pos, EncPair(ps[0]))
    ensures pos <= |buf|
    ensures DecodePair(buf, pos, entries) == Ok((entries + [EntryOf(ps[0])], pos + |EncPair(ps[0])|))
    ensures FreshKeys(entries + [EntryOf(ps[0])], ps[1..])
    ensures entries + [EntryOf(ps[0])] + EntriesOf(ps[1..]) == entries + EntriesOf(ps)
    decreases ps, 0, 0
  {
    hide At, FreshKeys, DistinctKeys, Put, Enc, WellFormed, ValueOf, Decode, DecodePair;
    NextFreshKey(entries, ps);
    PairReads(buf, pos, ps[0], entries);
  }

  lemma {:induction false} PairReads(buf: seq<byte>, pos: nat, p: Pair, entries: seq<Entry>)
    requires PairWellFormed(p) && At(buf, pos, EncPair(p))
    ensures pos <= |buf|
    ensures DecodePair(buf, pos, entries) == Ok((Put(entries, ValueOf(p.key), ValueOf(p.value)), pos + |EncPair(p)|))
    decreases p, 4
  {
    hide At, Enc, WellFormed, ValueOf, Put, Decode, DecodeSized, DecodeOpen;
    AtSplit(buf, pos, Enc(p.key), Enc(p.value));
    DecodeComplete(buf, pos, p.key);
    DecodeComplete(buf, pos + |Enc(p.key)|, p.value);
  }

  lemma {:induction false} PairsComplete(buf: seq<byte>, pos: nat, ps: seq<Pair>, entries: seq<Entry>)
    requires PairsWellFormed(ps) && FreshKeys(entries, ps) && At(buf, pos, EncPairs(ps)) && pos <= |buf|
    ensures DecodePairs(buf, pos, |ps|, entries) == Ok((Dict(entries + EntriesOf(ps)), pos + |EncPairs(ps)|))
    decreases ps, 0, 1
  {
    hide At, FreshKeys, DistinctKeys, Put, Enc, WellFormed, ValueOf, Decode, DecodePair;
    if ps == [] {
      assert entries + [] == entries;
    } else {
      AtSplit(buf, pos, EncPair(ps[0]), EncPairs(ps[1..]));
      PairComplete(buf, pos, ps, entries);
      PairsComplete(buf, pos + |EncPair(ps[0])|, ps[1..], entries + [EntryOf(ps[0])]);
    }
  }

  lemma {:induction false} PairsUntilStopComplete(buf: seq<byte>, pos: nat, ps: seq<Pair>, entries: seq<Entry>)
    requires PairsWellFormed(ps) && FreshKeys(entries, ps) && At(buf, pos, EncPairs(ps) + STOP) && pos <= |buf|
    ensures DecodePairsUntilStop(buf, pos, entries) == Ok((Dict(entries + EntriesOf(ps)), pos + |EncPairs(ps)| + 1))
    decreases ps, 0, 1
  {
    hide At, FreshKeys, DistinctKeys, Put, Enc, WellFormed, ValueOf, Decode, DecodePair;
    if ps == [] {
      assert EncPairs(ps) + STOP == STOP;
      OctetAt(buf, pos, 0xff);
      assert entries + [] == entries;
    } else {
      NoStopInFront(ps[0].key);
      FirstOf(buf, pos, EncPair(ps[0]), EncPairs(ps[1..]));
      PairComplete(buf, pos, ps, entries);
      PairsUntilStopComplete(buf, pos + |EncPair(ps[0])|, ps[1..], entries + [EntryOf(ps[0])]);
    }
  }
}
