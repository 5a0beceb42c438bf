/**
 packages/shared/src/cbor.js and apps/web/lib/nitro-attestation.ts on arbitrary octets, well-formed by the grammar
 or not: the shared decoder reads whatever the strict web decoder reads, and the guards that it leaves out are
 exactly what the web decoder refuses on top.
 */
module CborAgreement {
  import opened Bytes
  import opened CborGrammar
  import Web = CborDecoding
  import Shared = CborRead

  /** A value as the shared decoder knows it: it has no floats, and reads each as null. */
  function Nulled(v: Value): Value
    decreases v, 0
  {
    match v
    case Float(_) => Null
    case Break => Null
    case List(items) => List(NulledAll(items))
    case Dict(entries) => Dict(NulledEntries(entries))
    case _ => v
  }

  function NulledAll(vs: seq<Value>): (ws: seq<Value>)
    ensures |ws| == |vs|
    decreases vs, 0
  {
    if vs == [] then [] else [Nulled(vs[0])] + NulledAll(vs[1..])
  }

  function NulledEntries(es: seq<Entry>): (fs: seq<Entry>)
    ensures |fs| == |es|
    decreases es, 0
  {
    if es == [] then [] else [Entry(es[0].key, NulledIn(es[0]))] + NulledEntries(es[1..])
  }

  function NulledIn(e: Entry): Value
    decreases e, 1
  {
    Nulled(e.value)
  }

  // ----- The keys the web decoder reads -----

  /** Every map key read on the way through the item at pos is text. */
  predicate TextKeyed(buf: seq<byte>, pos: nat)
    requires pos <= |buf|
    decreases |buf| - pos, 1
  {
    pos < |buf| ==>
      var major, info := buf[pos] / 32, buf[pos] % 32;
      if info == 31 then OpenKeyed(buf, pos + 1, major)
      else
        match Web.ReadSafe(buf, pos + 1, info)
        case Err(_) => true
        case Ok((n, pos')) => SizedKeyed(buf, pos', major, n)
  }

  predicate SizedKeyed(buf: seq<byte>, pos: nat, major: nat, n: nat)
    requires pos <= |buf|
    decreases |buf| - pos, 4
  {
    match major
    case 4 => ItemsKeyed(buf, pos, n)
    case 5 => PairsKeyed(buf, pos, n)
    case 6 => TextKeyed(buf, pos)
    case _ => true
  }

  predicate OpenKeyed(buf: seq<byte>, pos: nat, major: nat)
    requires pos <= |buf|
    decreases |buf| - pos, 4
  {
    match major
    case 2 => UntilStopKeyed(buf, pos)
    case 3 => UntilStopKeyed(buf, pos)
    case 4 => UntilStopKeyed(buf, pos)
    case 5 => PairsUntilStopKeyed(buf, pos)
    case _ => true
  }

  predicate ItemsKeyed(buf: seq<byte>, pos: nat, n: nat)
    requires pos <= |buf|
    decreases |buf| - pos, 2
  {
    n == 0 ||
    (TextKeyed(buf, pos) &&
     match Web.Decode(buf, pos)
     case Err(_) => true
     case Ok((_, pos')) => ItemsKeyed(buf, pos', n - 1))
  }

  predicate UntilStopKeyed(buf: seq<byte>, pos: nat)
    requires pos <= |buf|
    decreases |buf| - pos, 2
  {
    pos == |buf| || buf[pos] == 0xff ||
    (TextKeyed(buf, pos) &&
     match Web.Decode(buf, pos)
     case Err(_) => true
     case Ok((_, pos')) => UntilStopKeyed(buf, pos'))
  }

  predicate PairKeyed(buf: seq<byte>, pos: nat)
    requires pos <= |buf|
    decreases |buf| - pos, 2
  {
    TextKeyed(buf, pos) &&
    match Web.Decode(buf, pos)
    case Err(_) => true
    case Ok((key, pos1)) => key.TextString? && TextKeyed(buf, pos1)
  }

  predicate PairsKeyed(buf: seq<byte>, pos: nat, n: nat)
    requires pos <= |buf|
    decreases |buf| - pos, 3
  {
    n == 0 ||
    (PairKeyed(buf, pos) &&
     match Web.DecodePair(buf, pos, [])
     case Err(_) => true
     case Ok((_, pos')) => PairsKeyed(buf, pos', n - 1))
  }

  predicate PairsUntilStopKeyed(buf: seq<byte>, pos: nat)
    requires pos <= |buf|
    decreases |buf| - pos, 3
  {
    pos == |buf| || buf[pos] == 0xff ||
    (PairKeyed(buf, pos) &&
     match Web.DecodePair(buf, pos, [])
     case Err(_) => true
     case Ok((_, pos')) => PairsUntilStopKeyed(buf, pos'))
  }

  // ----- The guards the shared decoder leaves out -----

  /**
   Along the shared decoder's reading of the item at pos: a stop code stands only where an open container may end,
   an argument of eight octets is below 2^53, an array length is below 2^32, the octets of a string are there,
   chunks are of their string's kind, and a simple value is one of the four known ones or a float.
   */
  predicate Guarded(buf: seq<byte>, pos: nat)
    decreases |buf| - pos, 1
  {
    pos < |buf| &&
    var major, info := buf[pos] / 32, buf[pos] % 32;
    if info == 31 then major != 7 && OpenGuarded(buf, pos + 1, major)
    else
      match ReadArgument(buf, pos + 1, info)
      case Err(_) => true
      case Ok((n, pos')) => SizedGuarded(buf, pos', major, info, n)
  }

  predicate SizedGuarded(buf: seq<byte>, pos: nat, major: nat, info: nat, n: nat)
    decreases |buf| - pos, 4
  {
    if major == 7 then 20 <= info <= 23 || 25 <= info <= 27
    else
      && (info == 27 ==> n < 0x20_0000_0000_0000)
      && match major
         case 2 => pos + n <= |buf|
         case 3 => pos + n <= |buf|
         case 4 => n < Web.MAX_ARRAY_LENGTH && ItemsGuarded(buf, pos, n)
         case 5 => PairsGuarded(buf, pos, n)
         case 6 => Guarded(buf, pos)
         case _ => true
  }

  predicate OpenGuarded(buf: seq<byte>, pos: nat, major: nat)
    decreases |buf| - pos, 4
  {
    match major
    case 2 => ChunksGuarded(buf, pos, false)
    case 3 => ChunksGuarded(buf, pos, true)
    case 4 => UntilStopGuarded(buf, pos)
    case 5 => PairsUntilStopGuarded(buf, pos)
    case _ => true
  }

  predicate ItemsGuarded(buf: seq<byte>, pos: nat, n: nat)
    decreases |buf| - pos, 2
  {
    n == 0 ||
    (Guarded(buf, pos) &&
     match Shared.Read(buf, pos)
     case Err(_) => true
     case Ok((_, pos')) => ItemsGuarded(buf, pos', n - 1))
  }

  predicate UntilStopGuarded(buf: seq<byte>, pos: nat)
    decreases |buf| - pos, 2
  {
    pos >= |buf| || buf[pos] == 0xff ||
    (Guarded(buf, pos) &&
     match Shared.Read(buf, pos)
     case Err(_) => true
     case Ok((_, pos')) => UntilStopGuarded(buf, pos'))
  }

  predicate ChunksGuarded(buf: seq<byte>, pos: nat, text: bool)
    decreases |buf| - pos, 2
  {
    pos >= |buf| || buf[pos] == 0xff ||
    (Guarded(buf, pos) &&
     match Shared.Read(buf, pos)
     case Err(_) => true
     case Ok((v, pos')) => (if text then v.TextString? else v.ByteString?) && ChunksGuarded(buf, pos', text))
  }

  predicate PairGuarded(buf: seq<byte>, pos: nat)
    decreases |buf| - pos, 2
  {
    Guarded(buf, pos) &&
    match Shared.Read(buf, pos)
    case Err(_) => true
    case Ok((_, pos1)) => Guarded(buf, pos1)
  }

  predicate PairsGuarded(buf: seq<byte>, pos: nat, n: nat)
    decreases |buf| - pos, 3
  {
    n == 0 ||
    (PairGuarded(buf, pos) &&
     match Shared.ReadPair(buf, pos, [])
     case Err(_) => true
     case Ok((_, _, pos')) => PairsGuarded(buf, pos', n - 1))
  }

  predicate PairsUntilStopGuarded(buf: seq<byte>, pos: nat)
    decreases |buf| - pos, 3
  {
    pos >= |buf| || buf[pos] == 0xff ||
    (PairGuarded(buf, pos) &&
     match Shared.ReadPair(buf, pos, [])
     case Err(_) => true
     case Ok((_, _, pos')) => PairsUntilStopGuarded(buf, pos'))
  }

  // ----- The two readings -----

  /**
   What the web decoder reads, the shared one reads, up to floats, or refuses because of a key that is not text.
   And with text keys the web decoder reads exactly where the shared one reads and the guards hold.
   */
  predicate Agree(web: Web.Reading, shared: Shared.Reading, keyed: bool, guarded: bool) {
    && (web.Ok? ==> shared == if keyed then Ok((Nulled(web.value.0), web.value.1)) else Err(KeyNotModelled))
    && (web.Ok? && keyed <==> shared.Ok? && guarded)
  }

  lemma {:induction false} NulledSnoc(vs: seq<Value>, v: Value)
    ensures NulledAll(vs + [v]) == NulledAll(vs) + [Nulled(v)]
  {
    if vs == [] {
      assert vs + [v] == [v] && [v][1..] == [];
    } else {
      NulledSnoc(vs[1..], v);
      assert (vs + [v])[1..] == vs[1..] + [v];
    }
  }

  lemma {:induction false} NulledPut(es: seq<Entry>, key: Value, value: Value)
    ensures NulledEntries(Put(es, key, value)) == Put(NulledEntries(es), key, Nulled(value))
  {
    if es == [] {
      assert Put(es, key, value)[1..] == [];
    } else {
      var put := Put(es, key, value);
      assert NulledEntries(es)[1..] == NulledEntries(es[1..]);
      if IsPrimitiveKey(key) && es[0].key == key {
        assert put == [Entry(key, value)] + es[1..] && put[1..] == es[1..];
      } else {
        NulledPut(es[1..], key, value);
        assert put == [es[0]] + Put(es[1..], key, value) && put[1..] == Put(es[1..], key, value);
      }
    }
  }

  lemma NeverBreak(v: Value)
    ensures Nulled(v) != Break
  {
  }

  lemma StopIsBreak(buf: seq<byte>, pos: nat)
    requires pos < |buf| && buf[pos] == 0xff
    ensures Shared.Read(buf, pos) == Ok((Break, pos + 1))
    ensures forall entries :: Shared.ReadPair(buf, pos, entries) == Ok((false, entries, pos + 1))
  {
    hide Shared.ReadSized, Shared.ReadChunks, Shared.ReadUntilBreak, Shared.ReadPairsUntilBreak;
  }

  /** At every position of every buffer. */
  lemma {:induction false} ItemAgrees(buf: seq<byte>, pos: nat)
    requires pos <= |buf|
    ensures Agree(Web.Decode(buf, pos), Shared.Read(buf, pos), TextKeyed(buf, pos), Guarded(buf, pos))
    decreases |buf| - pos, 1
  {
    hide Web.DecodeSized, Web.DecodeOpen, Shared.ReadSized, Shared.ReadOpen, Web.DecodeSimple, Nulled;
    hide OpenKeyed, SizedKeyed, OpenGuarded, SizedGuarded;
    if pos < |buf| {
      var major, info := buf[pos] / 32, buf[pos] % 32;
      if major == 7 {
        SimpleAgrees(buf, pos, info);
      } else if info == 31 {
        OpenAgrees(buf, pos + 1, major);
      } else {
        var arg := ReadArgument(buf, pos + 1, info);
        if arg.Ok? {
          SizedAgrees(buf, arg.value.1, major, info, arg.value.0);
        }
      }
    }
  }

  lemma SimpleAgrees(buf: seq<byte>, pos: nat, info: nat)
    requires pos < |buf| && buf[pos] / 32 == 7 && info == buf[pos] % 32
    ensures Agree(Web.Decode(buf, pos), Shared.Read(buf, pos), TextKeyed(buf, pos), Guarded(buf, pos))
  {
  }

  lemma {:induction false} SizedAgrees(buf: seq<byte>, pos: nat, major: nat, info: nat, n: nat)
    requires pos <= |buf| && major < 7
    ensures Agree(if info == 27 && n >= 0x20_0000_0000_0000 then Err(UnsafeInteger)
                  else Web.DecodeSized(buf, pos, major, n),
                  Shared.ReadSized(buf, pos, major, info, n),
                  SizedKeyed(buf, pos, major, n), SizedGuarded(buf, pos, major, info, n))
    decreases |buf| - pos, 4
  {
    hide Web.Decode, Shared.Read, Web.DecodeItems, Shared.ReadItems, Web.DecodePairs, Shared.ReadPairs;
    hide ItemsKeyed, PairsKeyed, TextKeyed, ItemsGuarded, PairsGuarded, Guarded;
    match major
    case 4 => ItemsAgree(buf, pos, n, []);
    case 5 => PairsAgree(buf, pos, n, []);
    case 6 => ItemAgrees(buf, pos);
    case _ => assert pos + n <= |buf| ==> Shared.Slice(buf, pos, n) == buf[pos..pos + n];
  }

  lemma {:induction false} OpenAgrees(buf: seq<byte>, pos: nat, major: nat)
    requires pos <= |buf| && major < 7
    ensures Agree(if 2 <= major <= 5 then Web.DecodeOpen(buf, pos, major) else Err(UnsupportedInfo),
                  Shared.ReadOpen(buf, pos, major), OpenKeyed(buf, pos, major), OpenGuarded(buf, pos, major))
    decreases |buf| - pos, 4
  {
    hide Web.DecodeChunks, Shared.ReadChunks, Web.DecodeUntilStop, Shared.ReadUntilBreak;
    hide Web.DecodePairsUntilStop, Shared.ReadPairsUntilBreak;
    hide UntilStopKeyed, PairsUntilStopKeyed, ChunksGuarded, UntilStopGuarded, PairsUntilStopGuarded;
    match major
    case 2 => ChunksAgree(buf, pos, false, []);
    case 3 => ChunksAgree(buf, pos, true, []);
    case 4 => UntilStopAgrees(buf, pos, []);
    case 5 => PairsUntilStopAgree(buf, pos, []);
    case _ =>
  }

  lemma {:induction false} ItemsAgree(buf: seq<byte>, pos: nat, n: nat, arr: seq<Value>)
    requires pos <= |buf|
    ensures Agree(Web.DecodeItems(buf, pos, n, arr), Shared.ReadItems(buf, pos, n, NulledAll(arr)),
                  ItemsKeyed(buf, pos, n), ItemsGuarded(buf, pos, n))
    decreases |buf| - pos, 2
  {
    hide Web.Decode, Shared.Read, TextKeyed, Guarded;
    if n > 0 {
      ItemAgrees(buf, pos);
      var item := Web.Decode(buf, pos);
      if item.Ok? && TextKeyed(buf, pos) {
        ItemsAgree(buf, item.value.1, n - 1, arr + [item.value.0]);
        NulledSnoc(arr, item.value.0);
      }
    }
  }

  lemma {:induction false} UntilStopAgrees(buf: seq<byte>, pos: nat, arr: seq<Value>)
    requires pos <= |buf|
    ensures Agree(Web.DecodeUntilStop(buf, pos, arr), Shared.ReadUntilBreak(buf, pos, NulledAll(arr)),
                  UntilStopKeyed(buf, pos), UntilStopGuarded(buf, pos))
    decreases |buf| - pos, 2
  {
    hide Web.Decode, Shared.Read, TextKeyed, Guarded;
    if pos == |buf| {
      NothingThere(buf, pos);
    } else if buf[pos] == 0xff {
      StopIsBreak(buf, pos);
    } else {
      ItemAgrees(buf, pos);
      var item := Web.Decode(buf, pos);
      if item.Ok? && TextKeyed(buf, pos) {
        NeverBreak(item.value.0);
        UntilStopAgrees(buf, item.value.1, arr + [item.value.0]);
        NulledSnoc(arr, item.value.0);
      }
    }
  }

  lemma NothingThere(buf: seq<byte>, pos: nat)
    requires pos >= |buf|
    ensures Shared.Read(buf, pos).Err?
  {
  }

  lemma {:induction false} ChunksAgree(buf: seq<byte>, pos: nat, text: bool, data: seq<byte>)
    requires pos <= |buf|
    ensures Agree(Web.DecodeChunks(buf, pos, text, data), Shared.ReadChunks(buf, pos, text, data),
                  UntilStopKeyed(buf, pos), ChunksGuarded(buf, pos, text))
    decreases |buf| - pos, 2
  {
    hide Web.Decode, Shared.Read, TextKeyed, Guarded;
    if pos == |buf| {
      NothingThere(buf, pos);
    } else if buf[pos] == 0xff {
      StopIsBreak(buf, pos);
    } else {
      ItemAgrees(buf, pos);
      var item := Web.Decode(buf, pos);
      if item.Ok? && TextKeyed(buf, pos) && (if text then item.value.0.TextString? else item.value.0.ByteString?) {
        ChunksAgree(buf, item.value.1, text, data + item.value.0.data);
      }
    }
  }

  lemma {:induction false} PairAgrees(buf: seq<byte>, pos: nat, entries: seq<Entry>)
    requires pos <= |buf|
    ensures var web, shared := Web.DecodePair(buf, pos, entries), Shared.ReadPair(buf, pos, NulledEntries(entries));
            && (web.Ok? ==> shared == if PairKeyed(buf, pos) then Ok((true, NulledEntries(web.value.0), web.value.1))
                                      else Err(KeyNotModelled))
            && (web.Ok? && PairKeyed(buf, pos) <==> shared.Ok? && PairGuarded(buf, pos))
    decreases |buf| - pos, 2
  {
    hide Web.Decode, Shared.Read, TextKeyed, Guarded;
    ItemAgrees(buf, pos);
    var key := Web.Decode(buf, pos);
    if key.Ok? {
      NeverBreak(key.value.0);
      ItemAgrees(buf, key.value.1);
      var value := Web.Decode(buf, key.value.1);
      if value.Ok? {
        NulledPut(entries, key.value.0, value.value.0);
      }
    }
  }

  /** Where a pair ends does not depend on the entries before it. */
  lemma PairEnds(buf: seq<byte>, pos: nat, entries: seq<Entry>)
    requires pos <= |buf|
    ensures var a, b := Web.DecodePair(buf, pos, []), Web.DecodePair(buf, pos, entries);
            a.Ok? == b.Ok? && (a.Ok? ==> a.value.1 == b.value.1)
    ensures var a, b := Shared.ReadPair(buf, pos, []), Shared.ReadPair(buf, pos, entries);
            a.Ok? == b.Ok? && (a.Ok? ==> a.value.0 == b.value.0 && a.value.2 == b.value.2)
  {
    hide Web.Decode, Shared.Read;
  }

  lemma {:induction false} PairsAgree(buf: seq<byte>, pos: nat, n: nat, entries: seq<Entry>)
    requires pos <= |buf|
    ensures Agree(Web.DecodePairs(buf, pos, n, entries), Shared.ReadPairs(buf, pos, n, NulledEntries(entries)),
                  PairsKeyed(buf, pos, n), PairsGuarded(buf, pos, n))
    decreases |buf| - pos, 3
  {
    hide Web.DecodePair, Shared.ReadPair, PairKeyed, PairGuarded;
    if n > 0 {
      PairAgrees(buf, pos, entries);
      PairEnds(buf, pos, entries);
      PairEnds(buf, pos, NulledEntries(entries));
      var pair := Web.DecodePair(buf, pos, entries);
      if pair.Ok? && PairKeyed(buf, pos) {
        PairsAgree(buf, pair.value.1, n - 1, pair.value.0);
      }
    }
  }

  lemma {:induction false} PairsUntilStopAgree(buf: seq<byte>, pos: nat, entries: seq<Entry>)
    requires pos <= |buf|
    ensures Agree(Web.DecodePairsUntilStop(buf, pos, entries),
                  Shared.ReadPairsUntilBreak(buf, pos, NulledEntries(entries)),
                  PairsUntilStopKeyed(buf, pos), PairsUntilStopGuarded(buf, pos))
    decreases |buf| - pos, 3
  {
    hide Web.DecodePair, Shared.ReadPair, PairKeyed, PairGuarded;
    if pos == |buf| {
      NoPairThere(buf, pos, NulledEntries(entries));
    } else if buf[pos] == 0xff {
      StopIsBreak(buf, pos);
    } else {
      PairAgrees(buf, pos, entries);
      PairEnds(buf, pos, entries);
      PairEnds(buf, pos, NulledEntries(entries));
      var pair := Web.DecodePair(buf, pos, entries);
      if pair.Ok? && PairKeyed(buf, pos) {
        PairsUntilStopAgree(buf, pair.value.1, pair.value.0);
      }
    }
  }

  lemma NoPairThere(buf: seq<byte>, pos: nat, entries: seq<Entry>)
    requires pos >= |buf|
    ensures Shared.ReadPair(buf, pos, entries).Err?
  {
    hide Shared.ReadSized, Shared.ReadOpen;
  }

  // ----- Whole buffers -----

  predicate Plain(v: Value)
    decreases v, 0
  {
    match v
    case Float(_) => false
    case Break => false
    case List(items) => AllPlain(items)
    case Dict(entries) => EntriesPlain(entries)
    case _ => true
  }

  predicate AllPlain(vs: seq<Value>)
    decreases vs, 0
  {
    vs == [] || (Plain(vs[0]) && AllPlain(vs[1..]))
  }

  predicate EntriesPlain(es: seq<Entry>)
    decreases es, 0
  {
    es == [] || (PlainIn(es[0]) && EntriesPlain(es[1..]))
  }

  predicate PlainIn(e: Entry)
    decreases e, 1
  {
    Plain(e.value)
  }

  lemma {:induction false} PlainStays(v: Value)
    requires Plain(v)
    ensures Nulled(v) == v
    decreases v, 0
  {
    match v
    case List(items) => AllPlainStay(items);
    case Dict(entries) => EntriesPlainStay(entries);
    case _ =>
  }

  lemma {:induction false} AllPlainStay(vs: seq<Value>)
    requires AllPlain(vs)
    ensures NulledAll(vs) == vs
    decreases vs, 0
  {
    if vs != [] {
      PlainStays(vs[0]);
      AllPlainStay(vs[1..]);
    }
  }

  lemma {:induction false} EntriesPlainStay(es: seq<Entry>)
    requires EntriesPlain(es)
    ensures NulledEntries(es) == es
    decreases es, 0
  {
    if es != [] {
      PlainInStays(es[0]);
      EntriesPlainStay(es[1..]);
    }
  }

  lemma {:induction false} PlainInStays(e: Entry)
    requires PlainIn(e)
    ensures NulledIn(e) == e.value
    decreases e, 1
  {
    PlainStays(e.value);
  }

  /**
   Whole buffers: the web decoder accepts one, with text keys, exactly if the shared decoder reads one item up to
   its end and the guards hold. The item is the same, floats apart.
   */
  lemma AcceptedMeansTheSame(buf: seq<byte>)
    ensures Web.DecodeWhole(buf).Ok? && TextKeyed(buf, 0) <==>
            Shared.Read(buf, 0).Ok? && Guarded(buf, 0) && Shared.Read(buf, 0).value.1 == |buf|
    ensures Web.DecodeWhole(buf).Ok? && TextKeyed(buf, 0) ==>
              && Shared.Read(buf, 0).value.0 == Nulled(Web.DecodeWhole(buf).value)
              && (Plain(Web.DecodeWhole(buf).value) ==> Shared.Read(buf, 0).value.0 == Web.DecodeWhole(buf).value)
  {
    hide Web.Decode, Shared.Read, TextKeyed, Guarded;
    ItemAgrees(buf, 0);
    if Web.DecodeWhole(buf).Ok? && Plain(Web.DecodeWhole(buf).value) {
      PlainStays(Web.DecodeWhole(buf).value);
    }
  }

  /** Strings of definite length: the shared decoder takes what octets there are, the web decoder wants them all. */
  lemma StringsExact(buf: seq<byte>, pos: nat, n: nat, start: nat)
    requires pos < |buf| && (buf[pos] / 32 == 2 || buf[pos] / 32 == 3) && buf[pos] % 32 != 31
    requires Web.ReadSafe(buf, pos + 1, buf[pos] % 32) == Ok((n, start))
    ensures Shared.Read(buf, pos) == Ok((StringValue(buf[pos] / 32 == 3, Shared.Slice(buf, start, n)), start + n))
    ensures Web.Decode(buf, pos) == if start + n <= |buf| then Shared.Read(buf, pos) else Err(Truncated)
  {
    hide Web.DecodeItems, Web.DecodePairs, Web.DecodeOpen, Shared.ReadItems, Shared.ReadPairs, Shared.ReadOpen;
    assert start + n <= |buf| ==> Shared.Slice(buf, start, n) == buf[start..start + n];
  }

  /** Guards matter: buffers that the shared decoder reads and the web decoder refuses. */
  lemma SharedIsLenient()
    ensures Shared.Read([0x45], 0) == Ok((ByteString([]), 6)) && Web.DecodeWhole([0x45]).Err?
    ensures Shared.Read([0xff], 0) == Ok((Break, 1)) && Web.DecodeWhole([0xff]).Err?
    ensures Shared.Read([0xf8, 0x00], 0) == Ok((Null, 2)) && Web.DecodeWhole([0xf8, 0x00]).Err?
    ensures Shared.Read([0xa1, 0xff], 0) == Ok((Dict([]), 2)) && Web.DecodeWhole([0xa1, 0xff]).Err?
  {
    assert Shared.Slice([0x45], 1, 5) == [];
    var pair: seq<byte> := [0xa1, 0xff];
    StopIsBreak(pair, 1);
    assert Shared.ReadPairs(pair, 1, 1, []) == Ok((Dict([]), 2));
    assert Web.Decode(pair, 1).Err?;
  }

  /** So does the kind of a chunk: a byte string with a text chunk. */
  lemma ChunkKindsDiffer(buf: seq<byte>)
    requires buf == [0x5f, 0x61, 0x41, 0xff]
    ensures Shared.Read(buf, 0) == Ok((ByteString([0x41]), 4)) && Web.DecodeWhole(buf) == Err(BadChunk)
  {
    StopIsBreak(buf, 3);
    StringsExact(buf, 1, 1, 2);
    var none: seq<byte> := [];
    assert Shared.Slice(buf, 2, 1) == [0x41] && none + [0x41] == [0x41];
    assert Shared.ReadChunks(buf, 3, false, none + [0x41]) == Ok((ByteString([0x41]), 4));
    assert Shared.ReadChunks(buf, 1, false, none) == Ok((ByteString([0x41]), 4));
    assert Web.DecodeChunks(buf, 1, false, none) == Err(BadChunk);
    assert Web.Decode(buf, 0) == Web.DecodeOpen(buf, 1, 2) == Web.DecodeChunks(buf, 1, false, none);
  }
}
