/**
 The words of the fulfilment digest: contracts/MorpheusOracle/MorpheusOracle.Fulfillment.cs and its off-chain
 twin packages/shared/src/neo-encoding.js.
 */
module Words {
  import opened Bytes
  import opened Prelude

  // ----- uint256 words -----

  /** The runtime's integer to bytes conversion for n >= 0: minimal little-endian two's complement; zero is empty. */
  function ToByteArray(n: nat): seq<byte> {
    var big := ToBigEndian(n);
    Reversed(if big != [] && big[0] >= 128 then [0] + big else big)
  }

  function Zeros(k: nat): (s: seq<byte>)
    ensures |s| == k && forall i :: 0 <= i < k ==> s[i] == 0
  {
    seq(k, _ => 0)
  }

  lemma {:induction false} LeadingZeros(k: nat, s: seq<byte>)
    ensures BigEndian(Zeros(k) + s) == BigEndian(s)
    decreases |s|, k
  {
    var t := Zeros(k) + s;
    if s != [] {
      LeadingZeros(k, s[..|s| - 1]);
      assert t[..|t| - 1] == Zeros(k) + s[..|s| - 1];
    } else if k != 0 {
      LeadingZeros(k - 1, s);
      assert t[..|t| - 1] == Zeros(k - 1) + s;
    }
  }

  datatype WordError = Negative | Overflow

  /** The digest's 32-octet word, for exactly the values from 0 to 2^256 - 1. */
  function Word(value: int): Result<seq<byte>, WordError> {
    if value < 0 then Err(Negative)
    else if value >= Pow256(32) then Err(Overflow)
    else Ok(FixedBigEndian(value, 32))
  }

  method ToUInt256Bytes(value: int) returns (r: Result<seq<byte>, WordError>)
    ensures r == Word(value)
  {
    hide Pow256, ToBigEndian, ToByteArray, BigEndian, FixedBigEndian;
    if value < 0 {
      return Err(Negative);
    }
    var raw := ToByteArray(value);
    ByteArrayLength(value);
    var length := |raw|;
    if length > 32 {
      if !(length == 33 && raw[32] == 0) {
        return Err(Overflow);
      }
      length := 32;
    }
    var output := new byte[32](_ => 0);
    var index := 0;
    while index < length
      invariant 0 <= index <= length
      invariant forall j :: 0 <= j < 32 ==> output[j] == if 31 - j < index then raw[31 - j] else 0
    {
      output[31 - index] := raw[index];
      index := index + 1;
    }
    ByteArrayWord(value, raw, length, output[..]);
    return Ok(output[..]);
  }

  /** The runtime's octets are those of the shortest big-endian writing, reversed, and at most one sign octet. */
  lemma ByteArrayShape(n: nat)
    ensures var raw, big := ToByteArray(n), ToBigEndian(n);
            && |big| <= |raw| <= |big| + 1
            && (forall i :: 0 <= i < |big| ==> raw[i] == big[|big| - 1 - i])
            && (|raw| > |big| ==> raw[|big|] == 0)
            && (|raw| == |big| && big != [] ==> raw[|big| - 1] != 0)
  {
    hide BigEndian;
    ToBigEndianValue(n);
  }

  /** The runtime's octets determine the number. */
  lemma ByteArrayInjective(m: nat, n: nat)
    requires ToByteArray(m) == ToByteArray(n)
    ensures m == n
  {
    hide ToBigEndian, BigEndian;
    var a, b := ToBigEndian(m), ToBigEndian(n);
    var a' := if a != [] && a[0] >= 128 then [0] + a else a;
    var b' := if b != [] && b[0] >= 128 then [0] + b else b;
    ReversedInjective(a', b');
    ToBigEndianValue(m);
    ToBigEndianValue(n);
    LeadingZeros(1, a);
    LeadingZeros(1, b);
    assert Zeros(1) == [0];
  }

  /** Which of them fit in 32 octets: a 33rd may only be the sign octet. */
  lemma ByteArrayLength(n: nat)
    ensures var raw := ToByteArray(n);
            n < Pow256(32) <==> |raw| <= 32 || (|raw| == 33 && raw[32] == 0)
  {
    hide Pow256, ToBigEndian, ToByteArray;
    ToBigEndianLength(n, 32);
    ByteArrayShape(n);
  }

  lemma ByteArrayWord(n: nat, raw: seq<byte>, length: nat, word: seq<byte>)
    requires raw == ToByteArray(n) && n < Pow256(32)
    requires length == (if |raw| > 32 then 32 else |raw|) && |word| == 32
    requires forall j :: 0 <= j < 32 ==> word[j] == if 31 - j < length then raw[31 - j] else 0
    ensures word == FixedBigEndian(n, 32)
  {
    hide Pow256, ToBigEndian, ToByteArray, BigEndian, FixedBigEndian;
    var big := ToBigEndian(n);
    ByteArrayShape(n);
    ToBigEndianLength(n, 32);
    assert word == Zeros(32 - |big|) + big;
    LeadingZeros(32 - |big|, big);
    ToBigEndianValue(n);
    FixedBigEndianValue(n, 32);
    BigEndianInjective(word, FixedBigEndian(n, 32));
  }

  lemma WordIsBigEndian(value: int)
    ensures Word(value).Ok? ==> |Word(value).value| == 32 && BigEndian(Word(value).value) == value
  {
    hide Pow256, BigEndian, FixedBigEndian;
    if Word(value).Ok? {
      FixedBigEndianValue(value, 32);
    }
  }

  // ----- The same word by way of hexadecimal -----

  type nibble = d: int | 0 <= d < 16

  /** BigInt.toString(16): no leading zero, except for zero itself. */
  function Hex(n: nat): (s: seq<nibble>)
    ensures s != []
  {
    if n < 16 then [n] else Hex(n / 16) + [n % 16]
  }

  function Octet(high: nibble, low: nibble): byte {
    high * 16 + low
  }

  /** Buffer.from(text, 'hex') for a text of even length. */
  function FromHex(s: seq<nibble>): (b: seq<byte>)
    requires |s| % 2 == 0
    ensures |b| == |s| / 2
  {
    if s == [] then [] else FromHex(s[..|s| - 2]) + [Octet(s[|s| - 2], s[|s| - 1])]
  }

  function PadStart(s: seq<nibble>, width: nat): (t: seq<nibble>)
    ensures |t| == if |s| < width then width else |s|
  {
    if |s| >= width then s else seq(width - |s|, _ => 0) + s
  }

  function HexValue(s: seq<nibble>): nat {
    if s == [] then 0 else HexValue(s[..|s| - 1]) * 16 + s[|s| - 1]
  }

  function EncodeUint256Word(parsed: int): Result<seq<byte>, WordError> {
    if parsed < 0 then Err(Negative)
    else
      var hex := Hex(parsed);
      if |hex| > 64 then Err(Overflow) else Ok(FromHex(PadStart(hex, 64)))
  }

  lemma {:induction false} HexInverse(n: nat)
    ensures HexValue(Hex(n)) == n
  {
    if n < 16 {
      assert Hex(n)[..|Hex(n)| - 1] == [];
    } else {
      HexInverse(n / 16);
      assert Hex(n)[..|Hex(n)| - 1] == Hex(n / 16);
    }
  }

  lemma {:induction false} FromHexValue(s: seq<nibble>)
    requires |s| % 2 == 0
    ensures BigEndian(FromHex(s)) == HexValue(s)
  {
    if s != [] {
      var t := s[..|s| - 2];
      FromHexValue(t);
      assert s[..|s| - 1][..|s| - 2] == t;
      assert HexValue(s[..|s| - 1]) == HexValue(t) * 16 + s[|s| - 2];
      assert FromHex(s)[..|FromHex(s)| - 1] == FromHex(t);
    }
  }

  lemma {:induction false} PadKeepsValue(k: nat, s: seq<nibble>)
    ensures HexValue(seq(k, _ => 0) + s) == HexValue(s)
    decreases |s|, k
  {
    var t := seq(k, _ => 0) + s;
    if s != [] {
      PadKeepsValue(k, s[..|s| - 1]);
      assert t[..|t| - 1] == seq(k, _ => 0) + s[..|s| - 1];
    } else if k != 0 {
      PadKeepsValue(k - 1, s);
      assert t[..|t| - 1] == seq(k - 1, _ => 0) + s;
    }
  }

  lemma {:induction false} HexLength(n: nat, k: nat)
    requires k > 0
    ensures |Hex(n)| <= 2 * k <==> n < Pow256(k)
  {
    if n >= 256 {
      assert Hex(n) == Hex(n / 16 / 16) + [n / 16 % 16] + [n % 16];
      assert n / 16 / 16 == n / 256;
      if k == 1 {
        assert Pow256(1) == 256 * Pow256(0);
      } else {
        HexLength(n / 256, k - 1);
        assert n / 256 < Pow256(k - 1) <==> n < 256 * Pow256(k - 1);
      }
    } else {
      Pow256AtLeast(k);
    }
  }

  lemma {:induction false} Pow256AtLeast(k: nat)
    requires k > 0
    ensures Pow256(k) >= 256
  {
    if k > 1 {
      Pow256AtLeast(k - 1);
    }
  }

  /** Signer and contract agree on every integer: same acceptance, same error, same 32 octets. */
  lemma WordsAgree(value: int)
    ensures EncodeUint256Word(value) == Word(value)
  {
    hide Pow256, Hex, HexValue, FromHex, BigEndian, FixedBigEndian;
    if value >= 0 {
      HexLength(value, 32);
      HexInverse(value);
      if |Hex(value)| <= 64 {
        var padded := PadStart(Hex(value), 64);
        FromHexValue(padded);
        PadKeepsValue(64 - |Hex(value)|, Hex(value));
        FixedBigEndianValue(value, 32);
        BigEndianInjective(FromHex(padded), FixedBigEndian(value, 32));
      }
    }
  }

  // ----- The network magic -----

  /** Both sides' four octets, least significant first: the contract's divisions. */
  function NetworkMagicLe4(net: nat): (s: seq<byte>) {
    [net % 256, net / 0x100 % 256, net / 0x1_0000 % 256, net / 0x100_0000 % 256]
  }

  /** magic >>> 0, then writeUInt32LE, which stores an octet and shifts, four times. */
  function NeoNetworkMagicLe4(magic: int): (s: seq<byte>) {
    var v0 := magic % 0x1_0000_0000;
    var v1 := v0 / 256;
    var v2 := v1 / 256;
    var v3 := v2 / 256;
    [v0 % 256, v1 % 256, v2 % 256, v3 % 256]
  }

  /** Cutting n down to a multiple of 256 and then dropping an octet is the same as doing it the other way round. */
  lemma ModStep(n: nat, m: nat)
    requires m > 0
    ensures n % (256 * m) % 256 == n % 256 && n % (256 * m) / 256 == n / 256 % m
  {
    var q, r := n / (256 * m), n % (256 * m);
    assert n == q * (256 * m) + r == (q * m + r / 256) * 256 + r % 256;
    QuotientUnique(n, 256, q * m + r / 256, r % 256);
    assert r / 256 < m;
    QuotientUnique(n / 256, m, q, r / 256);
  }

  /** The two encoders agree on every magic, and the octets determine its low 32 bits. */
  lemma MagicsAgree(net: nat)
    ensures NetworkMagicLe4(net) == NeoNetworkMagicLe4(net)
    ensures BigEndian(Reversed(NetworkMagicLe4(net))) == net % 0x1_0000_0000
  {
    hide Reversed;
    var n1 := net / 256;
    var n2 := n1 / 256;
    ModStep(net, 0x100_0000);
    ModStep(n1, 0x1_0000);
    ModStep(n2, 0x100);
    var s := NetworkMagicLe4(net);
    assert s == [net % 256, n1 % 256, n2 % 256, n2 / 256 % 256];
    FourDigits(net % 0x1_0000_0000);
    assert Reversed(s) == [s[3], s[2], s[1], s[0]];
    FourOctets(s[3], s[2], s[1], s[0]);
  }

  lemma FourDigits(v: nat)
    ensures v == ((v / 256 / 256 / 256 * 256 + v / 256 / 256 % 256) * 256 + v / 256 % 256) * 256 + v % 256
  {
  }

  lemma FourOctets(a: byte, b: byte, c: byte, d: byte)
    ensures BigEndian([a, b, c, d]) == ((a * 256 + b) * 256 + c) * 256 + d
  {
    assert [a, b, c, d][..3] == [a, b, c] && [a, b, c][..2] == [a, b] && [a, b][..1] == [a];
    assert BigEndian([a]) == a;
    assert BigEndian([a, b]) == a * 256 + b;
    assert BigEndian([a, b, c]) == (a * 256 + b) * 256 + c;
  }

  // ----- The digest preimage -----

  /** What a fulfilment signature covers; a null text or result is signed as the empty one. */
  datatype Fulfilment = Fulfilment(
    requestId: int,
    appId: seq<byte>,
    moduleId: seq<byte>,
    operation: seq<byte>,
    success: bool,
    result: seq<byte>,
    error: seq<byte>,
    scriptHash: seq<byte>,
    network: nat)

  /** "miniapp-os-fulfillment-v1". */
  const FULFILLMENT_SIGNATURE_DOMAIN: seq<byte> := [
    109, 105, 110, 105, 97, 112, 112, 45, 111, 115, 45, 102, 117, 108, 102, 105, 108, 108, 109, 101, 110, 116, 45,
    118, 49]

  type Hash = seq<byte> -> seq<byte>

  /** ComputeFulfillmentDigest up to its final hash; sha stands for SHA-256, of which only the length is used. */
  function Preimage(sha: Hash, f: Fulfilment): Result<seq<byte>, WordError> {
    var word :- Word(f.requestId);
    Ok(FULFILLMENT_SIGNATURE_DOMAIN + word + sha(f.appId) + sha(f.moduleId) + sha(f.operation)
       + [if f.success then 1 else 0] + sha(f.result) + sha(f.error) + f.scriptHash + NetworkMagicLe4(f.network))
  }

  // ----- The signer's preimage -----

  function Concat(parts: seq<seq<byte>>): seq<byte> {
    if parts == [] then [] else parts[0] + Concat(parts[1..])
  }

  /** An ASCII text as its octets; another character would be a question mark. */
  function Ascii(text: string): (s: seq<byte>)
    ensures |s| == |text|
  {
    seq(|text|, i requires 0 <= i < |text| => if text[i] as int < 128 then text[i] as int else 63)
  }

  const FULFILLMENT_DOMAIN_TEXT := "miniapp-os-fulfillment-v1"

  /**
   workers/morpheus-relayer/src/router.js, buildFulfillmentDigestBytes, up to its final hash, for a deployment given
   by its script hash as displayed, most significant octet first.
   */
  function SignerPreimage(sha: Hash, f: Fulfilment, display: seq<byte>): Result<seq<byte>, WordError> {
    var word :- EncodeUint256Word(f.requestId);
    Ok(Concat([Ascii(FULFILLMENT_DOMAIN_TEXT), word, sha(f.appId), sha(f.moduleId), sha(f.operation),
               [if f.success then 1 else 0], sha(f.result), sha(f.error), Reversed(display),
               NeoNetworkMagicLe4(f.network)]))
  }

  lemma FulfilmentDomain()
    ensures Ascii(FULFILLMENT_DOMAIN_TEXT) == FULFILLMENT_SIGNATURE_DOMAIN
  {
  }

  lemma {:induction false} ConcatSnoc(parts: seq<seq<byte>>, last: seq<byte>)
    ensures Concat(parts + [last]) == Concat(parts) + last
  {
    if parts == [] {
      assert parts + [last] == [last] && [last][1..] == [];
    } else {
      ConcatSnoc(parts[1..], last);
      assert (parts + [last])[1..] == parts[1..] + [last];
    }
  }

  /** Contract and signer hash the same octets, for every request, outcome and deployment. */
  lemma SignerMatchesContract(sha: Hash, f: Fulfilment, display: seq<byte>)
    requires f.scriptHash == Reversed(display)
    ensures SignerPreimage(sha, f, display) == Preimage(sha, f)
  {
    hide Word, EncodeUint256Word, NetworkMagicLe4, NeoNetworkMagicLe4, Reversed, Ascii, Concat;
    FulfilmentDomain();
    WordsAgree(f.requestId);
    MagicsAgree(f.network);
    if Word(f.requestId).Ok? {
      var parts := [Ascii(FULFILLMENT_DOMAIN_TEXT), Word(f.requestId).value, sha(f.appId), sha(f.moduleId),
                    sha(f.operation), [if f.success then 1 else 0], sha(f.result), sha(f.error), Reversed(display),
                    NeoNetworkMagicLe4(f.network)];
      ConcatTen(parts);
    }
  }

  lemma ConcatTen(p: seq<seq<byte>>)
    requires |p| == 10
    ensures Concat(p) == p[0] + p[1] + p[2] + p[3] + p[4] + p[5] + p[6] + p[7] + p[8] + p[9]
  {
    ConcatFive(p[..5]);
    ConcatFive(p[5..]);
    ConcatAppend(p[..5], p[5..]);
    assert p == p[..5] + p[5..];
  }

  lemma ConcatFive(p: seq<seq<byte>>)
    requires |p| == 5
    ensures Concat(p) == p[0] + p[1] + p[2] + p[3] + p[4]
  {
    var p1, p2, p3, p4 := p[..1], p[..2], p[..3], p[..4];
    assert p1 == [] + [p[0]] && p2 == p1 + [p[1]] && p3 == p2 + [p[2]] && p4 == p3 + [p[3]] && p == p4 + [p[4]];
    ConcatSnoc([], p[0]);
    ConcatSnoc(p1, p[1]);
    ConcatSnoc(p2, p[2]);
    ConcatSnoc(p3, p[3]);
    ConcatSnoc(p4, p[4]);
  }

  lemma ConcatThree(p: seq<seq<byte>>)
    requires |p| == 3
    ensures Concat(p) == p[0] + p[1] + p[2]
  {
    var p1, p2 := p[..1], p[..2];
    assert p1 == [] + [p[0]] && p2 == p1 + [p[1]] && p == p2 + [p[2]];
    ConcatSnoc([], p[0]);
    ConcatSnoc(p1, p[1]);
    ConcatSnoc(p2, p[2]);
  }

  lemma {:induction false} ConcatAppend(a: seq<seq<byte>>, b: seq<seq<byte>>)
    ensures Concat(a + b) == Concat(a) + Concat(b)
  {
    if a == [] {
      assert a + b == b;
    } else {
      ConcatAppend(a[1..], b);
      assert (a + b)[1..] == a[1..] + b;
    }
  }

  /** Two fulfilments with one preimage agree on everything signed, each text up to its hash. */
  lemma PreimageInjective(sha: Hash, f: Fulfilment, g: Fulfilment)
    requires forall s :: |sha(s)| == 32
    requires |f.scriptHash| == 20 && |g.scriptHash| == 20
    requires Preimage(sha, f).Ok? && Preimage(sha, f) == Preimage(sha, g)
    ensures f.requestId == g.requestId && f.success == g.success && f.scriptHash == g.scriptHash
    ensures f.network % 0x1_0000_0000 == g.network % 0x1_0000_0000
    ensures sha(f.appId) == sha(g.appId) && sha(f.moduleId) == sha(g.moduleId) && sha(f.operation) == sha(g.operation)
    ensures sha(f.result) == sha(g.result) && sha(f.error) == sha(g.error)
  {
    hide Word, NetworkMagicLe4;
    var D := FULFILLMENT_SIGNATURE_DOMAIN;
    var wf, wg := Word(f.requestId).value, Word(g.requestId).value;
    var f1 := D + wf;
    var f2 := f1 + sha(f.appId);
    var f3 := f2 + sha(f.moduleId);
    var f4 := f3 + sha(f.operation);
    var f5 := f4 + [if f.success then 1 else 0];
    var f6 := f5 + sha(f.result);
    var f7 := f6 + sha(f.error);
    var f8 := f7 + f.scriptHash;
    var g1 := D + wg;
    var g2 := g1 + sha(g.appId);
    var g3 := g2 + sha(g.moduleId);
    var g4 := g3 + sha(g.operation);
    var g5 := g4 + [if g.success then 1 else 0];
    var g6 := g5 + sha(g.result);
    var g7 := g6 + sha(g.error);
    var g8 := g7 + g.scriptHash;
    MagicsAgree(f.network);
    MagicsAgree(g.network);
    SplitSuffix(f8, NetworkMagicLe4(f.network), g8, NetworkMagicLe4(g.network));
    SplitSuffix(f7, f.scriptHash, g7, g.scriptHash);
    SplitSuffix(f6, sha(f.error), g6, sha(g.error));
    SplitSuffix(f5, sha(f.result), g5, sha(g.result));
    SplitSuffix(f4, [if f.success then 1 else 0], g4, [if g.success then 1 else 0]);
    SplitSuffix(f3, sha(f.operation), g3, sha(g.operation));
    SplitSuffix(f2, sha(f.moduleId), g2, sha(g.moduleId));
    SplitSuffix(f1, sha(f.appId), g1, sha(g.appId));
    WordIsBigEndian(f.requestId);
    WordIsBigEndian(g.requestId);
    SplitSuffix(D, wf, D, wg);
  }
}
