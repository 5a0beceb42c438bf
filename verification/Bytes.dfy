/** Octets, big-endian numbers and the Result type shared by the codec models. */
module Bytes {

  type byte = b: int | 0 <= b < 256

  datatype Result<+T, +E> = Ok(value: T) | Err(error: E) {
    predicate IsFailure() {
      Err?
    }

    function PropagateFailure<U>(): Result<U, E>
      requires Err?
    {
      Err(error)
    }

    function Extract(): T
      requires Ok?
    {
      value
    }
  }

  /** The number a string of octets denotes, most significant octet first. */
  function BigEndian(s: seq<byte>): nat {
    if s == [] then 0 else BigEndian(s[..|s| - 1]) * 256 + s[|s| - 1]
  }

  /** The shortest big-endian writing of n; zero takes no octet. */
  function ToBigEndian(n: nat): seq<byte> {
    if n == 0 then [] else ToBigEndian(n / 256) + [n % 256]
  }

  lemma {:induction false} ToBigEndianValue(n: nat)
    ensures BigEndian(ToBigEndian(n)) == n
    ensures n != 0 ==> ToBigEndian(n) != [] && ToBigEndian(n)[0] != 0
  {
    if n != 0 {
      ToBigEndianValue(n / 256);
      assert ToBigEndian(n)[..|ToBigEndian(n)| - 1] == ToBigEndian(n / 256);
    }
  }

  function Pow256(k: nat): (p: nat)
    ensures p > 0
  {
    if k == 0 then 1 else 256 * Pow256(k - 1)
  }

  lemma {:induction false} BigEndianBound(s: seq<byte>)
    ensures BigEndian(s) < Pow256(|s|)
  {
    if s != [] {
      BigEndianBound(s[..|s| - 1]);
    }
  }

  lemma {:induction false} BigEndianAppend(a: seq<byte>, b: seq<byte>)
    ensures BigEndian(a + b) == BigEndian(a) * Pow256(|b|) + BigEndian(b)
  {
    if b == [] {
      assert a + b == a;
    } else {
      var b' := b[..|b| - 1];
      BigEndianAppend(a, b');
      assert (a + b)[..|a + b| - 1] == a + b';
      calc {
        BigEndian(a + b);
        (BigEndian(a) * Pow256(|b'|) + BigEndian(b')) * 256 + b[|b| - 1];
        BigEndian(a) * (256 * Pow256(|b'|)) + BigEndian(b') * 256 + b[|b| - 1];
      }
    }
  }

  /** Two writings of one length denote the same number only if they are the same octets. */
  lemma {:induction false} BigEndianInjective(a: seq<byte>, b: seq<byte>)
    requires |a| == |b| && BigEndian(a) == BigEndian(b)
    ensures a == b
  {
    if a != [] {
      BigEndianInjective(a[..|a| - 1], b[..|b| - 1]);
      assert a == a[..|a| - 1] + [a[|a| - 1]];
      assert b == b[..|b| - 1] + [b[|b| - 1]];
    }
  }

  lemma DivMod256(high: nat, low: byte)
    ensures (high * 256 + low) / 256 == high && (high * 256 + low) % 256 == low
  {
  }

  lemma ToBigEndianSnoc(n: nat, low: byte)
    requires n != 0 || low != 0
    ensures ToBigEndian(n * 256 + low) == ToBigEndian(n) + [low]
  {
    DivMod256(n, low);
  }

  /** No writing of n is shorter than ToBigEndian(n). */
  lemma {:induction false} ToBigEndianShortest(s: seq<byte>)
    ensures |ToBigEndian(BigEndian(s))| <= |s|
  {
    if s != [] && BigEndian(s) != 0 {
      ToBigEndianShortest(s[..|s| - 1]);
      ToBigEndianSnoc(BigEndian(s[..|s| - 1]), s[|s| - 1]);
    }
  }

  /** A writing without a leading zero octet is the one ToBigEndian produces. */
  lemma {:induction false} ToBigEndianInverse(s: seq<byte>)
    requires s != [] ==> s[0] != 0
    ensures ToBigEndian(BigEndian(s)) == s
  {
    if s != [] {
      var init := s[..|s| - 1];
      ToBigEndianInverse(init);
      ToBigEndianSnoc(BigEndian(init), s[|s| - 1]);
      assert s == init + [s[|s| - 1]];
    }
  }

  /** n fits in k octets exactly when its shortest writing has at most k. */
  lemma {:induction false} ToBigEndianLength(n: nat, k: nat)
    ensures |ToBigEndian(n)| <= k <==> n < Pow256(k)
    decreases k
  {
    if k == 0 {
    } else if n != 0 {
      ToBigEndianLength(n / 256, k - 1);
      assert n / 256 < Pow256(k - 1) <==> n < 256 * Pow256(k - 1);
    }
  }

  lemma Pow256Values()
    ensures Pow256(1) == 0x100 && Pow256(2) == 0x1_0000
    ensures Pow256(3) == 0x100_0000 && Pow256(4) == 0x1_0000_0000
  {
    assert Pow256(1) == 256 * Pow256(0);
    assert Pow256(2) == 256 * Pow256(1);
    assert Pow256(3) == 256 * Pow256(2);
    assert Pow256(4) == 256 * Pow256(3);
  }

  /** n in exactly k octets, dropping what does not fit. */
  function FixedBigEndian(n: nat, k: nat): (s: seq<byte>)
    ensures |s| == k
  {
    if k == 0 then [] else FixedBigEndian(n / 256, k - 1) + [n % 256]
  }

  lemma {:induction false} FixedBigEndianValue(n: nat, k: nat)
    requires n < Pow256(k)
    ensures BigEndian(FixedBigEndian(n, k)) == n
  {
    if k > 0 {
      FixedBigEndianValue(n / 256, k - 1);
      assert FixedBigEndian(n, k)[..k - 1] == FixedBigEndian(n / 256, k - 1);
    }
  }

  function Reversed(s: seq<byte>): (r: seq<byte>)
    ensures |r| == |s|
    ensures forall i :: 0 <= i < |s| ==> r[i] == s[|s| - 1 - i]
  {
    if s == [] then [] else Reversed(s[1..]) + [s[0]]
  }

  lemma ReversedInjective(s: seq<byte>, t: seq<byte>)
    requires Reversed(s) == Reversed(t)
    ensures s == t
  {
    hide Reversed;
    assert |s| == |t|;
    assert forall i :: 0 <= i < |s| ==> s[i] == Reversed(s)[|s| - 1 - i];
    assert forall i :: 0 <= i < |t| ==> t[i] == Reversed(t)[|t| - 1 - i];
  }

  lemma SplitPrefix(a: seq<byte>, b: seq<byte>, c: seq<byte>, d: seq<byte>)
    requires |a| == |c| && a + b == c + d
    ensures a == c && b == d
  {
    assert a == (a + b)[..|a|] && c == (c + d)[..|a|];
    assert b == (a + b)[|a|..] && d == (c + d)[|a|..];
  }

  lemma SplitSuffix(a: seq<byte>, b: seq<byte>, c: seq<byte>, d: seq<byte>)
    requires |b| == |d| && a + b == c + d
    ensures a == c && b == d
  {
    assert |a + b| == |c + d|;
    SplitPrefix(a, b, c, d);
  }

  /** The octets e stand in buf at pos. */
  predicate At(buf: seq<byte>, pos: nat, e: seq<byte>) {
    pos + |e| <= |buf| && buf[pos..pos + |e|] == e
  }

  lemma AtSplit(buf: seq<byte>, pos: nat, a: seq<byte>, b: seq<byte>)
    ensures At(buf, pos, a + b) <==> At(buf, pos, a) && At(buf, pos + |a|, b)
  {
    if At(buf, pos, a + b) {
      assert (a + b)[..|a|] == buf[pos..pos + |a|];
      assert (a + b)[|a|..] == buf[pos + |a|..pos + |a| + |b|];
    }
    if At(buf, pos, a) && At(buf, pos + |a|, b) {
      assert buf[pos..pos + |a + b|] == buf[pos..pos + |a|] + buf[pos + |a|..pos + |a| + |b|];
    }
  }
}
