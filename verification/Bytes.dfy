/**
 Byte strings and what the sources put into them:

   - fixed-width integers, most or least significant byte first, with round trips
     (BigEndian, LittleEndian);
   - the four-byte length word, which wraps at 2^32, and length-prefixed strings,
     which can be told apart below that bound (Word, LenPrefixed);
   - the order that Go gives to strings (Before);
   - facts about slices that the solver needs to be told (SplitUnique, SliceOfSlice).
 */
module Bytes {
  import opened Sequences

  type byte = x: int | 0 <= x < 256

  type Bytes = seq<byte>

  /** The number of values that fit into n bytes. */
  function Capacity(n: nat): (c: nat)
    ensures c > 0
  {
    if n == 0 then 1 else 256 * Capacity(n - 1)
  }

  const U32: nat := 0x1_0000_0000
  const U64: nat := 0x1_0000_0000_0000_0000

  lemma WordSizes()
    ensures Capacity(4) == U32
    ensures Capacity(8) == U64
  {
    assert Capacity(1) == 256;
    assert Capacity(2) == 0x1_0000;
    assert Capacity(3) == 0x100_0000;
    assert Capacity(4) == 0x1_0000_0000;
    assert Capacity(5) == 0x100_0000_0000;
    assert Capacity(6) == 0x1_0000_0000_0000;
    assert Capacity(7) == 0x100_0000_0000_0000;
    assert Capacity(8) == 0x1_0000_0000_0000_0000;
  }

  /** The n low-order bytes of v, most significant first. */
  function BigEndian(v: nat, n: nat): (b: Bytes)
    ensures |b| == n
  {
    if n == 0 then [] else BigEndian(v / 256, n - 1) + [v % 256]
  }

  function FromBigEndian(b: Bytes): (v: nat)
    ensures v < Capacity(|b|)
  {
    if b == [] then 0
    else 256 * FromBigEndian(b[..|b| - 1]) + b[|b| - 1]
  }

  lemma {:induction false} BigEndianRoundTrip(v: nat, n: nat)
    requires v < Capacity(n)
    ensures FromBigEndian(BigEndian(v, n)) == v
  {
    if n > 0 {
      BigEndianRoundTrip(v / 256, n - 1);
      var b := BigEndian(v, n);
      assert b[..|b| - 1] == BigEndian(v / 256, n - 1);
    }
  }

  lemma BigEndianInjective(v: nat, w: nat, n: nat)
    requires v < Capacity(n) && w < Capacity(n) && BigEndian(v, n) == BigEndian(w, n)
    ensures v == w
  {
    BigEndianRoundTrip(v, n);
    BigEndianRoundTrip(w, n);
  }

  lemma {:induction false} BigEndianCanonical(b: Bytes)
    ensures BigEndian(FromBigEndian(b), |b|) == b
  {
    if b != [] {
      BigEndianCanonical(b[..|b| - 1]);
      var v := FromBigEndian(b);
      assert v / 256 == FromBigEndian(b[..|b| - 1]) && v % 256 == b[|b| - 1];
      assert b == b[..|b| - 1] + [b[|b| - 1]];
    }
  }

  /** The n low-order bytes of v, least significant first. */
  function LittleEndian(v: nat, n: nat): (b: Bytes)
    ensures |b| == n
  {
    if n == 0 then [] else [v % 256] + LittleEndian(v / 256, n - 1)
  }

  function FromLittleEndian(b: Bytes): (v: nat)
    ensures v < Capacity(|b|)
  {
    if b == [] then 0 else b[0] + 256 * FromLittleEndian(b[1..])
  }

  lemma {:induction false} LittleEndianRoundTrip(v: nat, n: nat)
    requires v < Capacity(n)
    ensures FromLittleEndian(LittleEndian(v, n)) == v
  {
    if n > 0 {
      LittleEndianRoundTrip(v / 256, n - 1);
      assert LittleEndian(v, n)[1..] == LittleEndian(v / 256, n - 1);
    }
  }

  /** v as a 32-bit big-endian integer; a larger v wraps, as uint32(v) does. */
  function Word(v: nat): (b: Bytes)
    ensures |b| == 4
  {
    BigEndian(v % U32, 4)
  }

  lemma WordInjective(v: nat, w: nat)
    requires v < U32 && w < U32 && Word(v) == Word(w)
    ensures v == w
  {
    WordSizes();
    assert v % U32 == v && w % U32 == w;
    BigEndianInjective(v, w, 4);
  }

  /** A byte string behind its length. */
  function LenPrefixed(b: Bytes): (p: Bytes)
    ensures |p| == 4 + |b|
  {
    Word(|b|) + b
  }

  /** Below 2^32 bytes a length-prefixed item is self-delimiting. */
  lemma LenPrefixedInjective(a: Bytes, r: Bytes, b: Bytes, s: Bytes)
    requires |a| < U32 && |b| < U32
    requires LenPrefixed(a) + r == LenPrefixed(b) + s
    ensures a == b && r == s
  {
    Associative(Word(|a|), a, r);
    Associative(Word(|b|), b, s);
    SplitUnique(Word(|a|), a + r, Word(|b|), b + s);
    WordInjective(|a|, |b|);
    SplitUnique(a, r, b, s);
  }

  lemma SplitUnique(p: Bytes, x: Bytes, q: Bytes, y: Bytes)
    requires |p| == |q| && p + x == q + y
    ensures p == q && x == y
  {
    assert p == (p + x)[..|p|] && q == (q + y)[..|q|];
    assert x == (p + x)[|p|..] && y == (q + y)[|q|..];
  }

  // The order of Go's strings: bytewise, a proper prefix first.

  predicate Before(a: Bytes, b: Bytes) {
    if b == [] then false
    else if a == [] then true
    else a[0] < b[0] || (a[0] == b[0] && Before(a[1..], b[1..]))
  }

  /** b has the greater byte at the first difference, or goes on after a. */
  ghost predicate GoesBefore(a: Bytes, b: Bytes) {
    || (|a| < |b| && Agree(a, b, |a|))
    || exists k: nat :: k < |a| && k < |b| && a[k] < b[k] && Agree(a, b, k)
  }

  /** They agree up to k. */
  predicate Agree(a: Bytes, b: Bytes, k: nat)
    requires k <= |a| && k <= |b|
  {
    forall i :: 0 <= i < k ==> a[i] == b[i]
  }

  lemma AgreeNext(a: Bytes, b: Bytes, k: nat)
    requires k < |a| && k < |b| && a[0] == b[0]
    ensures Agree(a, b, k + 1) <==> Agree(a[1..], b[1..], k)
  {
    if Agree(a[1..], b[1..], k) {
      forall i | 0 <= i < k + 1 ensures a[i] == b[i] { if i > 0 { assert a[1..][i - 1] == b[1..][i - 1]; } }
    }
  }

  lemma GoesBeforeNext(a: Bytes, b: Bytes)
    requires a != [] && b != [] && a[0] == b[0]
    ensures GoesBefore(a, b) <==> GoesBefore(a[1..], b[1..])
  {
    forall k: nat | k < |a| && k < |b| ensures Agree(a, b, k + 1) <==> Agree(a[1..], b[1..], k) { AgreeNext(a, b, k); }
    if GoesBefore(a, b) && |a| < |b| && Agree(a, b, |a|) {
      assert Agree(a[1..], b[1..], |a| - 1);
    } else if GoesBefore(a, b) {
      var k: nat :| k < |a| && k < |b| && a[k] < b[k] && Agree(a, b, k);
      LaterDifference(a, b, k - 1);
    } else if GoesBefore(a[1..], b[1..]) {
      EarlierDifference(a, b);
    }
  }

  lemma LaterDifference(a: Bytes, b: Bytes, k: nat)
    requires k + 1 < |a| && k + 1 < |b| && a[k + 1] < b[k + 1] && Agree(a[1..], b[1..], k)
    ensures GoesBefore(a[1..], b[1..])
  {
    assert a[1..][k] < b[1..][k];
  }

  lemma EarlierDifference(a: Bytes, b: Bytes)
    requires a != [] && b != [] && a[0] == b[0] && GoesBefore(a[1..], b[1..])
    ensures GoesBefore(a, b)
  {
    if |a| < |b| && Agree(a[1..], b[1..], |a| - 1) {
      AgreeNext(a, b, |a| - 1);
    } else {
      var k: nat :| k < |a[1..]| && k < |b[1..]| && a[1..][k] < b[1..][k] && Agree(a[1..], b[1..], k);
      AgreeNext(a, b, k);
      assert a[k + 1] < b[k + 1];
    }
  }

  lemma {:induction false} BeforeMeaning(a: Bytes, b: Bytes)
    ensures Before(a, b) <==> GoesBefore(a, b)
  {
    if a != [] && b != [] {
      if a[0] == b[0] {
        GoesBeforeNext(a, b);
        BeforeMeaning(a[1..], b[1..]);
      }
    }
  }

  lemma {:induction false} BeforeTotal(a: Bytes, b: Bytes)
    ensures a != b ==> Before(a, b) || Before(b, a)
    ensures !(Before(a, b) && Before(b, a))
    ensures !Before(a, a)
  {
    if a != [] && b != [] {
      BeforeTotal(a[1..], b[1..]);
      BeforeTotal(a[1..], a[1..]);
      assert a == [a[0]] + a[1..] && b == [b[0]] + b[1..];
    } else if a != [] {
      BeforeTotal(a[1..], a[1..]);
    }
  }

  lemma {:induction false} BeforeTransitive(a: Bytes, b: Bytes, c: Bytes)
    requires Before(a, b) && Before(b, c)
    ensures Before(a, c)
  {
    if a != [] && a[0] == b[0] && b[0] == c[0] {
      BeforeTransitive(a[1..], b[1..], c[1..]);
    }
  }

  lemma NotBeforeTransitive(a: Bytes, b: Bytes, c: Bytes)
    requires !Before(b, a) && !Before(c, b)
    ensures !Before(c, a)
  {
    BeforeTotal(a, b);
    BeforeTotal(b, c);
    BeforeTotal(a, c);
    if a != b && b != c {
      BeforeTransitive(a, b, c);
    }
  }

  lemma SliceOfSlice(s: Bytes, lo: nat, hi: nat, i: nat, j: nat)
    requires lo <= hi <= |s| && i <= j && lo + j <= hi
    ensures s[lo..hi][i..j] == s[lo + i..lo + j]
  {
    var t, u := s[lo..hi][i..j], s[lo + i..lo + j];
    assert |t| == |u| && forall k :: 0 <= k < |t| ==> t[k] == u[k];
  }
}
