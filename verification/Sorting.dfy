/**
 Sorting by a byte-string key, and listing the keys of a map.

 The source calls the library's sort; which algorithm it uses does not matter,
 because a list with distinct keys has one ordered permutation only (SortUnique).
 Here it is an insertion sort.

 Ranging over a map gives its keys in some order, each once (KeysOf); the sources
 that do so sort the keys afterwards.
 */
module Sorting {
  import opened Bytes

  predicate Ascending<T>(xs: seq<T>, key: T -> Bytes) {
    forall i, j :: 0 <= i < j < |xs| ==> !Before(key(xs[j]), key(xs[i]))
  }

  predicate DistinctKeys<T>(xs: seq<T>, key: T -> Bytes) {
    forall i, j :: 0 <= i < j < |xs| ==> key(xs[i]) != key(xs[j])
  }

  predicate StrictlyAscending<T>(xs: seq<T>, key: T -> Bytes) {
    forall i, j :: 0 <= i < j < |xs| ==> Before(key(xs[i]), key(xs[j]))
  }

  function Insert<T>(x: T, xs: seq<T>, key: T -> Bytes): (r: seq<T>)
    requires Ascending(xs, key)
    ensures Ascending(r, key)
    ensures multiset(r) == multiset{x} + multiset(xs)
  {
    if xs == [] || !Before(key(xs[0]), key(x)) then
      InsertFront(x, xs, key);
      [x] + xs
    else
      var rest := Insert(x, xs[1..], key);
      InsertLater(x, xs, rest, key);
      [xs[0]] + rest
  }

  lemma InsertFront<T>(x: T, xs: seq<T>, key: T -> Bytes)
    requires Ascending(xs, key)
    requires xs == [] || !Before(key(xs[0]), key(x))
    ensures Ascending([x] + xs, key)
  {
    var r := [x] + xs;
    forall i, j | 0 <= i < j < |r|
      ensures !Before(key(r[j]), key(r[i]))
    {
      if i == 0 && j > 1 {
        NotBeforeTransitive(key(x), key(xs[0]), key(xs[j - 1]));
      }
    }
  }

  lemma InsertLater<T>(x: T, xs: seq<T>, rest: seq<T>, key: T -> Bytes)
    requires xs != [] && Ascending(xs, key) && Before(key(xs[0]), key(x))
    requires Ascending(rest, key) && multiset(rest) == multiset{x} + multiset(xs[1..])
    ensures Ascending([xs[0]] + rest, key)
    ensures multiset([xs[0]] + rest) == multiset{x} + multiset(xs)
  {
    assert xs == [xs[0]] + xs[1..];
    var r := [xs[0]] + rest;
    forall i, j | 0 <= i < j < |r|
      ensures !Before(key(r[j]), key(r[i]))
    {
      if i == 0 {
        assert rest[j - 1] in multiset(rest);
        if rest[j - 1] == x {
          BeforeTotal(key(xs[0]), key(x));
        } else {
          assert rest[j - 1] in multiset(xs[1..]);
          var k :| 0 <= k < |xs[1..]| && xs[1..][k] == rest[j - 1];
          assert xs[k + 1] == rest[j - 1];
        }
      } else {
        assert r[i] == rest[i - 1] && r[j] == rest[j - 1];
      }
    }
  }

  function SortBy<T>(xs: seq<T>, key: T -> Bytes): (r: seq<T>)
    ensures Ascending(r, key)
    ensures multiset(r) == multiset(xs)
    ensures |r| == |xs|
  {
    if xs == [] then []
    else
      var r := Insert(xs[0], SortBy(xs[1..], key), key);
      assert xs == [xs[0]] + xs[1..];
      assert |multiset(r)| == |multiset(xs)|;
      r
  }

  lemma MembersOf<T>(xs: seq<T>, ys: seq<T>)
    requires multiset(xs) == multiset(ys)
    ensures forall x :: x in xs <==> x in ys
  {
    forall x ensures x in xs <==> x in ys {
      assert x in xs <==> x in multiset(xs);
      assert x in ys <==> x in multiset(ys);
    }
  }

  /** Distinctness of keys does not depend on the order of the list. */
  lemma DistinctPermuted<T>(xs: seq<T>, ys: seq<T>, key: T -> Bytes)
    requires multiset(xs) == multiset(ys) && DistinctKeys(xs, key)
    ensures DistinctKeys(ys, key)
  {
    forall i, j | 0 <= i < j < |ys|
      ensures key(ys[i]) != key(ys[j])
    {
      MembersOf(xs, ys);
      if key(ys[i]) == key(ys[j]) {
        assert ys[i] in xs && ys[j] in xs;
        var a :| 0 <= a < |xs| && xs[a] == ys[i];
        var b :| 0 <= b < |xs| && xs[b] == ys[j];
        assert a == b;
        TwiceInMultiset(ys, i, j);
        OnceInMultiset(xs, a);
      }
    }
  }

  lemma DistinctSnoc<T>(xs: seq<T>, x: T, key: T -> Bytes)
    requires DistinctKeys(xs, key) && forall i :: 0 <= i < |xs| ==> key(xs[i]) != key(x)
    ensures DistinctKeys(xs + [x], key)
  {
  }

  lemma TwiceInMultiset<T>(ys: seq<T>, i: nat, j: nat)
    requires i < j < |ys| && ys[i] == ys[j]
    ensures multiset(ys)[ys[i]] >= 2
  {
    assert ys == ys[..j] + [ys[j]] + ys[j + 1..];
    assert ys[i] in ys[..j] by { assert ys[..j][i] == ys[i]; }
    assert multiset(ys) == multiset(ys[..j]) + multiset{ys[j]} + multiset(ys[j + 1..]);
  }

  lemma OnceInMultiset<T>(xs: seq<T>, a: nat)
    requires a < |xs| && forall b :: 0 <= b < |xs| && b != a ==> xs[b] != xs[a]
    ensures multiset(xs)[xs[a]] == 1
  {
    assert xs == xs[..a] + [xs[a]] + xs[a + 1..];
    assert xs[a] !in xs[..a];
    assert xs[a] !in xs[a + 1..];
    assert multiset(xs) == multiset(xs[..a]) + multiset{xs[a]} + multiset(xs[a + 1..]);
  }

  lemma StrictWhenDistinct<T>(xs: seq<T>, key: T -> Bytes)
    requires Ascending(xs, key) && DistinctKeys(xs, key)
    ensures StrictlyAscending(xs, key)
  {
    forall i, j | 0 <= i < j < |xs|
      ensures Before(key(xs[i]), key(xs[j]))
    {
      BeforeTotal(key(xs[i]), key(xs[j]));
    }
  }

  lemma HasMember<T>(xs: seq<T>)
    ensures xs != [] ==> exists x :: x in xs
  {
    if xs != [] { assert xs[0] in xs; }
  }

  /** Two strictly ordered lists with the same members are the same list. */
  lemma {:induction false} StrictUnique<T>(xs: seq<T>, ys: seq<T>, key: T -> Bytes)
    requires StrictlyAscending(xs, key) && StrictlyAscending(ys, key)
    requires forall x :: x in xs <==> x in ys
    ensures xs == ys
  {
    if xs == [] {
      HasMember(ys);
    } else {
      assert xs[0] in ys && ys != [];
      assert ys[0] in xs;
      HeadsAgree(xs, ys, key);
      forall x ensures x in xs[1..] <==> x in ys[1..] {
        TailMembers(xs, key, x);
        TailMembers(ys, key, x);
      }
      StrictUnique(xs[1..], ys[1..], key);
      assert xs == [xs[0]] + xs[1..] && ys == [ys[0]] + ys[1..];
    }
  }

  lemma HeadsAgree<T>(xs: seq<T>, ys: seq<T>, key: T -> Bytes)
    requires StrictlyAscending(xs, key) && StrictlyAscending(ys, key)
    requires xs != [] && ys != [] && xs[0] in ys && ys[0] in xs
    ensures xs[0] == ys[0]
  {
    var i :| 0 <= i < |ys| && ys[i] == xs[0];
    var j :| 0 <= j < |xs| && xs[j] == ys[0];
    if i > 0 && j > 0 { BeforeTotal(key(xs[0]), key(ys[0])); }
  }

  lemma TailMembers<T>(xs: seq<T>, key: T -> Bytes, x: T)
    requires xs != [] && StrictlyAscending(xs, key)
    ensures x in xs[1..] <==> x in xs && x != xs[0]
  {
    BeforeTotal(key(xs[0]), key(xs[0]));
    if x in xs && x != xs[0] {
      var i :| 0 <= i < |xs| && xs[i] == x;
      assert xs[1..][i - 1] == x;
    }
    if x in xs[1..] {
      var i :| 0 <= i < |xs[1..]| && xs[1..][i] == x;
      assert xs[i + 1] == x;
    }
  }

  /** Sorting a list with distinct keys gives the same result for every order of that list. */
  lemma SortUnique<T>(xs: seq<T>, ys: seq<T>, key: T -> Bytes)
    requires multiset(xs) == multiset(ys) && DistinctKeys(xs, key)
    ensures SortBy(xs, key) == SortBy(ys, key)
  {
    var a, b := SortBy(xs, key), SortBy(ys, key);
    DistinctPermuted(xs, a, key);
    DistinctPermuted(xs, b, key);
    StrictWhenDistinct(a, key);
    StrictWhenDistinct(b, key);
    MembersOf(a, b);
    StrictUnique(a, b, key);
  }

  // ----- listing the keys of a map

  function Same(b: Bytes): Bytes { b }

  lemma DistinctWith(xs: seq<Bytes>, x: Bytes)
    requires DistinctKeys(xs, Same) && x !in xs
    ensures DistinctKeys(xs + [x], Same)
  {
    assert forall i :: 0 <= i < |xs| ==> xs[i] in xs;
    DistinctSnoc(xs, x, Same);
  }

  /** Ranging over a map yields its keys in some order, each once. */
  method KeysOf<V>(fields: map<Bytes, V>) returns (keys: seq<Bytes>)
    ensures DistinctKeys(keys, Same)
    ensures forall k :: k in keys <==> k in fields
  {
    keys := [];
    var rest := fields.Keys;
    while rest != {}
      invariant rest <= fields.Keys
      invariant DistinctKeys(keys, Same)
      invariant forall k :: k in keys <==> k in fields.Keys - rest
      decreases |rest|
    {
      var k :| k in rest;
      DistinctWith(keys, k);
      keys := keys + [k];
      rest := rest - {k};
    }
  }
}
