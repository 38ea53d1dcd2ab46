/** The deterministic payload encodings of commitment/encode.go. */
module CanonicalEncoding {
  import opened Bytes
  import opened Sorting

  /** The members of s in string order. */
  ghost function Listing(s: set<Bytes>): seq<Bytes> {
    if s == {} then []
    else
      var x :| x in s;
      SortBy([x] + Listing(s - {x}), Same)
  }

  lemma {:induction false} ListingOrdered(s: set<Bytes>)
    ensures StrictlyAscending(Listing(s), Same)
    ensures forall x :: x in Listing(s) <==> x in s
  {
    if s != {} {
      var x :| x in s && Listing(s) == SortBy([x] + Listing(s - {x}), Same);
      ListingOrdered(s - {x});
      ListingInsert(x, Listing(s - {x}));
    }
  }

  lemma ListingInsert(x: Bytes, rest: seq<Bytes>)
    requires StrictlyAscending(rest, Same) && x !in rest
    ensures StrictlyAscending(SortBy([x] + rest, Same), Same)
    ensures forall y :: y in SortBy([x] + rest, Same) <==> y == x || y in rest
  {
    var all := [x] + rest;
    forall i, j | 0 <= i < j < |all|
      ensures Same(all[i]) != Same(all[j])
    {
      if i > 0 {
        assert Before(Same(rest[i - 1]), Same(rest[j - 1]));
        BeforeTotal(rest[i - 1], rest[i - 1]);
      }
    }
    DistinctPermuted(all, SortBy(all, Same), Same);
    StrictWhenDistinct(SortBy(all, Same), Same);
    MembersOf(all, SortBy(all, Same));
  }

  /** Sorting a duplicate-free list gives the listing of its members. */
  lemma SortedIsListing(xs: seq<Bytes>, s: set<Bytes>)
    requires DistinctKeys(xs, Same) && forall x :: x in xs <==> x in s
    ensures SortBy(xs, Same) == Listing(s)
  {
    var sorted := SortBy(xs, Same);
    DistinctPermuted(xs, sorted, Same);
    StrictWhenDistinct(sorted, Same);
    MembersOf(xs, sorted);
    ListingOrdered(s);
    StrictUnique(sorted, Listing(s), Same);
  }

  function Concat(items: seq<Bytes>): Bytes {
    if items == [] then [] else LenPrefixed(items[0]) + Concat(items[1..])
  }

  lemma {:induction false} ConcatSnoc(items: seq<Bytes>, x: Bytes)
    ensures Concat(items + [x]) == Concat(items) + LenPrefixed(x)
  {
    if items == [] {
      assert [x][1..] == [];
    } else {
      assert (items + [x])[1..] == items[1..] + [x];
      ConcatSnoc(items[1..], x);
    }
  }

  ghost predicate Short(items: seq<Bytes>) {
    forall x :: x in items ==> |x| < U32
  }

  lemma {:induction false} ConcatInjective(xs: seq<Bytes>, ys: seq<Bytes>)
    requires Short(xs) && Short(ys) && Concat(xs) == Concat(ys)
    ensures xs == ys
  {
    if xs != [] && ys != [] {
      LenPrefixedInjective(xs[0], Concat(xs[1..]), ys[0], Concat(ys[1..]));
      ConcatInjective(xs[1..], ys[1..]);
      assert xs == [xs[0]] + xs[1..] && ys == [ys[0]] + ys[1..];
    }
  }

  /** Each key followed by its value. */
  function Items(keys: seq<Bytes>, fields: map<Bytes, Bytes>): seq<Bytes>
    requires forall k :: k in keys ==> k in fields
  {
    if keys == [] then []
    else Items(keys[..|keys| - 1], fields) + [keys[|keys| - 1], fields[keys[|keys| - 1]]]
  }

  lemma {:induction false} ItemsInjective(keys: seq<Bytes>, fields: map<Bytes, Bytes>, keys': seq<Bytes>, fields': map<Bytes, Bytes>)
    requires forall k :: k in keys ==> k in fields
    requires forall k :: k in keys' ==> k in fields'
    requires Items(keys, fields) == Items(keys', fields')
    ensures keys == keys' && forall k :: k in keys ==> fields[k] == fields'[k]
  {
    if keys != [] && keys' != [] {
      var n, n' := |keys| - 1, |keys'| - 1;
      var a, b := Items(keys[..n], fields), Items(keys'[..n'], fields');
      var xs := Items(keys, fields);
      assert xs[|xs| - 2] == keys[n] == keys'[n'];
      assert xs[|xs| - 1] == fields[keys[n]] == fields'[keys'[n']];
      assert a == xs[..|xs| - 2] == b;
      ItemsInjective(keys[..n], fields, keys'[..n'], fields');
      assert keys == keys[..n] + [keys[n]] && keys' == keys'[..n'] + [keys'[n']];
    }
  }

  lemma {:induction false} ItemsShort(keys: seq<Bytes>, fields: map<Bytes, Bytes>)
    requires forall k :: k in keys ==> k in fields
    requires forall k :: k in fields ==> |k| < U32 && |fields[k]| < U32
    ensures Short(Items(keys, fields))
  {
    if keys != [] { ItemsShort(keys[..|keys| - 1], fields); }
  }

  ghost function FieldBytes(keys: seq<Bytes>, fields: map<Bytes, Bytes>): Bytes {
    if forall k :: k in keys ==> k in fields then Concat(Items(keys, fields)) else []
  }

  /** What EncodeKV returns. */
  ghost function EncodedKV(fields: map<Bytes, Bytes>): Bytes {
    FieldBytes(Listing(fields.Keys), fields)
  }

  /** What EncodeStringSet returns for a list with these members. */
  ghost function EncodedSet(items: set<Bytes>): Bytes {
    Concat(Listing(items))
  }

  ghost function Members(items: seq<Bytes>): set<Bytes> {
    set x | x in items
  }

  method EncodeKV(fields: map<Bytes, Bytes>) returns (buf: Bytes)
    ensures buf == EncodedKV(fields)
  {
    var keys := KeysOf(fields);
    SortedIsListing(keys, fields.Keys);
    MembersOf(keys, SortBy(keys, Same));
    buf := WriteFields(SortBy(keys, Same), fields);
  }

  method WriteFields(keys: seq<Bytes>, fields: map<Bytes, Bytes>) returns (buf: Bytes)
    requires forall k :: k in keys ==> k in fields
    ensures buf == FieldBytes(keys, fields)
  {
    buf := [];
    for i := 0 to |keys|
      invariant buf == Concat(Items(keys[..i], fields))
    {
      FieldAppended(keys, fields, i);
      buf := buf + LenPrefixed(keys[i]);
      buf := buf + LenPrefixed(fields[keys[i]]);
    }
    assert keys[..|keys|] == keys;
  }

  lemma FieldAppended(keys: seq<Bytes>, fields: map<Bytes, Bytes>, i: nat)
    requires i < |keys| && forall k :: k in keys ==> k in fields
    ensures Concat(Items(keys[..i + 1], fields))
            == Concat(Items(keys[..i], fields)) + LenPrefixed(keys[i]) + LenPrefixed(fields[keys[i]])
  {
    var k, front := keys[i], Items(keys[..i], fields);
    assert keys[..i + 1][..i] == keys[..i];
    ConcatSnoc(front, k);
    ConcatSnoc(front + [k], fields[k]);
    assert front + [k] + [fields[k]] == front + [k, fields[k]];
  }

  method Deduplicate(items: seq<Bytes>) returns (uniq: seq<Bytes>)
    ensures DistinctKeys(uniq, Same)
    ensures forall x :: x in uniq <==> x in items
  {
    var seen: set<Bytes> := {};
    uniq := [];
    for i := 0 to |items|
      invariant DistinctKeys(uniq, Same)
      invariant forall x :: x in seen <==> x in items[..i]
      invariant forall x :: x in uniq <==> x in seen
    {
      assert items[..i + 1] == items[..i] + [items[i]];
      if items[i] !in seen {
        DistinctWith(uniq, items[i]);
        seen := seen + {items[i]};
        uniq := uniq + [items[i]];
      }
    }
    assert items[..|items|] == items;
  }

  method EncodeStringSet(items: seq<Bytes>) returns (buf: Bytes)
    ensures buf == EncodedSet(Members(items))
  {
    var uniq := Deduplicate(items);
    SortedIsListing(uniq, Members(items));
    buf := WriteItems(SortBy(uniq, Same));
  }

  method WriteItems(items: seq<Bytes>) returns (buf: Bytes)
    ensures buf == Concat(items)
  {
    buf := [];
    for i := 0 to |items|
      invariant buf == Concat(items[..i])
    {
      ConcatSnoc(items[..i], items[i]);
      assert items[..i + 1] == items[..i] + [items[i]];
      buf := buf + LenPrefixed(items[i]);
    }
    assert items[..|items|] == items;
  }

  /** Equal bytes exactly for equal maps. */
  lemma EncodeKVInjective(a: map<Bytes, Bytes>, b: map<Bytes, Bytes>)
    requires forall k :: k in a ==> |k| < U32 && |a[k]| < U32
    requires forall k :: k in b ==> |k| < U32 && |b[k]| < U32
    ensures EncodedKV(a) == EncodedKV(b) <==> a == b
  {
    var ka, kb := Listing(a.Keys), Listing(b.Keys);
    assert (forall k :: k in ka <==> k in a) && forall k :: k in kb <==> k in b by {
      ListingOrdered(a.Keys);
      ListingOrdered(b.Keys);
    }
    if EncodedKV(a) == EncodedKV(b) {
      ItemsShort(ka, a);
      ItemsShort(kb, b);
      ConcatInjective(Items(ka, a), Items(kb, b));
      ItemsInjective(ka, a, kb, b);
      SameFields(ka, a, b);
    }
  }

  lemma SameFields(keys: seq<Bytes>, a: map<Bytes, Bytes>, b: map<Bytes, Bytes>)
    requires forall k :: k in keys <==> k in a
    requires forall k :: k in keys <==> k in b
    requires forall k :: k in keys ==> a[k] == b[k]
    ensures a == b
  {
    assert a.Keys == b.Keys;
  }

  /** Equal bytes exactly for lists with the same members, whatever their order and repetitions. */
  lemma EncodeStringSetInjective(xs: seq<Bytes>, ys: seq<Bytes>)
    requires Short(xs) && Short(ys)
    ensures EncodedSet(Members(xs)) == EncodedSet(Members(ys)) <==> Members(xs) == Members(ys)
  {
    var lx, ly := Listing(Members(xs)), Listing(Members(ys));
    assert (forall x :: x in lx <==> x in xs) && forall x :: x in ly <==> x in ys by {
      ListingOrdered(Members(xs));
      ListingOrdered(Members(ys));
    }
    if EncodedSet(Members(xs)) == EncodedSet(Members(ys)) {
      ConcatInjective(lx, ly);
      assert forall x :: x in Members(xs) <==> x in Members(ys);
    }
  }

  /** Above the bound the length prefix wraps, and two different sets share their bytes. */
  lemma LongItemsAreAmbiguous(z: Bytes)
    requires |z| == U32 - 4
    ensures EncodedSet({LenPrefixed(z)}) == EncodedSet({[], z})
    ensures {LenPrefixed(z)} != {[], z}
  {
    PairListing([], z);
    ListingIs([LenPrefixed(z)], {LenPrefixed(z)});
    ConcatOne(LenPrefixed(z));
    LengthWraps(z);
    assert [] in {[], z} && [] !in {LenPrefixed(z)};
  }

  lemma PairListing(y: Bytes, z: Bytes)
    requires Before(y, z)
    ensures EncodedSet({y, z}) == LenPrefixed(y) + LenPrefixed(z)
  {
    ListingOfPair(y, z);
    ConcatOne(y);
    ConcatSnoc([y], z);
    assert [y] + [z] == [y, z];
  }

  lemma ListingOfPair(y: Bytes, z: Bytes)
    requires Before(y, z)
    ensures Listing({y, z}) == [y, z]
  {
    var pair := [y, z];
    forall i, j | 0 <= i < j < |pair|
      ensures Before(Same(pair[i]), Same(pair[j]))
    {
      assert i == 0 && j == 1;
    }
    ListingIs(pair, {y, z});
  }

  lemma LengthWraps(z: Bytes)
    requires |z| == U32 - 4
    ensures LenPrefixed(LenPrefixed(z)) == LenPrefixed([]) + LenPrefixed(z)
  {
    assert Word(U32) == Word(0);
    assert LenPrefixed([]) == Word(0);
  }

  lemma ConcatOne(x: Bytes)
    ensures Concat([x]) == LenPrefixed(x)
  {
    assert [x][1..] == [];
  }

  lemma ListingIs(xs: seq<Bytes>, s: set<Bytes>)
    requires StrictlyAscending(xs, Same) && forall x :: x in xs <==> x in s
    ensures Listing(s) == xs
  {
    ListingOrdered(s);
    StrictUnique(Listing(s), xs, Same);
  }
}
