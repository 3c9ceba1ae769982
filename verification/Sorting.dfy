/**
 sort.Slice, sort.Strings and `range` over a map. Go promises no order for `range`, and no order
 between elements that compare equal for sort.Slice: the two methods below promise exactly that
 much, so whatever is proved of their callers holds for every order they may pick.
*/
module Sorting {
  import Text

  ghost predicate StrictWeak<T(!new)>(less: (T, T) -> bool) {
    && (forall a, b :: less(a, b) ==> !less(b, a))
    && (forall a, b, c :: less(a, b) ==> less(a, c) || less(c, b))
  }

  ghost predicate Sorted<T>(s: seq<T>, less: (T, T) -> bool) {
    forall i, j | 0 <= i < j < |s| :: !less(s[j], s[i])
  }

  /** Elements that compare equal are equal. */
  ghost predicate TieFree<T>(s: seq<T>, less: (T, T) -> bool) {
    forall x, y | x in s && y in s && !less(x, y) && !less(y, x) :: x == y
  }

  /** What sort.Slice may make of s. */
  ghost predicate Arrangement<T>(s: seq<T>, r: seq<T>, less: (T, T) -> bool) {
    Sorted(r, less) && multiset(r) == multiset(s)
  }

  function Insert<T(!new)>(s: seq<T>, x: T, less: (T, T) -> bool): (r: seq<T>)
    requires StrictWeak(less) && Sorted(s, less)
    ensures Sorted(r, less) && multiset(r) == multiset(s) + multiset{x}
  {
    if s == [] then [x]
    else if less(x, s[0]) then
      assert forall e | e in s :: !less(e, x);
      [x] + s
    else
      var rest := Insert(s[1..], x, less);
      InsertHead(s, x, rest, less);
      [s[0]] + rest
  }

  lemma InsertHead<T(!new)>(s: seq<T>, x: T, rest: seq<T>, less: (T, T) -> bool)
    requires s != [] && Sorted(s, less) && !less(x, s[0])
    requires Sorted(rest, less) && multiset(rest) == multiset(s[1..]) + multiset{x}
    ensures Sorted([s[0]] + rest, less) && multiset([s[0]] + rest) == multiset(s) + multiset{x}
  {
    assert s == [s[0]] + s[1..];
    forall i | 0 <= i < |rest|
      ensures !less(rest[i], s[0])
    {
      assert rest[i] in multiset(rest);
      if rest[i] != x {
        assert rest[i] in s[1..];
      }
    }
  }

  /** sort.Slice: some sorted rearrangement. */
  method SortSlice<T(!new)>(s: seq<T>, less: (T, T) -> bool) returns (r: seq<T>)
    requires StrictWeak(less)
    ensures Sorted(r, less) && multiset(r) == multiset(s)
  {
    r := [];
    var i := 0;
    while i < |s|
      invariant 0 <= i <= |s|
      invariant Sorted(r, less) && multiset(r) == multiset(s[..i])
    {
      assert s[..i + 1] == s[..i] + [s[i]];
      r := Insert(r, s[i], less);
      i := i + 1;
    }
    assert s[..i] == s;
  }

  /** `for key := range m`: every key once, in an order nobody controls. */
  method RangeKeys<T(!new)>(keys: set<T>) returns (r: seq<T>)
    ensures multiset(r) == multiset(keys) && forall i, j | 0 <= i < j < |r| :: r[i] != r[j]
  {
    r := [];
    var rest := keys;
    while rest != {}
      invariant rest <= keys && multiset(r) == multiset(keys - rest)
      invariant forall i | 0 <= i < |r| :: r[i] !in rest
      invariant forall i, j | 0 <= i < j < |r| :: r[i] != r[j]
      decreases |rest|
    {
      var key :| key in rest;
      assert keys - (rest - {key}) == (keys - rest) + {key};
      r := r + [key];
      rest := rest - {key};
    }
    assert keys - rest == keys;
  }

  /** The sorted arrangement of a multiset; unique when no two different elements tie. */
  ghost function SortedOf<T(!new)>(m: multiset<T>, less: (T, T) -> bool): (r: seq<T>)
    requires StrictWeak(less)
    ensures Sorted(r, less) && multiset(r) == m
    decreases |m|
  {
    if m == multiset{} then []
    else
      var x :| x in m;
      Insert(SortedOf(m - multiset{x}, less), x, less)
  }

  lemma TailMultiset<T>(s: seq<T>)
    requires s != []
    ensures multiset(s[1..]) == multiset(s) - multiset{s[0]}
  {
    assert s == [s[0]] + s[1..];
  }

  lemma SameHead<T(!new)>(a: seq<T>, b: seq<T>, less: (T, T) -> bool)
    requires Sorted(a, less) && Sorted(b, less) && multiset(a) == multiset(b) && a != [] && b != []
    requires TieFree(a, less) && StrictWeak(less)
    ensures a[0] == b[0]
  {
    assert a[0] in multiset(b) && b[0] in multiset(a);
    var i :| 0 <= i < |a| && a[i] == b[0];
    var j :| 0 <= j < |b| && b[j] == a[0];
    assert !less(a[i], a[0]) && !less(b[j], b[0]);
  }

  /** Two sorted arrangements of the same elements are the same sequence, unless something ties. */
  lemma {:induction false} SortedUnique<T(!new)>(a: seq<T>, b: seq<T>, less: (T, T) -> bool)
    requires Sorted(a, less) && Sorted(b, less) && multiset(a) == multiset(b)
    requires TieFree(a, less) && StrictWeak(less)
    ensures a == b
  {
    assert |multiset(a)| == |a| && |multiset(b)| == |b|;
    if a != [] {
      SameHead(a, b, less);
      TailsAlike(a, b, less);
      SortedUnique(a[1..], b[1..], less);
      assert a == [a[0]] + a[1..] && b == [b[0]] + b[1..];
    }
  }

  lemma TailsAlike<T(!new)>(a: seq<T>, b: seq<T>, less: (T, T) -> bool)
    requires Sorted(a, less) && Sorted(b, less) && multiset(a) == multiset(b) && a != [] && b != [] && a[0] == b[0]
    requires TieFree(a, less)
    ensures Sorted(a[1..], less) && Sorted(b[1..], less) && TieFree(a[1..], less)
    ensures multiset(a[1..]) == multiset(b[1..])
  {
    assert forall x | x in a[1..] :: x in a;
    TailMultiset(a);
    TailMultiset(b);
  }

  /** Swapping a tied pair leaves a sequence sorted. */
  lemma SwapTied<T(!new)>(a: seq<T>, i: nat, j: nat, less: (T, T) -> bool) returns (b: seq<T>)
    requires StrictWeak(less) && Sorted(a, less)
    requires i < j < |a| && !less(a[i], a[j]) && a[i] != a[j]
    ensures Sorted(b, less) && multiset(b) == multiset(a) && b != a
  {
    b := a[i := a[j]][j := a[i]];
    assert b[i] != a[i];
    assert !less(a[j], a[i]);
    forall k, l | 0 <= k < l < |b|
      ensures !less(b[l], b[k])
    {
      SwapPair(a, i, j, k, l, less);
    }
  }

  lemma SwapPair<T(!new)>(a: seq<T>, i: nat, j: nat, k: nat, l: nat, less: (T, T) -> bool)
    requires StrictWeak(less) && Sorted(a, less)
    requires i < j < |a| && k < l < |a| && !less(a[i], a[j]) && !less(a[j], a[i])
    ensures !less(a[i := a[j]][j := a[i]][l], a[i := a[j]][j := a[i]][k])
  {
    var b := a[i := a[j]][j := a[i]];
    // What compares with one of a tied pair compares with the other.
    assert less(a[j], b[k]) <==> less(a[i], b[k]);
    assert less(b[l], a[j]) <==> less(b[l], a[i]);
    assert less(a[j], a[k]) <==> less(a[i], a[k]);
    assert less(a[l], a[j]) <==> less(a[l], a[i]);
  }

  lemma TieFreeUnique<T(!new)>(s: seq<T>, a: seq<T>, b: seq<T>, less: (T, T) -> bool)
    requires StrictWeak(less) && TieFree(s, less) && Arrangement(s, a, less) && Arrangement(s, b, less)
    ensures a == b
  {
    SameElements(a, s);
    SortedUnique(a, b, less);
  }

  /** A tie has two arrangements. */
  lemma TieSplits<T(!new)>(s: seq<T>, x: T, y: T, less: (T, T) -> bool) returns (a: seq<T>, b: seq<T>)
    requires StrictWeak(less) && x in s && y in s && !less(x, y) && !less(y, x) && x != y
    ensures Arrangement(s, a, less) && Arrangement(s, b, less) && a != b
  {
    a := SortedOf(multiset(s), less);
    SameElements(s, a);
    var i :| 0 <= i < |a| && a[i] == x;
    var j :| 0 <= j < |a| && a[j] == y;
    b := SwapTied(a, if i < j then i else j, if i < j then j else i, less);
  }

  /** What sort.Slice promises of its result is one sequence exactly when no two different elements tie. */
  lemma UniqueIffTieFree<T(!new)>(s: seq<T>, less: (T, T) -> bool)
    requires StrictWeak(less)
    ensures TieFree(s, less) <==>
        forall a, b | Arrangement(s, a, less) && Arrangement(s, b, less) :: a == b
  {
    if TieFree(s, less) {
      forall a, b | Arrangement(s, a, less) && Arrangement(s, b, less)
        ensures a == b
      {
        TieFreeUnique(s, a, b, less);
      }
    } else {
      var x, y :| x in s && y in s && !less(x, y) && !less(y, x) && x != y;
      var a, b := TieSplits(s, x, y, less);
    }
  }

  lemma SameElements<T>(a: seq<T>, b: seq<T>)
    requires multiset(a) == multiset(b)
    ensures forall x :: x in a <==> x in b
  {
    forall x
      ensures x in a <==> x in b
    {
      assert x in a <==> x in multiset(a);
      assert x in b <==> x in multiset(b);
    }
  }

  lemma Twice<T>(s: seq<T>, i: nat, j: nat)
    requires i < j < |s| && s[i] == s[j]
    ensures multiset(s)[s[i]] >= 2
  {
    assert s == s[..j] + [s[j]] + s[j + 1..];
    assert s[i] in s[..j];
  }

  lemma StringOrder()
    ensures StrictWeak(Text.Less)
    ensures forall a, b :: !Text.Less(a, b) && !Text.Less(b, a) ==> a == b
  {
    forall a, b
      ensures Text.Less(a, b) ==> !Text.Less(b, a)
      ensures !Text.Less(a, b) && !Text.Less(b, a) ==> a == b
    {
      Text.CompareFlips(a, b);
    }
    forall a, b, c | Text.Less(a, b)
      ensures Text.Less(a, c) || Text.Less(c, b)
    {
      Text.CompareFlips(a, c);
      Text.CompareFlips(c, b);
      if Text.Less(c, a) {
        Text.LessTransitive(c, a, b);
      }
    }
  }
}

/** Sets of strings in ascending order. */
module SortedText {
  import Text
  import Sorting

  function Insert(s: seq<string>, x: string): seq<string> {
    if s == [] then [x]
    else if Text.Less(x, s[0]) then [x] + s
    else [s[0]] + Insert(s[1..], x)
  }

  /** The elements of a set, sorted. */
  ghost function SortedSet(s: set<string>): seq<string> {
    if s == {} then []
    else
      var x :| x in s;
      Insert(SortedSet(s - {x}), x)
  }

  lemma {:induction false} InsertIs(s: seq<string>, x: string)
    requires Sorting.StrictWeak(Text.Less) && Sorting.Sorted(s, Text.Less)
    ensures Insert(s, x) == Sorting.Insert(s, x, Text.Less)
  {
    if s != [] && !Text.Less(x, s[0]) {
      InsertIs(s[1..], x);
    }
  }

  /** Every sort of the set gives this one sequence, strictly ascending. */
  lemma {:induction false} SortedSetIs(s: set<string>)
    ensures multiset(SortedSet(s)) == multiset(s) && Sorting.Sorted(SortedSet(s), Text.Less)
    ensures |SortedSet(s)| == |s|
  {
    if s != {} {
      var x :| x in s && SortedSet(s) == Insert(SortedSet(s - {x}), x);
      SortedSetIs(s - {x});
      Sorting.StringOrder();
      InsertIs(SortedSet(s - {x}), x);
      assert multiset(s) == multiset(s - {x}) + multiset{x};
    }
    assert |multiset(SortedSet(s))| == |SortedSet(s)|;
  }

  lemma InSortedSet(s: set<string>)
    ensures forall x :: x in SortedSet(s) <==> x in s
    ensures forall k | 0 <= k < |SortedSet(s)| :: SortedSet(s)[k] in s
  {
    SortedSetIs(s);
    forall x
      ensures x in SortedSet(s) <==> x in s
    {
      assert x in SortedSet(s) <==> x in multiset(SortedSet(s));
    }
  }

  lemma Ascending(s: set<string>, i: nat, j: nat)
    requires i < j < |SortedSet(s)|
    ensures Text.Less(SortedSet(s)[i], SortedSet(s)[j])
  {
    SortedSetIs(s);
    Sorting.StringOrder();
    var sorted := SortedSet(s);
    if sorted[i] == sorted[j] {
      Sorting.Twice(sorted, i, j);
    }
  }

  /** sort.Strings of the keys of a map or set. */
  method SortedKeys(keys: set<string>) returns (sorted: seq<string>)
    ensures sorted == SortedSet(keys)
    ensures (forall key :: key in sorted <==> key in keys) && forall i | 0 <= i < |sorted| :: sorted[i] in keys
    ensures forall i, j | 0 <= i < j < |sorted| :: Text.Less(sorted[i], sorted[j])
  {
    Sorting.StringOrder();
    var unsorted := Sorting.RangeKeys(keys);
    sorted := Sorting.SortSlice(unsorted, Text.Less);
    SortedSetIs(keys);
    Sorting.SortedUnique(sorted, SortedSet(keys), Text.Less);
    InSortedSet(keys);
    forall i, j | 0 <= i < j < |sorted|
      ensures Text.Less(sorted[i], sorted[j])
    {
      Ascending(keys, i, j);
    }
  }
}
