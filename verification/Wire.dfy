/** Small shared vocabulary: optional values and the records Beacon uploads. */
module Wire {
  newtype Byte = x: int | 0 <= x < 256
  type Bytes = seq<Byte>

  datatype Option<+T> = None | Some(value: T)

  datatype Outcome<+T, +E> = Ok(value: T) | Err(error: E)

  /** A normalized vendor account; absent text is `None`, as stringPointer makes it. */
  datatype Member = Member(
    id: Option<string>, email: Option<string>, name: Option<string>, username: Option<string>,
    status: string, role: Option<string>,
    createdAt: Option<string>, lastLoginAt: Option<string>, billable: Option<bool>)

  datatype DeployKey = DeployKey(
    id: string, name: string, repository: string, access: string,
    createdAt: Option<string>, lastUsedAt: Option<string>, addedBy: Option<string>)

  datatype Coverage = Coverage(status: string, scanned: nat, total: nat, message: Option<string>)

  function StringPointer(value: string): Option<string> {
    if value == "" then None else Some(value)
  }
}

/** Sums over sequences, for counting goroutines in a given phase. */
module Sums {
  function Sum<T>(s: seq<T>, weight: T -> nat): nat {
    if s == [] then 0 else weight(s[0]) + Sum(s[1..], weight)
  }

  lemma {:induction false} SumUpdate<T>(s: seq<T>, i: nat, x: T, weight: T -> nat)
    requires i < |s|
    ensures Sum(s[i := x], weight) + weight(s[i]) == Sum(s, weight) + weight(x)
  {
    if i > 0 {
      assert s[i := x][1..] == s[1..][i - 1 := x];
      SumUpdate(s[1..], i - 1, x, weight);
    } else {
      assert s[i := x][1..] == s[1..];
    }
  }

  /** When every weight is at most one, an element of weight zero leaves room below the length. */
  lemma {:induction false} SumBound<T>(s: seq<T>, weight: T -> nat)
    requires forall i | 0 <= i < |s| :: weight(s[i]) <= 1
    ensures Sum(s, weight) <= |s|
    ensures (exists i | 0 <= i < |s| :: weight(s[i]) == 0) ==> Sum(s, weight) < |s|
    ensures Sum(s, weight) == 0 <==> forall i | 0 <= i < |s| :: weight(s[i]) == 0
  {
    if s != [] {
      assert forall i | 0 <= i < |s[1..]| :: s[1..][i] == s[i + 1];
      assert forall i | 1 <= i < |s| :: s[i] == s[1..][i - 1];
      SumBound(s[1..], weight);
    }
  }

  lemma {:induction false} SumConstant<T>(s: seq<T>, weight: T -> nat, c: nat)
    requires forall i | 0 <= i < |s| :: weight(s[i]) == c
    ensures Sum(s, weight) == c * |s|
  {
    if s != [] {
      assert forall i | 0 <= i < |s[1..]| :: s[1..][i] == s[i + 1];
      SumConstant(s[1..], weight, c);
      assert c * |s| == c + c * |s[1..]|;
    }
  }
}

/** The size of a finite set. */
module Sets {
  lemma {:induction false} SubsetSize<T>(small: set<T>, large: set<T>)
    requires small <= large
    ensures |small| <= |large| && (|small| == |large| ==> small == large)
  {
    if small != large {
      var x :| x in large && x !in small;
      SubsetSize(small, large - {x});
    }
  }
}

/** Concatenation. */
module Sequences {
  lemma Associative<T>(a: seq<T>, b: seq<T>, c: seq<T>)
    ensures a + b + c == a + (b + c)
  {
  }

  function Mapped<A, B>(s: seq<A>, f: A -> B): (r: seq<B>)
    ensures |r| == |s| && forall i | 0 <= i < |s| :: r[i] == f(s[i])
  {
    seq(|s|, i requires 0 <= i < |s| => f(s[i]))
  }

  lemma MappedAppend<A, B>(s: seq<A>, t: seq<A>, f: A -> B)
    ensures Mapped(s + t, f) == Mapped(s, f) + Mapped(t, f)
  {
  }

  lemma TakeOut<A>(s: seq<A>, k: nat)
    requires k < |s|
    ensures multiset(s) == multiset(s[..k] + s[k + 1..]) + multiset{s[k]}
  {
    assert s == s[..k] + ([s[k]] + s[k + 1..]);
  }

  lemma TakeOutMapped<A, B>(s: seq<A>, k: nat, f: A -> B)
    requires k < |s|
    ensures multiset(Mapped(s, f)) == multiset(Mapped(s[..k] + s[k + 1..], f)) + multiset{f(s[k])}
  {
    TakeOut(Mapped(s, f), k);
    assert Mapped(s, f)[..k] + Mapped(s, f)[k + 1..] == Mapped(s[..k] + s[k + 1..], f);
  }

  lemma CancelOne<A>(x: multiset<A>, y: multiset<A>, a: A)
    requires x + multiset{a} == y + multiset{a}
    ensures x == y
  {
    forall b
      ensures x[b] == y[b]
    {
      assert (x + multiset{a})[b] == (y + multiset{a})[b];
    }
  }

  /** A rearrangement of the images is the image of a rearrangement. */
  lemma {:induction false} Rearranged<A, B>(s: seq<A>, r: seq<B>, f: A -> B) returns (t: seq<A>)
    requires multiset(r) == multiset(Mapped(s, f))
    ensures multiset(t) == multiset(s) && r == Mapped(t, f)
    decreases |r|
  {
    assert |multiset(r)| == |r| && |multiset(Mapped(s, f))| == |s|;
    if r == [] {
      return [];
    }
    var last := |r| - 1;
    assert r[last] in multiset(Mapped(s, f));
    var k :| 0 <= k < |s| && Mapped(s, f)[k] == r[last];
    TakeOutMapped(s, k, f);
    TakeOut(r, last);
    assert r[..last] + r[last + 1..] == r[..last];
    CancelOne(multiset(r[..last]), multiset(Mapped(s[..k] + s[k + 1..], f)), r[last]);
    var shorter := Rearranged(s[..k] + s[k + 1..], r[..last], f);
    TakeOut(s, k);
    t := shorter + [s[k]];
  }

  lemma {:induction false} MappedPermutation<A, B>(s: seq<A>, t: seq<A>, f: A -> B)
    requires multiset(s) == multiset(t)
    ensures multiset(Mapped(s, f)) == multiset(Mapped(t, f))
    decreases |s|
  {
    assert |multiset(s)| == |s| && |multiset(t)| == |t|;
    if s != [] {
      var last := |s| - 1;
      assert s[last] in multiset(t);
      var k :| 0 <= k < |t| && t[k] == s[last];
      TakeOut(s, last);
      TakeOut(t, k);
      TakeOutMapped(s, last, f);
      TakeOutMapped(t, k, f);
      CancelOne(multiset(s[..last] + s[last + 1..]), multiset(t[..k] + t[k + 1..]), s[last]);
      MappedPermutation(s[..last] + s[last + 1..], t[..k] + t[k + 1..], f);
    }
  }

  lemma CancelFront<T>(a: seq<T>, x: seq<T>, y: seq<T>)
    requires a + x == a + y
    ensures x == y
  {
    assert x == (a + x)[|a|..] && y == (a + y)[|a|..];
  }

  lemma CancelBack<T>(x: seq<T>, y: seq<T>, a: seq<T>)
    requires x + a == y + a
    ensures x == y
  {
    assert |x + a| == |y + a|;
    assert x == (x + a)[..|x|] && y == (y + a)[..|y|];
  }
}
