/**
 The offset loops of SCIM collectors: startIndex is 1-based and grows by what a page returned, as
 section 3.4.2.4 of RFC 7644 has it.
*/
module Scim {
  import opened Chains

  /** A decoded page; `Failed` also covers a missing resource list. */
  datatype Reply<U> = Failed | Listed(totalResults: int, resources: seq<U>)

  type Vendor<!U> = (nat, int) -> Reply<U>

  /** Past the total the list is complete; an empty page before that is an error. */
  function ViewOf<U>(reply: Reply<U>, startIndex: int): View<U, int> {
    if reply.Failed? || reply.totalResults < 0 then Bad
    else if startIndex + |reply.resources| > reply.totalResults then Last(reply.resources)
    else if reply.resources == [] then Bad
    else More(reply.resources, startIndex + |reply.resources|)
  }

  /** As ViewOf, but a total above the limit is refused when `capped`. */
  function CappedViewOf<U>(reply: Reply<U>, startIndex: int, capped: bool): View<U, int> {
    if capped && reply.Listed? && reply.totalResults > MAX_MEMBERS then Bad else ViewOf(reply, startIndex)
  }

  /** A page by its fields: it is the last exactly when it reaches the total, and only then may it be empty. */
  lemma ViewMeans<U>(reply: Reply<U>, startIndex: int, capped: bool, items: seq<U>, next: int)
    ensures CappedViewOf(reply, startIndex, capped) == Last(items) <==>
        && reply.Listed? && reply.resources == items && reply.totalResults >= 0
        && (capped ==> reply.totalResults <= 100_000) && startIndex + |items| > reply.totalResults
    ensures CappedViewOf(reply, startIndex, capped) == More(items, next) <==>
        && reply.Listed? && reply.resources == items && items != [] && next == startIndex + |items|
        && 0 <= reply.totalResults && next <= reply.totalResults && (capped ==> reply.totalResults <= 100_000)
  {
  }

  function SourceOf<U>(vendor: Vendor<U>, capped: bool): Source<U, int> {
    (k: nat, startIndex) => CappedViewOf(vendor(k, startIndex), startIndex, capped)
  }

  ghost predicate Rising(cursors: seq<int>) {
    forall i, j | 0 <= i < j < |cursors| :: cursors[i] < cursors[j]
  }

  /** The state of an offset loop: the start index is one more than the number of users so far. */
  ghost predicate AtOffset<U>(source: Source<U, int>, cursors: seq<int>, users: seq<U>) {
    && Chain(source, 1, cursors) && Rising(cursors)
    && users == Gathered(source, cursors[..|cursors| - 1])
    && cursors[|cursors| - 1] == 1 + |users|
  }

  lemma NextOffset<U>(vendor: Vendor<U>, capped: bool, cursors: seq<int>, users: seq<U>)
    requires AtOffset(SourceOf(vendor, capped), cursors, users) && Page(SourceOf(vendor, capped), cursors).More?
    ensures var page := Page(SourceOf(vendor, capped), cursors);
      AtOffset(SourceOf(vendor, capped), cursors + [page.next], users + page.items)
  {
    var source := SourceOf(vendor, capped);
    var page := Page(source, cursors);
    var last := cursors[|cursors| - 1];
    assert page == CappedViewOf(vendor(|cursors| - 1, last), last, capped);
    assert forall i | 0 <= i < |cursors| :: cursors[i] <= last;
    ChainNext(source, 1, cursors, page.next);
    assert (cursors + [page.next])[..|cursors|] == cursors;
  }

  /** What the step for the last page says of the chain as a whole. */
  lemma StepDecides<U, V>(
      source: Source<U, int>, cursors: seq<int>, users: seq<U>, step: Step<V, int>, record: U -> V)
    requires AtOffset(source, cursors, users) && |cursors| <= MAX_PAGES
    requires StepFor(Page(source, cursors), users, step, record)
    ensures Followed(source, 1, cursors)
    ensures step.Stop? ==> forall other :: !Collectable(source, 1, other)
    ensures step.Done? ==> Collectable(source, 1, cursors) && step.records == Records(Gathered(source, cursors), record)
  {
    if step.Stop? {
      NoCollectableEnd(source, 1, cursors);
    }
  }

  // ---------------------------------------------------------------- a list that does not change

  /** The pages of a fixed list of users: c at a time. */
  function Stable<U>(users: seq<U>, c: nat): Vendor<U> {
    (k: nat, startIndex) =>
      if 1 <= startIndex <= |users| then Listed(|users|, Slice(users, startIndex - 1, c)) else Listed(|users|, [])
  }

  function Slice<U>(users: seq<U>, from: nat, c: nat): seq<U>
    requires from <= |users|
  {
    users[from..if from + c <= |users| then from + c else |users|]
  }

  /** The number of users on k pages of c. */
  function Total(c: nat, k: nat): nat { if k == 0 then 0 else Total(c, k - 1) + c }

  /** The start indexes of k pages. */
  ghost function Starts(c: nat, k: nat): (cursors: seq<int>)
    ensures |cursors| == k
  {
    if k == 0 then [] else Starts(c, k - 1) + [1 + Total(c, k - 1)]
  }

  function Prefix<U>(users: seq<U>, n: nat): seq<U> { users[..if n <= |users| then n else |users|] }

  lemma SliceAppend<U>(users: seq<U>, from: nat, c: nat)
    requires from <= |users|
    ensures Prefix(users, from) + Slice(users, from, c) == Prefix(users, from + c)
  {
  }

  /** There is a page k: it begins inside the list, or it is the first. */
  predicate HasPage(n: nat, c: nat, k: nat) { k == 0 || Total(c, k) < n }

  /** Page k of a fixed list. */
  lemma StablePage<U>(users: seq<U>, c: nat, capped: bool, k: nat)
    requires c > 0 && HasPage(|users|, c, k) && (capped ==> |users| <= MAX_MEMBERS)
    ensures var view := Page(SourceOf(Stable(users, c), capped), Starts(c, k + 1));
      && Total(c, k) <= |users|
      && !view.Bad? && view.items == Slice(users, Total(c, k), c)
      && (view.Last? <==> Total(c, k + 1) >= |users|)
      && (view.More? ==> view.next == 1 + Total(c, k + 1))
  {
    var startIndex := 1 + Total(c, k);
    assert Starts(c, k + 1)[k] == startIndex;
    var reply := Stable(users, c)(k, startIndex);
    assert Page(SourceOf(Stable(users, c), capped), Starts(c, k + 1)) == CappedViewOf(reply, startIndex, capped);
    assert reply == Listed(|users|, Slice(users, Total(c, k), c));
  }

  lemma {:induction false} StartsRise(c: nat, k: nat)
    requires c > 0
    ensures Rising(Starts(c, k)) && forall i | i in Starts(c, k) :: i < 1 + Total(c, k)
  {
    if k > 0 {
      StartsRise(c, k - 1);
      assert Starts(c, k)[..k - 1] == Starts(c, k - 1);
      assert forall i | 0 <= i < k - 1 ::
          Starts(c, k)[i] == Starts(c, k - 1)[i] && Starts(c, k - 1)[i] in Starts(c, k - 1);
    }
  }

  lemma {:induction false} StableChain<U>(users: seq<U>, c: nat, capped: bool, k: nat)
    requires c > 0 && HasPage(|users|, c, k) && (capped ==> |users| <= MAX_MEMBERS)
    ensures Chain(SourceOf(Stable(users, c), capped), 1, Starts(c, k + 1))
  {
    if k > 0 {
      StableChain(users, c, capped, k - 1);
      StablePage(users, c, capped, k - 1);
      ChainNext(SourceOf(Stable(users, c), capped), 1, Starts(c, k), 1 + Total(c, k));
    } else {
      assert Starts(c, 1) == [1];
    }
  }

  /** The first k + 1 pages of a fixed list hold as many users from its beginning. */
  lemma {:induction false} StableGathered<U>(users: seq<U>, c: nat, capped: bool, k: nat)
    requires c > 0 && HasPage(|users|, c, k) && (capped ==> |users| <= MAX_MEMBERS)
    ensures Gathered(SourceOf(Stable(users, c), capped), Starts(c, k + 1)) == Prefix(users, Total(c, k + 1))
  {
    StableItems(users, c, capped, k);
    SliceAppend(users, Total(c, k), c);
    if k == 0 {
      assert Starts(c, 0) == [];
    } else {
      StableGathered(users, c, capped, k - 1);
    }
  }

  lemma StableItems<U>(users: seq<U>, c: nat, capped: bool, k: nat)
    requires c > 0 && HasPage(|users|, c, k) && (capped ==> |users| <= MAX_MEMBERS)
    ensures Total(c, k) <= |users|
    ensures var source := SourceOf(Stable(users, c), capped);
      Gathered(source, Starts(c, k + 1)) == Gathered(source, Starts(c, k)) + Slice(users, Total(c, k), c)
  {
    StablePage(users, c, capped, k);
    GatheredNext(SourceOf(Stable(users, c), capped), Starts(c, k), 1 + Total(c, k));
  }

  /** Page `last` is the last page of n users. */
  predicate IsLast(n: nat, c: nat, last: nat) { HasPage(n, c, last) && Total(c, last + 1) >= n }

  lemma {:induction false} LastPageOf(n: nat, c: nat, k: nat) returns (last: nat)
    requires c > 0 && HasPage(n, c, k)
    ensures IsLast(n, c, last)
    decreases n - Total(c, k)
  {
    if Total(c, k + 1) >= n {
      return k;
    }
    last := LastPageOf(n, c, k + 1);
  }

  lemma {:induction false} TotalMonotone(c: nat, a: nat, b: nat)
    requires a <= b
    ensures Total(c, a) <= Total(c, b)
  {
    if a < b {
      TotalMonotone(c, a, b - 1);
    }
  }

  lemma {:induction false} TotalIsProduct(c: nat, k: nat)
    ensures Total(c, k) == k * c
  {
    if k > 0 {
      TotalIsProduct(c, k - 1);
      assert k * c == (k - 1) * c + c;
    }
  }

  lemma PagesFit(n: nat, c: nat, last: nat)
    requires c > 0 && IsLast(n, c, last)
    ensures last + 1 <= MAX_PAGES <==> n <= MAX_PAGES * c
  {
    TotalIsProduct(c, MAX_PAGES);
    if last < MAX_PAGES {
      TotalMonotone(c, last + 1, MAX_PAGES);
    } else {
      TotalMonotone(c, MAX_PAGES, last);
    }
  }

  lemma StableEnd<U>(users: seq<U>, c: nat, capped: bool, last: nat)
    requires c > 0 && IsLast(|users|, c, last) && (capped ==> |users| <= MAX_MEMBERS)
    ensures Ends(SourceOf(Stable(users, c), capped), 1, Starts(c, last + 1)) && Distinct(Starts(c, last + 1))
    ensures Gathered(SourceOf(Stable(users, c), capped), Starts(c, last + 1)) == users
  {
    StableChain(users, c, capped, last);
    StablePage(users, c, capped, last);
    assert Ends(SourceOf(Stable(users, c), capped), 1, Starts(c, last + 1));
    StartsRise(c, last + 1);
    StableGathered(users, c, capped, last);
    WholePrefix(users, Total(c, last + 1));
  }

  lemma WholePrefix<U>(users: seq<U>, n: nat)
    requires n >= |users|
    ensures Prefix(users, n) == users
  {
  }

  /**
   Of a fixed list of n users in pages of c, exactly the list is returned, or nothing: it is
   returned if and only if it takes no more than 1000 pages and has no more than 100000 users.
  */
  lemma StableList<U>(users: seq<U>, c: nat, capped: bool)
    requires c > 0
    ensures var source := SourceOf(Stable(users, c), capped);
      && ((exists cursors :: Collectable(source, 1, cursors)) <==> |users| <= MAX_PAGES * c && |users| <= MAX_MEMBERS)
      && forall cursors | Collectable(source, 1, cursors) :: Gathered(source, cursors) == users
  {
    if capped && |users| > MAX_MEMBERS {
      LongListRefused(users, c);
    } else {
      var last := LastPageOf(|users|, c, 0);
      StableEnd(users, c, capped, last);
      PagesFit(|users|, c, last);
      OneCollectable(SourceOf(Stable(users, c), capped), Starts(c, last + 1));
    }
  }

  lemma LongListRefused<U>(users: seq<U>, c: nat)
    requires |users| > MAX_MEMBERS
    ensures forall cursors :: !Accepted(SourceOf(Stable(users, c), true), 1, cursors)
  {
    var source := SourceOf(Stable(users, c), true);
    assert Page(source, [1]) == CappedViewOf(Stable(users, c)(0, 1), 1, true);
    NoAcceptedEnd(source, 1, [1]);
  }

  lemma OneCollectable<U>(source: Source<U, int>, ended: seq<int>)
    requires Ends(source, 1, ended) && Distinct(ended)
    ensures forall cursors | Collectable(source, 1, cursors) :: cursors == ended
    ensures Collectable(source, 1, ended) <==> |ended| <= MAX_PAGES && |Gathered(source, ended)| <= MAX_MEMBERS
  {
    forall cursors | Collectable(source, 1, cursors)
      ensures cursors == ended
    {
      OneEnd(source, 1, cursors, ended);
    }
  }
}
