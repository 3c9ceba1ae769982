/**
 The chain of pages that a collector follows. A vendor is any function of the number of the request
 and its cursor, so it may answer the same cursor differently each time; a page either ends the
 chain, names the cursor of the next page, or makes the collection fail.
*/
module Chains {
  const MAX_PAGES := 1000
  const MAX_MEMBERS := 100_000

  datatype View<T, K> = Bad | Last(items: seq<T>) | More(items: seq<T>, next: K)

  type Source<!T, !K> = (nat, K) -> View<T, K>

  /** Page i names cursor i + 1 as the next. */
  ghost predicate Leads<T, K>(source: Source<T, K>, cursors: seq<K>, i: nat)
    requires i + 1 < |cursors|
  {
    source(i, cursors[i]).More? && source(i, cursors[i]).next == cursors[i + 1]
  }

  ghost predicate Chain<T, K>(source: Source<T, K>, start: K, cursors: seq<K>) {
    && cursors != [] && cursors[0] == start
    && forall i | 0 <= i < |cursors| - 1 :: Leads(source, cursors, i)
  }

  /** The page that the last of the cursors leads to. */
  function Page<T, K>(source: Source<T, K>, cursors: seq<K>): View<T, K>
    requires cursors != []
  {
    source(|cursors| - 1, cursors[|cursors| - 1])
  }

  function Items<T, K>(page: View<T, K>): seq<T> {
    if page.Bad? then [] else page.items
  }

  /** The items of all these pages, in order. */
  function Gathered<T, K>(source: Source<T, K>, cursors: seq<K>): seq<T> {
    if cursors == [] then []
    else Gathered(source, cursors[..|cursors| - 1]) + Items(Page(source, cursors))
  }

  ghost predicate Distinct<K>(cursors: seq<K>) {
    forall i, j | 0 <= i < j < |cursors| :: cursors[i] != cursors[j]
  }

  /** The chain reaches its last page. */
  ghost predicate Ends<T, K>(source: Source<T, K>, start: K, cursors: seq<K>) {
    Chain(source, start, cursors) && Page(source, cursors).Last?
  }

  /** A chain that a collector accepts: it ends in time and never comes back to a cursor. */
  ghost predicate Accepted<T, K>(source: Source<T, K>, start: K, cursors: seq<K>) {
    Ends(source, start, cursors) && Distinct(cursors) && |cursors| <= MAX_PAGES
  }

  /** An accepted chain with no more items than the member limit. */
  ghost predicate Collectable<T, K>(source: Source<T, K>, start: K, cursors: seq<K>) {
    Accepted(source, start, cursors) && |Gathered(source, cursors)| <= MAX_MEMBERS
  }

  /** The requests followed the chain, never asked for a cursor twice, and were no more than 1000. */
  ghost predicate Followed<T, K>(source: Source<T, K>, start: K, requests: seq<K>) {
    Chain(source, start, requests) && Distinct(requests) && |requests| <= MAX_PAGES
  }

  /** memberPageFits. */
  predicate MemberPageFits(current: int, incoming: int) {
    incoming >= 0 && current <= MAX_MEMBERS && incoming <= MAX_MEMBERS - current
  }

  /** One record for each vendor account, in order. */
  function Records<T, U>(items: seq<T>, record: T -> U): (records: seq<U>)
    ensures |records| == |items|
  {
    if items == [] then [] else Records(items[..|items| - 1], record) + [record(items[|items| - 1])]
  }

  lemma RecordsAppend<T, U>(items: seq<T>, added: seq<T>, i: nat, record: T -> U)
    requires i < |added|
    ensures Records(items + added[..i + 1], record) == Records(items + added[..i], record) + [record(added[i])]
  {
    assert (items + added[..i + 1])[..|items| + i] == items + added[..i];
  }

  /** The inner loop of a collector: the record of each account of a page is appended. */
  method AppendRecords<T, U>(
      records: seq<U>, ghost items: seq<T>, added: seq<T>, record: T -> U)
    returns (longer: seq<U>)
    requires records == Records(items, record)
    ensures longer == Records(items + added, record)
  {
    longer := records;
    assert items + added[..0] == items;
    for i := 0 to |added|
      invariant longer == Records(items + added[..i], record)
    {
      RecordsAppend(items, added, i, record);
      longer := longer + [record(added[i])];
    }
    assert added[..|added|] == added;
  }

  lemma RecordsOne<T, U>(items: seq<T>, item: T, record: T -> U)
    ensures Records(items + [item], record) == Records(items, record) + [record(item)]
  {
    assert (items + [item])[..|items|] == items;
  }

  lemma {:induction false} RecordsAt<T, U>(items: seq<T>, record: T -> U, k: nat)
    requires k < |items|
    ensures Records(items, record)[k] == record(items[k])
  {
    if k < |items| - 1 {
      RecordsAt(items[..|items| - 1], record, k);
    }
  }

  /** Why a collection fails. */
  datatype CollectError = VendorFailed | MemberLimit | RepeatedCursor | PaginationLimit

  /** What one page makes of the records so far: an error, the complete list, or a list to go on with. */
  datatype Step<U, K> = Stop(error: CollectError) | Done(records: seq<U>) | Go(records: seq<U>, next: K)

  ghost predicate StepFor<T, U, K>(view: View<T, K>, items: seq<T>, step: Step<U, K>, record: T -> U) {
    match step
    case Stop(_) => view.Bad? || |items| + |view.items| > MAX_MEMBERS
    case Done(records) => view.Last? && |records| <= MAX_MEMBERS && records == Records(items + view.items, record)
    case Go(records, next) => view.More? && view.next == next && records == Records(items + view.items, record)
  }

  // ---------------------------------------------------------------- chains have one end

  lemma {:induction false} ChainsAgree<T, K>(source: Source<T, K>, start: K, a: seq<K>, b: seq<K>, k: nat)
    requires Chain(source, start, a) && Chain(source, start, b) && k < |a| && k < |b|
    ensures a[k] == b[k]
  {
    if k > 0 {
      ChainsAgree(source, start, a, b, k - 1);
      assert Leads(source, a, k - 1) && Leads(source, b, k - 1);
    }
  }

  /** A chain that ends runs through every other chain from the same start. */
  lemma EndIsBeyond<T, K>(source: Source<T, K>, start: K, a: seq<K>, b: seq<K>)
    requires Chain(source, start, a) && Ends(source, start, b)
    ensures a <= b && (Page(source, a).Last? <==> a == b) && !Page(source, a).Bad?
  {
    if |b| < |a| {
      assert Leads(source, a, |b| - 1);
      ChainsAgree(source, start, a, b, |b| - 1);
    }
    forall k | 0 <= k < |a|
      ensures a[k] == b[k]
    {
      ChainsAgree(source, start, a, b, k);
    }
    assert |a| < |b| ==> Leads(source, b, |a| - 1);
  }

  /** So there is at most one result. */
  lemma OneEnd<T, K>(source: Source<T, K>, start: K, a: seq<K>, b: seq<K>)
    requires Ends(source, start, a) && Ends(source, start, b)
    ensures a == b
  {
    EndIsBeyond(source, start, a, b);
  }

  /** A bad page, a cursor that comes again, or too many pages: no accepted end. */
  lemma NoAcceptedEnd<T, K>(source: Source<T, K>, start: K, a: seq<K>)
    requires Chain(source, start, a) && (Page(source, a).Bad? || !Distinct(a) || |a| > MAX_PAGES)
    ensures forall b :: !Accepted(source, start, b)
  {
    forall b | Accepted(source, start, b)
      ensures false
    {
      EndIsBeyond(source, start, a, b);
    }
  }

  lemma {:induction false} GatheredGrows<T, K>(source: Source<T, K>, a: seq<K>, b: seq<K>)
    requires a <= b
    ensures |Gathered(source, a)| <= |Gathered(source, b)|
  {
    if a != b {
      GatheredGrows(source, a, b[..|b| - 1]);
    }
  }

  /** A bad page, or more items than fit: no collectable end. */
  lemma NoCollectableEnd<T, K>(source: Source<T, K>, start: K, a: seq<K>)
    requires Chain(source, start, a) && (Page(source, a).Bad? || |Gathered(source, a)| > MAX_MEMBERS)
    ensures forall b :: !Collectable(source, start, b)
  {
    forall b | Collectable(source, start, b)
      ensures false
    {
      EndIsBeyond(source, start, a, b);
      GatheredGrows(source, a, b);
    }
  }

  ghost predicate Between<T>(part: seq<T>, all: seq<T>, start: nat, end: nat) {
    start <= end <= |all| && all[start..end] == part
  }

  lemma StaysBetween<T>(part: seq<T>, all: seq<T>, more: seq<T>, start: nat, end: nat)
    requires Between(part, all, start, end)
    ensures Between(part, all + more, start, end)
  {
    assert (all + more)[start..end] == all[start..end];
  }

  /** Page k stands from offset k to the next one in all that was gathered. */
  ghost predicate Cut<T, K>(source: Source<T, K>, cursors: seq<K>, all: seq<T>, offsets: seq<nat>) {
    && |offsets| == |cursors| + 1 && offsets[0] == 0 && offsets[|cursors|] == |all|
    && forall k | 0 <= k < |cursors| :: Between(Items(source(k, cursors[k])), all, offsets[k], offsets[k + 1])
  }

  lemma CutNext<T, K>(source: Source<T, K>, cursors: seq<K>, all: seq<T>, offsets: seq<nat>, more: seq<T>)
    requires cursors != [] && Cut(source, cursors[..|cursors| - 1], all, offsets)
    requires more == Items(Page(source, cursors))
    ensures Cut(source, cursors, all + more, offsets + [|all + more|])
  {
    var n := |cursors| - 1;
    assert Between(more, all + more, |all|, |all + more|);
    forall k | 0 <= k < n
      ensures Between(Items(source(k, cursors[k])), all + more, offsets[k], offsets[k + 1])
    {
      assert cursors[..n][k] == cursors[k];
      StaysBetween(Items(source(k, cursors[k])), all, more, offsets[k], offsets[k + 1]);
    }
  }

  /** What has been gathered, cut at the ends of the pages, is the items of each page in turn. */
  lemma {:induction false} GatheredParts<T, K>(source: Source<T, K>, cursors: seq<K>) returns (offsets: seq<nat>)
    ensures Cut(source, cursors, Gathered(source, cursors), offsets)
    ensures |offsets| == |cursors| + 1 && offsets[0] == 0 && offsets[|cursors|] == |Gathered(source, cursors)|
    ensures forall k {:trigger cursors[k]} | 0 <= k < |cursors| ::
        && offsets[k] <= offsets[k + 1] <= |Gathered(source, cursors)|
        && Gathered(source, cursors)[offsets[k]..offsets[k + 1]] ==
             match source(k, cursors[k]) case Bad => [] case Last(items) => items case More(items, _) => items
  {
    offsets := [0];
    if cursors != [] {
      offsets := GatheredParts(source, cursors[..|cursors| - 1]);
      var before := Gathered(source, cursors[..|cursors| - 1]);
      CutNext(source, cursors, before, offsets, Items(Page(source, cursors)));
      offsets := offsets + [|Gathered(source, cursors)|];
    }
  }

  /** An accepted chain by its pages: each names the next cursor, the last one none, and no cursor comes twice. */
  lemma AcceptedMeans<T, K>(source: Source<T, K>, start: K, cursors: seq<K>)
    ensures Accepted(source, start, cursors) <==>
        && 1 <= |cursors| <= 1000 && cursors[0] == start
        && (forall i | 0 <= i < |cursors| - 1 ::
            source(i, cursors[i]).More? && source(i, cursors[i]).next == cursors[i + 1])
        && source(|cursors| - 1, cursors[|cursors| - 1]).Last?
        && forall i, j | 0 <= i < j < |cursors| :: cursors[i] != cursors[j]
    ensures Collectable(source, start, cursors) <==>
        Accepted(source, start, cursors) && |Gathered(source, cursors)| <= 100_000
  {
    ChainMeans(source, start, cursors);
  }

  lemma ChainMeans<T, K>(source: Source<T, K>, start: K, cursors: seq<K>)
    ensures Chain(source, start, cursors) <==>
        && cursors != [] && cursors[0] == start
        && forall i | 0 <= i < |cursors| - 1 ::
          source(i, cursors[i]).More? && source(i, cursors[i]).next == cursors[i + 1]
  {
    forall i | Chain(source, start, cursors) && 0 <= i < |cursors| - 1
      ensures source(i, cursors[i]).More? && source(i, cursors[i]).next == cursors[i + 1]
    {
      assert Leads(source, cursors, i);
    }
  }

  lemma GatheredNext<T, K>(source: Source<T, K>, cursors: seq<K>, cursor: K)
    ensures Gathered(source, cursors + [cursor]) == Gathered(source, cursors) + Items(Page(source, cursors + [cursor]))
  {
    assert (cursors + [cursor])[..|cursors|] == cursors;
  }

  // ---------------------------------------------------------------- the loop

  /** The cursors after the first, as the `seen` set holds them. */
  ghost function Later<K>(cursors: seq<K>): set<K> {
    if |cursors| <= 1 then {} else Later(cursors[..|cursors| - 1]) + {cursors[|cursors| - 1]}
  }

  lemma {:induction false} InLater<K>(cursors: seq<K>, c: K)
    ensures c in Later(cursors) <==> exists i :: 1 <= i < |cursors| && cursors[i] == c
  {
    if |cursors| > 1 {
      InLater(cursors[..|cursors| - 1], c);
    }
  }

  lemma DistinctNext<K>(cursors: seq<K>, next: K)
    requires Distinct(cursors) && cursors != [] && next !in Later(cursors) && next != cursors[0]
    ensures Distinct(cursors + [next])
  {
    InLater(cursors, next);
  }

  lemma ChainNext<T, K>(source: Source<T, K>, start: K, cursors: seq<K>, next: K)
    requires Chain(source, start, cursors) && Page(source, cursors).More? && Page(source, cursors).next == next
    ensures Chain(source, start, cursors + [next])
  {
    forall i | 0 <= i < |cursors|
      ensures Leads(source, cursors + [next], i)
    {
      assert i < |cursors| - 1 ==> Leads(source, cursors, i);
    }
  }

  /** The state of a cursor loop before the request of the last cursor. */
  ghost predicate AtPage<T, K>(source: Source<T, K>, start: K, cursors: seq<K>, items: seq<T>, seen: set<K>) {
    && Chain(source, start, cursors) && Distinct(cursors) && seen == Later(cursors)
    && items == Gathered(source, cursors[..|cursors| - 1])
  }

  lemma NextPage<T, K>(source: Source<T, K>, start: K, cursors: seq<K>, items: seq<T>, seen: set<K>)
    requires AtPage(source, start, cursors, items, seen) && Page(source, cursors).More?
    requires Page(source, cursors).next !in seen && Page(source, cursors).next != start
    ensures var page := Page(source, cursors);
      AtPage(source, start, cursors + [page.next], items + page.items, seen + {page.next})
  {
    var next := Page(source, cursors).next;
    DistinctNext(cursors, next);
    ChainNext(source, start, cursors, next);
    assert (cursors + [next])[..|cursors|] == cursors;
  }

  /** A next cursor that was seen: no accepted end. */
  lemma SeenPage<T, K>(source: Source<T, K>, start: K, cursors: seq<K>, items: seq<T>, seen: set<K>)
    requires AtPage(source, start, cursors, items, seen) && Page(source, cursors).More?
    requires Page(source, cursors).next in seen
    ensures forall b :: !Accepted(source, start, b)
  {
    var next := Page(source, cursors).next;
    var longer := cursors + [next];
    ChainNext(source, start, cursors, next);
    InLater(cursors, next);
    var i :| 0 <= i < |cursors| && cursors[i] == next;
    assert longer[i] == longer[|cursors|];
    NoAcceptedEnd(source, start, longer);
  }

  // ---------------------------------------------------------------- vendors that do not change

  /** The vendor answers a cursor the same way every time. */
  ghost predicate Steady<T(!new), K(!new)>(source: Source<T, K>) {
    forall k: nat, c :: source(k, c) == source(0, c)
  }

  lemma {:induction false} Shifted<T(!new), K(!new)>(
      source: Source<T, K>, start: K, cursors: seq<K>, i: nat, j: nat, d: nat)
    requires Steady(source) && Chain(source, start, cursors)
    requires i < j && j + d < |cursors| && cursors[i] == cursors[j]
    ensures cursors[i + d] == cursors[j + d]
  {
    if d > 0 {
      Shifted(source, start, cursors, i, j, d - 1);
      assert Leads(source, cursors, i + d - 1) && Leads(source, cursors, j + d - 1);
      assert source(i + d - 1, cursors[i + d - 1]) == source(j + d - 1, cursors[j + d - 1]);
    }
  }

  /**
   Refusing a repeated cursor loses nothing: a steady vendor's chain that comes back to a cursor never
   ends, so every chain that does end within the page limit is accepted.
  */
  lemma SteadyChainsNeverRepeat<T(!new), K(!new)>(source: Source<T, K>, start: K, cursors: seq<K>)
    requires Steady(source) && Ends(source, start, cursors)
    ensures Distinct(cursors)
  {
    forall i, j | 0 <= i < j < |cursors|
      ensures cursors[i] != cursors[j]
    {
      if cursors[i] == cursors[j] {
        var d := |cursors| - 1 - j;
        // The same number of pages later, a page before the last would be the last.
        assert Leads(source, cursors, i + d);
        Shifted(source, start, cursors, i, j, d);
      }
    }
  }

  /** A steady vendor whose chain comes back to a cursor never gives a list. */
  lemma CyclicVendorFails<T(!new), K(!new)>(source: Source<T, K>, start: K, cursors: seq<K>)
    requires Steady(source) && Chain(source, start, cursors) && !Distinct(cursors)
    ensures forall b :: !Ends(source, start, b)
  {
    forall b | Ends(source, start, b)
      ensures false
    {
      EndIsBeyond(source, start, cursors, b);
      SteadyChainsNeverRepeat(source, start, b);
    }
  }
}
