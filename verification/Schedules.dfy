/**
 What the schedule of the deploy-key workers can show in the report. Keys that share repository, name and
 id reach the sort in the order in which their results arrive; a sort that keeps the order of equal
 elements would pass that order on.
*/
module Schedules {
  import opened Wire
  import opened Sequences
  import opened DeployKeys
  import Sorting

  // ---------------------------------------------------------------- two schedules

  ghost predicate Reached(total: nat, s: Pool) {
    exists steps, states :: Run(steps, states, total) && states[|steps|] == s
  }

  lemma ReachStart(total: nat)
    ensures Reached(total, Start(total))
  {
    var steps: seq<Step>, states := [], [Start(total)];
    assert Run(steps, states, total) && states[|steps|] == Start(total);
  }

  lemma ReachStep(total: nat, s: Pool, step: Step)
    requires Reached(total, s) && Enabled(s, step)
    ensures Reached(total, Apply(s, step))
  {
    var steps, states :| Run(steps, states, total) && states[|steps|] == s;
    var t := Apply(s, step);
    forall k | 0 <= k < |steps + [step]|
      ensures Taken(steps + [step], states + [t], k)
    {
      assert k < |steps| ==> Taken(steps, states, k);
    }
    assert (states + [t])[|steps + [step]|] == t;
  }

  function Interval(from: nat, to: nat): seq<nat> {
    if from >= to then [] else Interval(from, to - 1) + [to - 1]
  }

  /** The worker takes the next repository, scans it, and its result is received at once. */
  lemma Serve(total: nat, s: Pool, w: nat) returns (t: Pool)
    requires Reached(total, s) && w < |s.workers| && s.workers[w] == Idle && s.next < s.total
    requires s.buffer == [] && !s.finished
    ensures Reached(total, t) && t == s.(next := s.next + 1, received := s.received + [s.next])
  {
    ReachStep(total, s, Handoff(w));
    t := Deliver(total, Apply(s, Handoff(w)), w, s.next);
    assert t.workers == s.workers;
  }

  /** The rest of a scan: the worker holds a repository and its result is received at once. */
  lemma Deliver(total: nat, s: Pool, w: nat, i: nat) returns (t: Pool)
    requires Reached(total, s) && w < |s.workers| && s.workers[w] == Scanning(i)
    requires s.buffer == [] && !s.finished && s.total > 0
    ensures Reached(total, t) && t == s.(workers := s.workers[w := Idle], received := s.received + [i])
  {
    var s1 := Apply(s, ScanDone(w));
    ReachStep(total, s, ScanDone(w));
    var s2 := Apply(s1, SendResult(w));
    ReachStep(total, s1, SendResult(w));
    t := Apply(s2, Receive);
    ReachStep(total, s2, Receive);
    assert t.workers == s.workers[w := Idle];
  }

  lemma {:induction false} ServeTo(total: nat, s: Pool, w: nat, from: nat, n: nat, before: seq<nat>) returns (t: Pool)
    requires Reached(total, s) && w < |s.workers| && s.workers[w] == Idle && s.next == from <= n <= s.total
    requires s.buffer == [] && !s.finished && s.received == before
    ensures Reached(total, t) && t == s.(next := n, received := before + Interval(from, n))
    decreases n - from
  {
    if from == n {
      assert before + Interval(n, n) == before;
      return s;
    }
    var s1 := ServeTo(total, s, w, from, n - 1, before);
    t := Serve(total, s1, w);
    Associative(before, Interval(from, n - 1), [n - 1]);
  }

  ghost predicate AllIdle(s: Pool) {
    |s.workers| == WORKERS && forall w | 0 <= w < WORKERS :: s.workers[w] == Idle
  }

  lemma {:induction false} ExitFrom(total: nat, s: Pool, w: nat) returns (t: Pool)
    requires Reached(total, s) && |s.workers| == WORKERS && w <= WORKERS && s.jobsClosed
    requires forall v | 0 <= v < WORKERS :: s.workers[v] == if v < w then Exited else Idle
    ensures Reached(total, t) && t == s.(workers := t.workers) && |t.workers| == WORKERS
    ensures forall v | 0 <= v < WORKERS :: t.workers[v] == Exited
    decreases WORKERS - w
  {
    if w == WORKERS {
      return s;
    }
    ReachStep(total, s, Exit(w));
    t := ExitFrom(total, Apply(s, Exit(w)), w + 1);
  }

  lemma Close(total: nat, s: Pool) returns (t: Pool)
    requires Reached(total, s) && AllIdle(s) && s.next == s.total && s.buffer == []
    requires !s.jobsClosed && !s.resultsClosed && !s.finished
    ensures Reached(total, t) && t.finished && t.received == s.received
  {
    ReachStep(total, s, CloseJobs);
    var s1 := ExitFrom(total, Apply(s, CloseJobs), 0);
    ReachStep(total, s1, CloseResults);
    ReachStep(total, Apply(s1, CloseResults), Finish);
    t := Apply(Apply(s1, CloseResults), Finish);
  }

  /** One worker does everything. */
  lemma InOrder(total: nat) returns (t: Pool)
    ensures Reached(total, t) && t.finished && t.received == Interval(0, total)
  {
    ReachStart(total);
    t := FinishRun(total, Start(total), [], 0);
    assert [] + Interval(0, total) == Interval(0, total);
  }

  /** One worker is slow with repository i, and another one serves those up to j in the meantime. */
  lemma LateOne(total: nat, i: nat, j: nat) returns (t: Pool)
    requires i < j < total
    ensures Reached(total, t) && t.finished
    ensures t.received == Interval(0, i) + Interval(i + 1, j + 1) + [i] + Interval(j + 1, total)
  {
    var s := LateArrived(total, i, j);
    t := FinishRun(total, s, Interval(0, i) + Interval(i + 1, j + 1) + [i], j + 1);
  }

  /** One worker does the rest. */
  lemma FinishRun(total: nat, s: Pool, before: seq<nat>, next: nat) returns (t: Pool)
    requires Reached(total, s) && Open(total, s) && s.next == next <= total && s.received == before
    ensures Reached(total, t) && t.finished && t.received == before + Interval(next, total)
  {
    var s1 := ServeTo(total, s, 0, next, total, before);
    t := Close(total, s1);
  }

  /** Nothing is closed yet, and every worker is free. */
  ghost predicate Open(total: nat, s: Pool) {
    AllIdle(s) && s.total == total && s.buffer == [] && !s.jobsClosed && !s.resultsClosed && !s.finished
  }

  /** Worker 0 holds i, and the others are free. */
  ghost predicate Holding(total: nat, s: Pool, i: nat) {
    && |s.workers| == WORKERS && s.workers[0] == Scanning(i) && (forall w | 1 <= w < WORKERS :: s.workers[w] == Idle)
    && s.total == total && s.buffer == [] && !s.jobsClosed && !s.resultsClosed && !s.finished
  }

  lemma LateArrived(total: nat, i: nat, j: nat) returns (t: Pool)
    requires i < j < total
    ensures Reached(total, t) && Open(total, t) && t.next == j + 1
    ensures t.received == Interval(0, i) + Interval(i + 1, j + 1) + [i]
  {
    var s1 := HeldBack(total, i);
    var s2 := Overtaken(total, s1, i, j, Interval(0, i));
    t := Late(total, s2, i, Interval(0, i) + Interval(i + 1, j + 1));
  }

  lemma Overtaken(total: nat, s: Pool, i: nat, j: nat, before: seq<nat>) returns (t: Pool)
    requires i < j < total && Reached(total, s) && Holding(total, s, i) && s.next == i + 1 && s.received == before
    ensures Reached(total, t) && Holding(total, t, i) && t.next == j + 1
    ensures t.received == before + Interval(i + 1, j + 1)
  {
    t := ServeTo(total, s, 1, i + 1, j + 1, before);
  }

  lemma Late(total: nat, s: Pool, i: nat, before: seq<nat>) returns (t: Pool)
    requires i < total && Reached(total, s) && Holding(total, s, i) && s.received == before
    ensures Reached(total, t) && Open(total, t) && t.next == s.next && t.received == before + [i]
  {
    t := Deliver(total, s, 0, i);
  }

  /** Everything before i has arrived. */
  lemma HeldBack(total: nat, i: nat) returns (t: Pool)
    requires i < total
    ensures Reached(total, t) && Holding(total, t, i) && t.next == i + 1 && t.received == Interval(0, i)
  {
    ReachStart(total);
    var s := ServeTo(total, Start(total), 0, 0, i, []);
    assert [] + Interval(0, i) == Interval(0, i);
    ReachStep(total, s, Handoff(0));
    t := Apply(s, Handoff(0));
  }

  // ---------------------------------------------------------------- commuting lists

  ghost predicate Commute<T>(a: seq<T>, b: seq<T>) { a + b == b + a }

  lemma CommuteJoin<T>(x: seq<T>, a: seq<T>, b: seq<T>)
    requires Commute(x, a) && Commute(x, b)
    ensures Commute(x, a + b)
  {
    Associative(x, a, b);
    Associative(a, x, b);
    Associative(a, b, x);
  }

  /** What commutes with a product and with its first part commutes with the second part. */
  lemma CommuteSplit<T>(x: seq<T>, a: seq<T>, b: seq<T>)
    requires Commute(x, a) && Commute(x, a + b)
    ensures Commute(x, b)
  {
    Associative(x, a, b);
    Associative(a, x, b);
    Associative(a, b, x);
    CancelFront(a, x + b, b + x);
  }

  lemma {:induction false} CommutesWithAll<T>(x: seq<T>, order: seq<nat>, items: nat -> seq<T>)
    requires forall k: nat :: Commute(x, items(k))
    ensures Commute(x, Flatten(order, items))
  {
    if order == [] {
      assert x + [] == [] + x;
    } else {
      var last := |order| - 1;
      CommutesWithAll(x, order[..last], items);
      CommuteJoin(x, Flatten(order[..last], items), items(order[last]));
    }
  }

  /** Commuting lists give one sequence in whatever order they come. */
  lemma {:induction false} FlattenAnyOrder<T>(a: seq<nat>, b: seq<nat>, items: nat -> seq<T>)
    requires multiset(a) == multiset(b) && forall i: nat, j: nat :: Commute(items(i), items(j))
    ensures Flatten(a, items) == Flatten(b, items)
    decreases |a|
  {
    assert |multiset(a)| == |a| && |multiset(b)| == |b|;
    if a != [] {
      var last := |a| - 1;
      assert a == a[..last] + [a[last]];
      assert a[last] in multiset(b);
      var k :| 0 <= k < |b| && b[k] == a[last];
      FlattenRemove(b, k, items);
      assert multiset(a[..last]) == multiset(a) - multiset{a[last]};
      FlattenAnyOrder(a[..last], b[..k] + b[k + 1..], items);
      MovedToEnd(b, k, items);
    }
  }

  lemma {:induction false} MovedToEnd<T>(b: seq<nat>, k: nat, items: nat -> seq<T>)
    requires k < |b| && forall i: nat, j: nat :: Commute(items(i), items(j))
    ensures Flatten(b, items) == Flatten(b[..k] + b[k + 1..], items) + items(b[k])
  {
    var front, back, x := b[..k], b[k + 1..], items(b[k]);
    assert b == front + ([b[k]] + back);
    FlattenConcat(front, [b[k]] + back, items);
    FlattenConcat([b[k]], back, items);
    FlattenConcat(front, back, items);
    assert Flatten([b[k]], items) == x by {
      assert [b[k]][..0] == [];
      assert [] + x == x;
    }
    CommutesWithAll(x, back, items);
    Associative(Flatten(front, items), Flatten(back, items), x);
  }

  // ---------------------------------------------------------------- keys with one triple

  /** The keys with the repository, name and id of t, in their order. */
  ghost function Tied(keys: seq<DeployKey>, t: DeployKey): seq<DeployKey> {
    if keys == [] then []
    else
      var last := keys[|keys| - 1];
      Tied(keys[..|keys| - 1], t) + (if SameTriple(last, t) then [last] else [])
  }

  lemma {:induction false} TiedConcat(a: seq<DeployKey>, b: seq<DeployKey>, t: DeployKey)
    ensures Tied(a + b, t) == Tied(a, t) + Tied(b, t)
  {
    if b == [] {
      assert a + b == a;
      assert Tied(a, t) + [] == Tied(a, t);
    } else {
      var last := |b| - 1;
      assert (a + b)[..|a + b| - 1] == a + b[..last];
      TiedConcat(a, b[..last], t);
      Associative(Tied(a, t), Tied(b[..last], t), if SameTriple(b[last], t) then [b[last]] else []);
    }
  }

  /** What each repository contributes with the triple of t. */
  ghost function TiedLists(results: seq<ScanResult>, t: DeployKey): nat -> seq<DeployKey> {
    (i: nat) => Tied(KeyLists(results)(i), t)
  }

  lemma {:induction false} TiedFlatten(results: seq<ScanResult>, order: seq<nat>, t: DeployKey)
    ensures Tied(Flatten(order, KeyLists(results)), t) == Flatten(order, TiedLists(results, t))
  {
    if order != [] {
      var last := |order| - 1;
      TiedFlatten(results, order[..last], t);
      TiedConcat(Flatten(order[..last], KeyLists(results)), KeyLists(results)(order[last]), t);
    }
  }

  // ---------------------------------------------------------------- what shows

  ghost predicate Arrived(total: nat, s: Pool) { Reached(total, s) && s.finished }

  lemma ArrivedAll(total: nat, s: Pool)
    requires Arrived(total, s)
    ensures multiset(s.received) == multiset(Range(total))
  {
    var steps, states :| Run(steps, states, total) && states[|steps|] == s;
    AllReceived(steps, states, total);
  }

  /** The keys of a triple that two repositories have come in another order when the repositories do. */
  ghost predicate Entangled(results: seq<ScanResult>) {
    exists i: nat, j: nat, t :: EntangledAt(results, i, j, t)
  }

  ghost predicate EntangledAt(results: seq<ScanResult>, i: nat, j: nat, t: DeployKey) {
    i < j < |results| && !Commute(TiedLists(results, t)(i), TiedLists(results, t)(j))
  }

  /** Two schedules bring the keys of this triple to the sort in different orders. */
  ghost predicate Shows(results: seq<ScanResult>, a: Pool, b: Pool, t: DeployKey) {
    && Arrived(|results|, a) && Arrived(|results|, b)
    && Tied(Flatten(a.received, KeyLists(results)), t) != Tied(Flatten(b.received, KeyLists(results)), t)
  }

  lemma AllCommute(results: seq<ScanResult>, t: DeployKey, i: nat, j: nat)
    requires !Entangled(results)
    ensures Commute(TiedLists(results, t)(i), TiedLists(results, t)(j))
  {
    if i >= |results| {
      assert KeyLists(results)(i) == [];
      EmptyCommutes(TiedLists(results, t)(j));
    } else if j >= |results| {
      assert KeyLists(results)(j) == [];
      EmptyCommutes(TiedLists(results, t)(i));
    } else {
      assert !EntangledAt(results, i, j, t) && !EntangledAt(results, j, i, t);
    }
  }

  lemma EmptyCommutes<T>(x: seq<T>)
    ensures Commute(x, []) && Commute([], x)
  {
  }

  /** Without entangled repositories no schedule shows. */
  lemma NothingShows(results: seq<ScanResult>, a: Pool, b: Pool, t: DeployKey)
    requires !Entangled(results) && Arrived(|results|, a) && Arrived(|results|, b)
    ensures Tied(Flatten(a.received, KeyLists(results)), t) == Tied(Flatten(b.received, KeyLists(results)), t)
  {
    ArrivedAll(|results|, a);
    ArrivedAll(|results|, b);
    TiedFlatten(results, a.received, t);
    TiedFlatten(results, b.received, t);
    forall i: nat, j: nat
      ensures Commute(TiedLists(results, t)(i), TiedLists(results, t)(j))
    {
      AllCommute(results, t, i, j);
    }
    FlattenAnyOrder(a.received, b.received, TiedLists(results, t));
  }

  /** A list that does not commute with that of j does not commute with all those up to j, or up to j - 1. */
  lemma FirstBlock<T>(i: nat, j: nat, items: nat -> seq<T>) returns (m: nat)
    requires i < j && !Commute(items(i), items(j))
    ensures i < m <= j && !Commute(items(i), Flatten(Interval(i + 1, m + 1), items))
  {
    if Commute(items(i), Flatten(Interval(i + 1, j), items)) {
      m := j;
      FlattenNext(i + 1, j, items);
      if Commute(items(i), Flatten(Interval(i + 1, j + 1), items)) {
        CommuteSplit(items(i), Flatten(Interval(i + 1, j), items), items(j));
      }
    } else {
      m := j - 1;
      EmptyCommutes(items(i));
    }
  }

  lemma FlattenNext<T>(from: nat, to: nat, items: nat -> seq<T>)
    requires from <= to
    ensures Flatten(Interval(from, to + 1), items) == Flatten(Interval(from, to), items) + items(to)
  {
    FlattenConcat(Interval(from, to), [to], items);
    FlattenOne(to, items);
  }

  lemma {:induction false} IntervalSplit(from: nat, middle: nat, to: nat)
    requires from <= middle <= to
    ensures Interval(from, to) == Interval(from, middle) + Interval(middle, to)
  {
    if middle < to {
      IntervalSplit(from, middle, to - 1);
      Associative(Interval(from, middle), Interval(middle, to - 1), [to - 1]);
    }
  }

  lemma FlattenThree<T>(a: seq<nat>, x: seq<nat>, y: seq<nat>, b: seq<nat>, items: nat -> seq<T>)
    ensures Flatten(a + x + y + b, items) ==
        Flatten(a, items) + (Flatten(x, items) + Flatten(y, items)) + Flatten(b, items)
  {
    FlattenConcat(a + x + y, b, items);
    FlattenConcat(a + x, y, items);
    FlattenConcat(a, x, items);
    Associative(Flatten(a, items), Flatten(x, items), Flatten(y, items));
  }

  lemma FlattenOne<T>(i: nat, items: nat -> seq<T>)
    ensures Flatten([i], items) == items(i)
  {
    assert [i][..0] == [];
    assert [] + items(i) == items(i);
  }

  lemma IntervalParts(i: nat, m: nat, total: nat)
    requires i < m < total
    ensures Interval(0, total) == Interval(0, i) + [i] + Interval(i + 1, m + 1) + Interval(m + 1, total)
  {
    IntervalSplit(0, m + 1, total);
    IntervalSplit(0, i + 1, m + 1);
    assert Interval(0, i + 1) == Interval(0, i) + [i];
  }

  lemma SwapShows<T>(a: seq<T>, x: seq<T>, y: seq<T>, b: seq<T>)
    requires !Commute(x, y)
    ensures a + (x + y) + b != a + (y + x) + b
  {
    if a + (x + y) + b == a + (y + x) + b {
      CancelBack(a + (x + y), a + (y + x), b);
      CancelFront(a, x + y, y + x);
    }
  }

  /** The order of all repositories, and the one in which i comes after those up to m, differ for these items. */
  lemma OrdersDiffer<T>(i: nat, m: nat, total: nat, items: nat -> seq<T>)
    requires i < m < total && !Commute(items(i), Flatten(Interval(i + 1, m + 1), items))
    ensures Flatten(Interval(0, total), items) !=
        Flatten(Interval(0, i) + Interval(i + 1, m + 1) + [i] + Interval(m + 1, total), items)
  {
    var front, block, rest := Interval(0, i), Interval(i + 1, m + 1), Interval(m + 1, total);
    IntervalParts(i, m, total);
    FlattenThree(front, [i], block, rest, items);
    FlattenThree(front, block, [i], rest, items);
    FlattenOne(i, items);
    SwapShows(Flatten(front, items), items(i), Flatten(block, items), Flatten(rest, items));
  }

  /** The schedule shows in the order of tied keys exactly when two repositories are entangled. */
  lemma ScheduleShows(results: seq<ScanResult>)
    ensures (exists a, b, t :: Shows(results, a, b, t)) <==> Entangled(results)
  {
    if a, b, t :| Shows(results, a, b, t) {
      if !Entangled(results) {
        NothingShows(results, a, b, t);
      }
    }
    if Entangled(results) {
      var a, b, t := EntangledShows(results);
    }
  }

  lemma EntangledShows(results: seq<ScanResult>) returns (a: Pool, b: Pool, t: DeployKey)
    requires Entangled(results)
    ensures Shows(results, a, b, t)
  {
    var i: nat, j: nat, triple :| EntangledAt(results, i, j, triple);
    t := triple;
    var items := TiedLists(results, t);
    var m := FirstBlock(i, j, items);
    a := InOrder(|results|);
    b := LateOne(|results|, i, m);
    TiedFlatten(results, a.received, t);
    TiedFlatten(results, b.received, t);
    OrdersDiffer(i, m, |results|, items);
  }

  // ---------------------------------------------------------------- a stable sort

  /** A sort that keeps the order of equal elements; sort.Slice promises only an arrangement. */
  ghost predicate Stable(s: seq<DeployKey>, r: seq<DeployKey>) {
    Sorting.Arrangement(s, r, KeyLess) && forall t :: Tied(r, t) == Tied(s, t)
  }

  lemma {:induction false} TiedNone(s: seq<DeployKey>, t: DeployKey)
    requires forall k | 0 <= k < |s| :: !SameTriple(s[k], t)
    ensures Tied(s, t) == []
  {
    if s != [] {
      TiedNone(s[..|s| - 1], t);
    }
  }

  lemma TiedFirst(s: seq<DeployKey>, t: DeployKey)
    requires s != []
    ensures Tied(s, t) == Tied([s[0]], t) + Tied(s[1..], t)
  {
    assert s == [s[0]] + s[1..];
    TiedConcat([s[0]], s[1..], t);
  }

  lemma TiedOne(x: DeployKey, t: DeployKey)
    ensures Tied([x], t) == if SameTriple(x, t) then [x] else []
  {
    assert [x][..0] == [];
  }

  /** Inserting after what is not greater keeps the order of equal elements. */
  lemma {:induction false} InsertStable(s: seq<DeployKey>, x: DeployKey, t: DeployKey)
    requires Sorting.StrictWeak(KeyLess) && Sorting.Sorted(s, KeyLess)
    ensures Tied(Sorting.Insert(s, x, KeyLess), t) == Tied(s, t) + Tied([x], t)
  {
    if s == [] {
      assert Tied(s, t) + Tied([x], t) == Tied([x], t);
    } else if KeyLess(x, s[0]) {
      TiedConcat([x], s, t);
      if SameTriple(x, t) {
        NothingTies(s, x, t);
        TiedNone(s, t);
        assert Tied([x], t) + [] == [] + Tied([x], t);
      } else {
        TiedOne(x, t);
        assert [] + Tied(s, t) == Tied(s, t) + [];
      }
    } else {
      var rest := Sorting.Insert(s[1..], x, KeyLess);
      InsertStable(s[1..], x, t);
      TiedConcat([s[0]], rest, t);
      TiedFirst(s, t);
      Associative(Tied([s[0]], t), Tied(s[1..], t), Tied([x], t));
    }
  }

  /** What is less than the first of a sorted sequence ties with none of it. */
  lemma NothingTies(s: seq<DeployKey>, x: DeployKey, t: DeployKey)
    requires Sorting.StrictWeak(KeyLess) && Sorting.Sorted(s, KeyLess) && s != [] && KeyLess(x, s[0])
    requires SameTriple(x, t)
    ensures forall k | 0 <= k < |s| :: !SameTriple(s[k], t)
  {
    KeyOrder();
    forall k | 0 <= k < |s|
      ensures !SameTriple(s[k], t)
    {
      assert KeyLess(x, s[k]);
    }
  }

  lemma {:induction false} StableExists(s: seq<DeployKey>) returns (r: seq<DeployKey>)
    ensures Stable(s, r)
  {
    KeyOrder();
    if s == [] {
      return [];
    }
    var last := |s| - 1;
    var r1 := StableExists(s[..last]);
    r := Sorting.Insert(r1, s[last], KeyLess);
    assert s == s[..last] + [s[last]];
    forall t
      ensures Tied(r, t) == Tied(s, t)
    {
      InsertStable(r1, s[last], t);
      TiedConcat(s[..last], [s[last]], t);
    }
  }

  /** A stable sort has one result, and the tied keys tell the inputs apart. */
  lemma {:induction false} StableUnique(a: seq<DeployKey>, b: seq<DeployKey>)
    requires Sorting.Sorted(a, KeyLess) && Sorting.Sorted(b, KeyLess) && multiset(a) == multiset(b)
    requires forall t :: Tied(a, t) == Tied(b, t)
    ensures a == b
  {
    assert |multiset(a)| == |a| && |multiset(b)| == |b|;
    if a != [] {
      HeadsTie(a, b);
      SameHeads(a, b);
      SameTails(a, b);
      StableUnique(a[1..], b[1..]);
      assert a == [a[0]] + a[1..] && b == [b[0]] + b[1..];
    }
  }

  lemma SameTails(a: seq<DeployKey>, b: seq<DeployKey>)
    requires Sorting.Sorted(a, KeyLess) && Sorting.Sorted(b, KeyLess) && multiset(a) == multiset(b)
    requires a != [] && b != [] && a[0] == b[0] && forall t :: Tied(a, t) == Tied(b, t)
    ensures Sorting.Sorted(a[1..], KeyLess) && Sorting.Sorted(b[1..], KeyLess) && multiset(a[1..]) == multiset(b[1..])
    ensures forall t :: Tied(a[1..], t) == Tied(b[1..], t)
  {
    Sorting.TailMultiset(a);
    Sorting.TailMultiset(b);
    forall t
      ensures Tied(a[1..], t) == Tied(b[1..], t)
    {
      TiedFirst(a, t);
      TiedFirst(b, t);
      CancelFront(Tied([a[0]], t), Tied(a[1..], t), Tied(b[1..], t));
    }
  }

  lemma HeadsTie(a: seq<DeployKey>, b: seq<DeployKey>)
    requires Sorting.Sorted(a, KeyLess) && Sorting.Sorted(b, KeyLess)
    requires multiset(a) == multiset(b) && a != [] && b != []
    ensures SameTriple(a[0], b[0])
  {
    KeyOrder();
    assert a[0] in multiset(b) && b[0] in multiset(a);
    var i :| 0 <= i < |a| && a[i] == b[0];
    var j :| 0 <= j < |b| && b[j] == a[0];
    assert !KeyLess(a[i], a[0]) && !KeyLess(b[j], b[0]);
  }

  lemma SameHeads(a: seq<DeployKey>, b: seq<DeployKey>)
    requires a != [] && b != [] && SameTriple(a[0], b[0]) && Tied(a, a[0]) == Tied(b, a[0])
    ensures a[0] == b[0]
  {
    TiedFirst(a, a[0]);
    TiedFirst(b, a[0]);
    TiedOne(a[0], a[0]);
    TiedOne(b[0], a[0]);
    assert Tied(a, a[0])[0] == a[0] && Tied(b, a[0])[0] == b[0];
  }

  /** With a stable sort in place of sort.Slice, two schedules report different sequences. */
  ghost predicate ReportsDiffer(
      results: seq<ScanResult>, a: Pool, b: Pool, reportA: seq<DeployKey>, reportB: seq<DeployKey>) {
    && Arrived(|results|, a) && Stable(Flatten(a.received, KeyLists(results)), reportA)
    && Arrived(|results|, b) && Stable(Flatten(b.received, KeyLists(results)), reportB)
    && reportA != reportB
  }

  /** Even under a stable sort the report depends on the schedule exactly when two repositories are entangled. */
  lemma StableReportCondition(results: seq<ScanResult>)
    ensures (exists a, b, reportA, reportB :: ReportsDiffer(results, a, b, reportA, reportB)) <==> Entangled(results)
  {
    if a, b, reportA, reportB :| ReportsDiffer(results, a, b, reportA, reportB) {
      if !Entangled(results) {
        ReportsAgree(results, a, b, reportA, reportB);
      }
    }
    if Entangled(results) {
      var a, b, t := EntangledShows(results);
      var reportA := StableExists(Flatten(a.received, KeyLists(results)));
      var reportB := StableExists(Flatten(b.received, KeyLists(results)));
      assert Tied(reportA, t) != Tied(reportB, t);
      assert ReportsDiffer(results, a, b, reportA, reportB);
    }
  }

  lemma ReportsAgree(
      results: seq<ScanResult>, a: Pool, b: Pool, reportA: seq<DeployKey>, reportB: seq<DeployKey>)
    requires !Entangled(results)
    requires Arrived(|results|, a) && Stable(Flatten(a.received, KeyLists(results)), reportA)
    requires Arrived(|results|, b) && Stable(Flatten(b.received, KeyLists(results)), reportB)
    ensures reportA == reportB
  {
    ArrivedAll(|results|, a);
    ArrivedAll(|results|, b);
    FlattenPermutation(a.received, b.received, KeyLists(results));
    forall t
      ensures Tied(reportA, t) == Tied(reportB, t)
    {
      NothingShows(results, a, b, t);
    }
    StableUnique(reportA, reportB);
  }

  /** When no repository has two keys of one triple, entangled means: two different keys share a triple. */
  lemma SingleKeysEntangled(results: seq<ScanResult>, i: nat, j: nat, x: DeployKey, y: DeployKey)
    requires i < j < |results| && SameTriple(x, y)
    requires TiedLists(results, x)(i) == [x] && TiedLists(results, x)(j) == [y]
    ensures EntangledAt(results, i, j, x) <==> x != y
  {
    assert ([x] + [y])[0] == x && ([y] + [x])[0] == y;
  }
}
