/**
 GitHubDeployKeys of internal/collector/github.go: a feeder hands repositories to six workers over
 an unbuffered channel, each worker pages through the keys of its repository and puts one result on
 a buffered channel, and the main goroutine gathers, counts and sorts.
*/
module DeployKeys {
  import opened Sequences
  import opened Sums
  import opened Wire
  import Sorting
  import Text

  const WORKERS := 6
  const MAX_PAGES := 1000
  const PAGE_SIZE := 100

  // ---------------------------------------------------------------- one repository

  datatype Repository = Repository(fullName: string, name: string)

  datatype KeyRecord = KeyRecord(
    id: int, title: string, enabled: Option<bool>, readOnly: bool,
    createdAt: string, lastUsed: string, addedBy: Option<string>)

  /** One page request: no response, a refusal or undecodable body, or a decoded page. */
  datatype PageReply = Unreachable | Refused | Page(records: seq<KeyRecord>)

  datatype ScanResult = ScanResult(credentials: seq<DeployKey>, scanned: bool)

  function FullName(org: string, repository: Repository): string {
    if repository.fullName == "" then org + "/" + repository.name else repository.fullName
  }

  predicate IsEnabled(record: KeyRecord) { record.enabled != Some(false) }

  function ToDeployKey(record: KeyRecord, fullName: string): DeployKey {
    DeployKey(Text.FormatInt(record.id), record.title, fullName, if record.readOnly then "read" else "write",
              StringPointer(record.createdAt), StringPointer(record.lastUsed), record.addedBy)
  }

  function EnabledKeys(records: seq<KeyRecord>, fullName: string): seq<DeployKey> {
    if records == [] then []
    else
      var last := |records| - 1;
      EnabledKeys(records[..last], fullName)
      + (if IsEnabled(records[last]) then [ToDeployKey(records[last], fullName)] else [])
  }

  predicate FullPage(reply: PageReply) { reply.Page? && |reply.records| >= PAGE_SIZE }

  /** Page n is the first one that is not full, and it is a page. */
  ghost predicate EndsAt(replies: nat -> PageReply, n: nat) {
    && n >= 1 && replies(n).Page? && !FullPage(replies(n))
    && forall page | 1 <= page < n :: FullPage(replies(page))
  }

  /** A page with fewer than 100 records is the last one; all before it have 100 or more. */
  lemma EndMeans(replies: nat -> PageReply, n: nat)
    ensures EndsAt(replies, n) <==>
        && n >= 1 && replies(n).Page? && |replies(n).records| < 100
        && forall page | 1 <= page < n :: replies(page).Page? && |replies(page).records| >= 100
  {
    assert forall page: nat :: FullPage(replies(page)) <==> replies(page).Page? && |replies(page).records| >= 100;
  }

  /** The lists for 1 to n, one after the other. */
  function UpTo<T>(n: nat, items: nat -> seq<T>): seq<T> {
    if n == 0 then [] else UpTo(n - 1, items) + items(n)
  }

  function PageKeys(replies: nat -> PageReply, fullName: string): nat -> seq<DeployKey> {
    (page: nat) => if replies(page).Page? then EnabledKeys(replies(page).records, fullName) else []
  }

  function KeysUpTo(replies: nat -> PageReply, n: nat, fullName: string): seq<DeployKey> {
    UpTo(n, PageKeys(replies, fullName))
  }

  lemma EndsOnce(replies: nat -> PageReply, page: nat)
    requires page >= 1 && forall p | 1 <= p < page :: FullPage(replies(p))
    ensures !FullPage(replies(page)) ==> forall n: nat | EndsAt(replies, n) :: n == page && replies(page).Page?
    ensures FullPage(replies(page)) ==> forall n: nat | EndsAt(replies, n) :: n > page
  {
    forall n: nat | EndsAt(replies, n)
      ensures n >= page && (n == page <==> !FullPage(replies(page)))
    {
      assert FullPage(replies(n)) == false;
    }
  }

  // ---------------------------------------------------------------- where the keys come from

  /** A record of a repository: the number of its page, from 1, and its index there. */
  datatype Spot = Spot(page: nat, index: nat)

  /** The record at a spot is there, on one of the first n pages, and not disabled. */
  ghost predicate Live(replies: nat -> PageReply, n: nat, spot: Spot) {
    && 1 <= spot.page <= n && replies(spot.page).Page? && spot.index < |replies(spot.page).records|
    && replies(spot.page).records[spot.index].enabled != Some(false)
  }

  predicate Before(a: Spot, b: Spot) { a.page < b.page || (a.page == b.page && a.index < b.index) }

  ghost predicate Ascending(spots: seq<Spot>) {
    forall i, j | 0 <= i < j < |spots| :: Before(spots[i], spots[j])
  }

  /** A deploy key with the fields of a record. */
  ghost predicate MadeFrom(key: DeployKey, record: KeyRecord, fullName: string) {
    && key.id == Text.FormatInt(record.id) && key.name == record.title && key.repository == fullName
    && key.access == (if record.readOnly then "read" else "write")
    && key.createdAt == (if record.createdAt == "" then None else Some(record.createdAt))
    && key.lastUsedAt == (if record.lastUsed == "" then None else Some(record.lastUsed))
    && key.addedBy == record.addedBy
  }

  /** The keys are those of all live records of the first n pages, in the order of pages and records. */
  ghost predicate ListedAt(
      keys: seq<DeployKey>, replies: nat -> PageReply, n: nat, fullName: string, spots: seq<Spot>) {
    && |spots| == |keys|
    && (forall spot :: multiset(spots)[spot] == if Live(replies, n, spot) then 1 else 0)
    && Ascending(spots)
    && forall i | 0 <= i < |keys| ::
        Live(replies, n, spots[i]) && MadeFrom(keys[i], replies(spots[i].page).records[spots[i].index], fullName)
  }

  function RecordSpots(records: seq<KeyRecord>, page: nat): seq<Spot> {
    if records == [] then []
    else
      var last := |records| - 1;
      RecordSpots(records[..last], page) + (if IsEnabled(records[last]) then [Spot(page, last)] else [])
  }

  function PageSpots(replies: nat -> PageReply): nat -> seq<Spot> {
    (page: nat) => if replies(page).Page? then RecordSpots(replies(page).records, page) else []
  }

  function SpotsUpTo(replies: nat -> PageReply, n: nat): seq<Spot> { UpTo(n, PageSpots(replies)) }

  function KeyAt(replies: nat -> PageReply, fullName: string): Spot -> DeployKey {
    (spot: Spot) =>
      if replies(spot.page).Page? && spot.index < |replies(spot.page).records| then
        ToDeployKey(replies(spot.page).records[spot.index], fullName)
      else DeployKey("", "", "", "", None, None, None)
  }

  lemma SpotAppended(spots: seq<Spot>, x: Spot, spot: Spot)
    ensures multiset(spots + [x])[spot] == multiset(spots)[spot] + if spot == x then 1 else 0
  {
  }

  lemma {:induction false} RecordCount(records: seq<KeyRecord>, page: nat, spot: Spot)
    ensures multiset(RecordSpots(records, page))[spot] ==
        if spot.page == page && spot.index < |records| && IsEnabled(records[spot.index]) then 1 else 0
  {
    if records != [] {
      var last := |records| - 1;
      RecordCount(records[..last], page, spot);
      SpotAppended(RecordSpots(records[..last], page), Spot(page, last), spot);
    }
  }

  lemma AscendingAppend(a: seq<Spot>, b: seq<Spot>)
    requires Ascending(a) && Ascending(b)
    requires forall i, j | 0 <= i < |a| && 0 <= j < |b| :: Before(a[i], b[j])
    ensures Ascending(a + b)
  {
  }

  lemma {:induction false} RecordOrder(records: seq<KeyRecord>, page: nat)
    ensures Ascending(RecordSpots(records, page))
    ensures forall i | 0 <= i < |RecordSpots(records, page)| ::
        RecordSpots(records, page)[i].page == page && RecordSpots(records, page)[i].index < |records|
  {
    if records != [] {
      var last := |records| - 1;
      RecordOrder(records[..last], page);
      AscendingAppend(RecordSpots(records[..last], page), [Spot(page, last)]);
    }
  }

  lemma {:induction false} RecordKeys(
      records: seq<KeyRecord>, replies: nat -> PageReply, page: nat, fullName: string)
    requires replies(page).Page? && records <= replies(page).records
    ensures EnabledKeys(records, fullName) == Mapped(RecordSpots(records, page), KeyAt(replies, fullName))
  {
    if records != [] {
      var last := |records| - 1;
      RecordKeys(records[..last], replies, page, fullName);
      MappedAppend(RecordSpots(records[..last], page), [Spot(page, last)], KeyAt(replies, fullName));
    }
  }

  /** The record at the spot is there and not disabled. */
  predicate LiveIn(reply: PageReply, index: nat) {
    reply.Page? && index < |reply.records| && IsEnabled(reply.records[index])
  }

  lemma BothCount<T>(a: seq<T>, b: seq<T>, x: T)
    ensures multiset(a + b)[x] == multiset(a)[x] + multiset(b)[x]
  {
  }

  /** What only the list at r holds, and once if at all. */
  lemma {:induction false} UpToCount<T>(n: nat, items: nat -> seq<T>, x: T, r: nat, here: bool)
    requires forall i: nat | 1 <= i <= n :: multiset(items(i))[x] == if i == r && here then 1 else 0
    ensures multiset(UpTo(n, items))[x] == if 1 <= r <= n && here then 1 else 0
  {
    if n > 0 {
      UpToCount(n - 1, items, x, r, here);
      BothCount(UpTo(n - 1, items), items(n), x);
    }
  }

  lemma {:induction false} UpToMapped<A, B>(n: nat, f: nat -> seq<A>, g: A -> B, h: nat -> seq<B>)
    requires forall i: nat :: h(i) == Mapped(f(i), g)
    ensures UpTo(n, h) == Mapped(UpTo(n, f), g)
  {
    if n > 0 {
      UpToMapped(n - 1, f, g, h);
      MappedAppend(UpTo(n - 1, f), f(n), g);
    }
  }

  lemma SpotCount(replies: nat -> PageReply, n: nat, spot: Spot)
    ensures multiset(SpotsUpTo(replies, n))[spot] ==
        if 1 <= spot.page <= n && LiveIn(replies(spot.page), spot.index) then 1 else 0
  {
    forall page: nat
      ensures multiset(PageSpots(replies)(page))[spot] ==
          if page == spot.page && LiveIn(replies(spot.page), spot.index) then 1 else 0
    {
      if replies(page).Page? {
        RecordCount(replies(page).records, page, spot);
      }
    }
    UpToCount(n, PageSpots(replies), spot, spot.page, LiveIn(replies(spot.page), spot.index));
  }

  lemma {:induction false} SpotOrder(replies: nat -> PageReply, n: nat)
    ensures Ascending(SpotsUpTo(replies, n))
    ensures forall i | 0 <= i < |SpotsUpTo(replies, n)| :: SpotsUpTo(replies, n)[i].page <= n
  {
    if n > 0 {
      SpotOrder(replies, n - 1);
      if replies(n).Page? {
        RecordOrder(replies(n).records, n);
        AscendingAppend(SpotsUpTo(replies, n - 1), RecordSpots(replies(n).records, n));
      }
    }
  }

  lemma KeysAreMapped(replies: nat -> PageReply, n: nat, fullName: string)
    ensures KeysUpTo(replies, n, fullName) == Mapped(SpotsUpTo(replies, n), KeyAt(replies, fullName))
  {
    forall page: nat
      ensures PageKeys(replies, fullName)(page) == Mapped(PageSpots(replies)(page), KeyAt(replies, fullName))
    {
      if replies(page).Page? {
        RecordKeys(replies(page).records, replies, page, fullName);
      }
    }
    UpToMapped(n, PageSpots(replies), KeyAt(replies, fullName), PageKeys(replies, fullName));
  }

  lemma KeysListed(replies: nat -> PageReply, n: nat, fullName: string)
    ensures ListedAt(KeysUpTo(replies, n, fullName), replies, n, fullName, SpotsUpTo(replies, n))
  {
    SpotOrder(replies, n);
    KeysAreMapped(replies, n, fullName);
    var spots := SpotsUpTo(replies, n);
    forall spot
      ensures multiset(spots)[spot] == if Live(replies, n, spot) then 1 else 0
    {
      SpotCount(replies, n, spot);
    }
    forall i | 0 <= i < |spots|
      ensures Live(replies, n, spots[i])
    {
      assert spots[i] in multiset(spots);
    }
  }

  // ---------------------------------------------------------------- scanning

  /** The inner loop: disabled keys are skipped. */
  method AppendEnabled(
      before: seq<DeployKey>, records: seq<KeyRecord>, fullName: string)
    returns (found: seq<DeployKey>)
    ensures found == before + EnabledKeys(records, fullName)
  {
    found := before;
    for i := 0 to |records|
      invariant found == before + EnabledKeys(records[..i], fullName)
    {
      assert records[..i + 1][..i] == records[..i];
      var record := records[i];
      if record.enabled.Some? && !record.enabled.value {
        continue;
      }
      var access := "write";
      if record.readOnly {
        access := "read";
      }
      found := found + [DeployKey(Text.FormatInt(record.id), record.title, fullName, access,
                                  StringPointer(record.createdAt), StringPointer(record.lastUsed), record.addedBy)];
    }
    assert records[..|records|] == records;
  }

  /** A repository counts as scanned exactly when a short page arrives within the page limit. */
  ghost predicate ScanOf(result: ScanResult, replies: nat -> PageReply, fullName: string) {
    && (result.scanned <==> exists n: nat :: n <= MAX_PAGES && EndsAt(replies, n))
    && (forall n: nat | n <= MAX_PAGES && EndsAt(replies, n) :: result.credentials == KeysUpTo(replies, n, fullName))
    && (!result.scanned ==> result.credentials == [])
  }

  lemma Scanned(replies: nat -> PageReply, page: nat, fullName: string)
    requires page <= MAX_PAGES && EndsAt(replies, page)
    ensures ScanOf(ScanResult(KeysUpTo(replies, page, fullName), true), replies, fullName)
  {
    EndsOnce(replies, page);
  }

  lemma NotScanned(replies: nat -> PageReply, page: nat, fullName: string)
    requires 1 <= page && forall p | 1 <= p < page :: FullPage(replies(p))
    requires !replies(page).Page? || (page == MAX_PAGES && FullPage(replies(page)))
    ensures ScanOf(ScanResult([], false), replies, fullName)
  {
    EndsOnce(replies, page);
  }

  method ScanRepository(org: string, repository: Repository, replies: nat -> PageReply) returns (result: ScanResult)
    ensures ScanOf(result, replies, FullName(org, repository))
    ensures result.scanned <==> exists n: nat :: n <= 1000 && EndsAt(replies, n)
    ensures result.scanned ==>
        var fullName := if repository.fullName == "" then org + "/" + repository.name else repository.fullName;
        exists n: nat, spots :: EndsAt(replies, n) && ListedAt(result.credentials, replies, n, fullName, spots)
  {
    var fullName := repository.fullName;
    if fullName == "" {
      fullName := org + "/" + repository.name;
    }
    var found: seq<DeployKey> := [];
    for page := 1 to MAX_PAGES + 1
      invariant forall p | 1 <= p < page :: FullPage(replies(p))
      invariant found == KeysUpTo(replies, page - 1, fullName)
      invariant page <= MAX_PAGES
    {
      var reply := replies(page);
      if !reply.Page? {
        NotScanned(replies, page, fullName);
        return ScanResult([], false);
      }
      found := AppendEnabled(found, reply.records, fullName);
      if |reply.records| < PAGE_SIZE {
        Scanned(replies, page, fullName);
        KeysListed(replies, page, fullName);
        return ScanResult(found, true);
      }
      if page == MAX_PAGES {
        NotScanned(replies, page, fullName);
        return ScanResult([], false);
      }
    }
    assert false;
  }

  // ---------------------------------------------------------------- the pool

  /** Workers carry the position of their repository in the list. */
  datatype WorkerState = Idle | Scanning(i: nat) | Sending(i: nat) | Exited

  datatype Pool = Pool(
    total: nat, next: nat, jobsClosed: bool, resultsClosed: bool,
    workers: seq<WorkerState>, buffer: seq<nat>, received: seq<nat>, finished: bool)

  function Start(total: nat): Pool {
    Pool(total, 0, false, false, [Idle, Idle, Idle, Idle, Idle, Idle], [], [], false)
  }

  datatype Step =
    | Handoff(w: nat) | CloseJobs | ScanDone(w: nat) | SendResult(w: nat) | Exit(w: nat)
    | CloseResults | Receive | Finish

  /** `results` has room for one entry per repository. */
  predicate Enabled(s: Pool, step: Step) {
    match step
    case Handoff(w) => w < |s.workers| && s.workers[w] == Idle && s.next < s.total
    case CloseJobs => s.next == s.total && !s.jobsClosed
    case ScanDone(w) => w < |s.workers| && s.workers[w].Scanning?
    case SendResult(w) => w < |s.workers| && s.workers[w].Sending? && |s.buffer| < s.total
    case Exit(w) => w < |s.workers| && s.workers[w] == Idle && s.jobsClosed
    case CloseResults => s.jobsClosed && !s.resultsClosed && forall w | 0 <= w < |s.workers| :: s.workers[w] == Exited
    case Receive => s.buffer != [] && !s.finished
    case Finish => s.buffer == [] && s.resultsClosed && !s.finished
  }

  function Apply(s: Pool, step: Step): Pool
    requires Enabled(s, step)
  {
    match step
    case Handoff(w) => s.(workers := s.workers[w := Scanning(s.next)], next := s.next + 1)
    case CloseJobs => s.(jobsClosed := true)
    case ScanDone(w) => s.(workers := s.workers[w := Sending(s.workers[w].i)])
    case SendResult(w) => s.(workers := s.workers[w := Idle], buffer := s.buffer + [s.workers[w].i])
    case Exit(w) => s.(workers := s.workers[w := Exited])
    case CloseResults => s.(resultsClosed := true)
    case Receive => s.(buffer := s.buffer[1..], received := s.received + [s.buffer[0]])
    case Finish => s.(finished := true)
  }

  function Range(n: nat): (r: seq<nat>)
    ensures |r| == n
  {
    if n == 0 then [] else Range(n - 1) + [n - 1]
  }

  /** Counts the workers that hold repository `key`. */
  function Holds(key: nat): WorkerState -> nat {
    (worker: WorkerState) => if (worker.Scanning? || worker.Sending?) && worker.i == key then 1 else 0
  }

  /** How often repository `key` is held, waits in the channel or has arrived. */
  ghost function Places(s: Pool, key: nat): nat {
    Sum(s.workers, Holds(key)) + multiset(s.buffer)[key] + multiset(s.received)[key]
  }

  /** Every repository handed out so far is in exactly one place. */
  ghost predicate Conserved(s: Pool) {
    forall key: nat :: Places(s, key) == if key < s.next then 1 else 0
  }

  ghost predicate Inv(s: Pool) {
    && Conserved(s)
    && |s.workers| == WORKERS && s.next <= s.total
    && (s.jobsClosed ==> s.next == s.total)
    && ((exists w | 0 <= w < |s.workers| :: s.workers[w] == Exited) ==> s.jobsClosed)
    && (s.resultsClosed ==> s.jobsClosed && forall w | 0 <= w < |s.workers| :: s.workers[w] == Exited)
    && (s.finished ==> s.resultsClosed && s.buffer == [])
  }

  lemma StartInv(total: nat)
    ensures Inv(Start(total))
  {
    forall key: nat
      ensures Places(Start(total), key) == 0
    {
      SumConstant(Start(total).workers, Holds(key), 0);
    }
  }

  lemma WorkerPlace(s: Pool, step: Step, key: nat)
    requires Enabled(s, step) && (step.Handoff? || step.ScanDone? || step.Exit?)
    requires Places(s, key) == if key < s.next then 1 else 0
    ensures Places(Apply(s, step), key) == if key < Apply(s, step).next then 1 else 0
  {
    SumUpdate(s.workers, step.w, Apply(s, step).workers[step.w], Holds(key));
  }

  lemma ChannelPlace(s: Pool, step: Step, key: nat)
    requires Enabled(s, step) && (step.SendResult? || step.Receive?)
    ensures Places(Apply(s, step), key) == Places(s, key) && Apply(s, step).next == s.next
  {
    if step.SendResult? {
      SumUpdate(s.workers, step.w, Apply(s, step).workers[step.w], Holds(key));
    } else {
      assert s.buffer == [s.buffer[0]] + s.buffer[1..];
    }
  }

  lemma StepConserved(s: Pool, step: Step)
    requires Conserved(s) && Enabled(s, step)
    ensures Conserved(Apply(s, step))
  {
    forall key: nat
      ensures Places(Apply(s, step), key) == if key < Apply(s, step).next then 1 else 0
    {
      assert Places(s, key) == if key < s.next then 1 else 0;
      if step.Handoff? || step.ScanDone? || step.Exit? {
        WorkerPlace(s, step, key);
      } else if step.SendResult? || step.Receive? {
        ChannelPlace(s, step, key);
      }
    }
  }

  lemma StepInv(s: Pool, step: Step)
    requires Inv(s) && Enabled(s, step)
    ensures Inv(Apply(s, step)) && Apply(s, step).total == s.total
  {
    StepConserved(s, step);
  }

  ghost predicate Run(steps: seq<Step>, states: seq<Pool>, total: nat) {
    && |states| == |steps| + 1 && states[0] == Start(total)
    && forall k | 0 <= k < |steps| :: Taken(steps, states, k)
  }

  ghost predicate Taken(steps: seq<Step>, states: seq<Pool>, k: nat)
    requires k < |steps| < |states|
  {
    Enabled(states[k], steps[k]) && states[k + 1] == Apply(states[k], steps[k])
  }

  lemma {:induction false} RunInv(steps: seq<Step>, states: seq<Pool>, total: nat, k: nat)
    requires Run(steps, states, total) && k <= |steps|
    ensures Inv(states[k]) && states[k].total == total
  {
    if k == 0 {
      StartInv(total);
    } else {
      RunInv(steps, states, total, k - 1);
      assert Taken(steps, states, k - 1);
      StepInv(states[k - 1], steps[k - 1]);
    }
  }

  // ---------------------------------------------------------------- liveness

  /** No worker ever waits for room on `results`, nor finds it closed. */
  lemma ResultsHaveRoom(steps: seq<Step>, states: seq<Pool>, total: nat, k: nat, w: nat)
    requires Run(steps, states, total) && k <= |steps| && w < |states[k].workers| && states[k].workers[w].Sending?
    ensures Enabled(states[k], SendResult(w)) && !states[k].resultsClosed
  {
    RunInv(steps, states, total, k);
    HeldRoom(states[k], w);
  }

  lemma HeldRoom(s: Pool, w: nat)
    requires Inv(s) && w < |s.workers| && s.workers[w].Sending?
    ensures |s.buffer| < s.total
  {
    var i := s.workers[w].i;
    forall key: nat
      ensures multiset(s.buffer + [i])[key] <= if key < s.next then 1 else 0
    {
      assert Places(s, key) == if key < s.next then 1 else 0;
      SumUpdate(s.workers, w, Idle, Holds(key));
    }
    FewIndices(s.buffer + [i], s.next);
  }

  /** Indices below n, each at most once, are at most n. */
  lemma FewIndices(indices: seq<nat>, n: nat)
    requires forall key: nat :: multiset(indices)[key] <= if key < n then 1 else 0
    ensures |indices| <= n
  {
    var placed, all := multiset(indices), multiset(Range(n));
    forall key: nat
      ensures placed[key] <= all[key]
    {
      RangeCounts(n, key);
    }
    assert all == placed + (all - placed);
    assert |all| == n && |placed| == |indices|;
  }

  lemma SomeStep(s: Pool) returns (step: Step)
    requires Inv(s) && !s.finished
    ensures Enabled(s, step)
  {
    if w :| 0 <= w < |s.workers| && s.workers[w].Scanning? {
      step := ScanDone(w);
    } else if w :| 0 <= w < |s.workers| && s.workers[w].Sending? {
      HeldRoom(s, w);
      step := SendResult(w);
    } else if s.buffer != [] {
      step := Receive;
    } else if w :| 0 <= w < |s.workers| && s.workers[w] == Idle {
      step := if s.next < s.total then Handoff(w) else if s.jobsClosed then Exit(w) else CloseJobs;
    } else {
      assert s.workers[0] == Exited;
      step := if s.resultsClosed then Finish else CloseResults;
    }
  }

  function WorkerWork(worker: WorkerState): nat {
    match worker
    case Idle => 1
    case Scanning(_) => 4
    case Sending(_) => 3
    case Exited => 0
  }

  /** The number of steps still to come. */
  function Work(s: Pool): int {
    4 * (s.total - s.next) + Sum(s.workers, WorkerWork) + |s.buffer|
    + (if s.jobsClosed then 0 else 1) + (if s.resultsClosed then 0 else 1) + (if s.finished then 0 else 1)
  }

  lemma StepWork(s: Pool, step: Step)
    requires Enabled(s, step)
    ensures Work(Apply(s, step)) == Work(s) - 1
  {
    if step.Handoff? || step.ScanDone? || step.SendResult? || step.Exit? {
      SumUpdate(s.workers, step.w, Apply(s, step).workers[step.w], WorkerWork);
    }
  }

  lemma {:induction false} StepsTaken(steps: seq<Step>, states: seq<Pool>, total: nat, k: nat)
    requires Run(steps, states, total) && k <= |steps|
    ensures Work(states[k]) == 4 * total + WORKERS + 3 - k
  {
    if k == 0 {
      SumConstant(Start(total).workers, WorkerWork, 1);
    } else {
      StepsTaken(steps, states, total, k - 1);
      assert Taken(steps, states, k - 1);
      StepWork(states[k - 1], steps[k - 1]);
    }
  }

  /** Under every schedule the pool finishes, and always after the same number of steps. */
  lemma EveryScheduleFinishes(steps: seq<Step>, states: seq<Pool>, total: nat)
    requires Run(steps, states, total)
    ensures |steps| <= 4 * total + WORKERS + 3
    ensures states[|steps|].finished <==> |steps| == 4 * total + WORKERS + 3
    ensures !states[|steps|].finished ==> exists step :: Enabled(states[|steps|], step)
  {
    var s := states[|steps|];
    RunInv(steps, states, total, |steps|);
    StepsTaken(steps, states, total, |steps|);
    if s.finished {
      SumConstant(s.workers, WorkerWork, 0);
    } else {
      var step := SomeStep(s);
    }
  }

  /** When main stops receiving it has received every repository's result exactly once. */
  lemma AllReceived(steps: seq<Step>, states: seq<Pool>, total: nat)
    requires Run(steps, states, total) && states[|steps|].finished
    ensures multiset(states[|steps|].received) == multiset(Range(total))
  {
    var s := states[|steps|];
    RunInv(steps, states, total, |steps|);
    forall key: nat
      ensures multiset(s.received)[key] == multiset(Range(total))[key]
    {
      assert Places(s, key) == if key < total then 1 else 0;
      SumConstant(s.workers, Holds(key), 0);
      RangeCounts(total, key);
    }
  }

  lemma AppendCount(s: seq<nat>, x: nat, key: nat)
    ensures multiset(s + [x])[key] == multiset(s)[key] + if key == x then 1 else 0
  {
  }

  lemma {:induction false} RangeCounts(n: nat, key: nat)
    ensures multiset(Range(n))[key] == if key < n then 1 else 0
  {
    if n > 0 {
      RangeCounts(n - 1, key);
      AppendCount(Range(n - 1), n - 1, key);
    } else {
      assert Range(0) == [];
    }
  }

  // ---------------------------------------------------------------- gathering

  /** The lists of the given repositories, one after the other. */
  function Flatten<T>(order: seq<nat>, items: nat -> seq<T>): seq<T> {
    if order == [] then []
    else Flatten(order[..|order| - 1], items) + items(order[|order| - 1])
  }

  lemma {:induction false} FlattenConcat<T>(a: seq<nat>, b: seq<nat>, items: nat -> seq<T>)
    ensures Flatten(a + b, items) == Flatten(a, items) + Flatten(b, items)
  {
    if b == [] {
      assert a + b == a;
    } else {
      var last := |b| - 1;
      assert (a + b)[..|a + b| - 1] == a + b[..last];
      FlattenConcat(a, b[..last], items);
    }
  }

  /** What is gathered, as a multiset, does not depend on the order of arrival. */
  lemma {:induction false} FlattenPermutation<T>(a: seq<nat>, b: seq<nat>, items: nat -> seq<T>)
    requires multiset(a) == multiset(b)
    ensures multiset(Flatten(a, items)) == multiset(Flatten(b, items))
    decreases |a|
  {
    assert |multiset(a)| == |a| && |multiset(b)| == |b|;
    if a != [] {
      var last := |a| - 1;
      assert a == a[..last] + [a[last]];
      assert a[last] in multiset(b);
      var k :| 0 <= k < |b| && b[k] == a[last];
      FlattenRemove(b, k, items);
      assert multiset(a[..last]) == multiset(a) - multiset{a[last]};
      FlattenPermutation(a[..last], b[..k] + b[k + 1..], items);
    }
  }

  /** Taking one repository out takes its list out. */
  lemma {:induction false} FlattenRemove<T>(b: seq<nat>, k: nat, items: nat -> seq<T>)
    requires k < |b|
    ensures multiset(b[..k] + b[k + 1..]) == multiset(b) - multiset{b[k]}
    ensures multiset(Flatten(b, items)) == multiset(Flatten(b[..k] + b[k + 1..], items)) + multiset(items(b[k]))
  {
    var front, back := b[..k], b[k + 1..];
    assert b == front + ([b[k]] + back);
    FlattenConcat(front, back, items);
    FlattenConcat(front, [b[k]] + back, items);
    FlattenConcat([b[k]], back, items);
    assert Flatten([b[k]], items) == Flatten([], items) + items(b[k]);
  }

  /** The order of the report: repository, then name, then id, all as text. */
  predicate KeyLess(a: DeployKey, b: DeployKey) {
    if a.repository != b.repository then Text.Less(a.repository, b.repository)
    else if a.name != b.name then Text.Less(a.name, b.name)
    else Text.Less(a.id, b.id)
  }

  ghost predicate SameTriple(a: DeployKey, b: DeployKey) {
    a.repository == b.repository && a.name == b.name && a.id == b.id
  }

  lemma KeyOrder()
    ensures Sorting.StrictWeak(KeyLess)
    ensures forall a, b :: !KeyLess(a, b) && !KeyLess(b, a) <==> SameTriple(a, b)
  {
    Sorting.StringOrder();
    forall a, b
      ensures KeyLess(a, b) ==> !KeyLess(b, a)
      ensures !KeyLess(a, b) && !KeyLess(b, a) <==> SameTriple(a, b)
    {
    }
    forall a, b, c | KeyLess(a, b)
      ensures KeyLess(a, c) || KeyLess(c, b)
    {
      if a.repository == b.repository == c.repository {
        if a.name == b.name == c.name {
          assert Text.Less(a.id, b.id);
        } else {
          assert Text.Less(a.name, b.name) || a.name == b.name;
        }
      } else {
        assert Text.Less(a.repository, b.repository) || a.repository == b.repository;
      }
    }
  }

  /** What each repository contributes to the report, and a mark for each one scanned. */
  function KeyLists(results: seq<ScanResult>): nat -> seq<DeployKey> {
    (i: nat) => if i < |results| && results[i].scanned then results[i].credentials else []
  }

  function Marks(results: seq<ScanResult>): nat -> seq<()> {
    (i: nat) => if i < |results| && results[i].scanned then [()] else []
  }

  lemma ArrivalIndices(order: seq<nat>, total: nat)
    requires multiset(order) == multiset(Range(total))
    ensures forall k | 0 <= k < |order| :: order[k] < total
    ensures |order| == total
  {
    assert |multiset(order)| == |multiset(Range(total))|;
    forall k | 0 <= k < |order|
      ensures order[k] < total
    {
      assert order[k] in multiset(order);
      RangeCounts(total, order[k]);
    }
  }

  /** The tail of GitHubDeployKeys: `order` is the order in which results arrive. */
  method Gather(results: seq<ScanResult>, order: seq<nat>) returns (keys: seq<DeployKey>, coverage: Coverage)
    requires multiset(order) == multiset(Range(|results|))
    ensures Report(results, keys)
    ensures coverage.total == |results|
    ensures coverage.scanned == |Flatten(Range(|results|), Marks(results))|
    ensures coverage.status == if coverage.scanned == coverage.total then "complete" else "partial"
    ensures coverage.message ==
        if coverage.scanned == coverage.total then None
        else Some("Some repositories did not permit deploy-key inventory")
  {
    ArrivalIndices(order, |results|);
    if |results| == 0 {
      return [], Coverage("complete", 0, 0, None);
    }
    ghost var lists, marks := KeyLists(results), Marks(results);
    var collected: seq<DeployKey> := [];
    var scanned := 0;
    for k := 0 to |order|
      invariant collected == Flatten(order[..k], lists)
      invariant scanned == |Flatten(order[..k], marks)|
    {
      assert order[..k + 1][..k] == order[..k];
      var result := results[order[k]];
      if result.scanned {
        scanned := scanned + 1;
        collected := collected + result.credentials;
      }
    }
    assert order[..|order|] == order;
    FlattenPermutation(order, Range(|results|), lists);
    FlattenPermutation(order, Range(|results|), marks);
    assert |multiset(Flatten(order, marks))| == scanned;
    coverage := Coverage("complete", scanned, |results|, None);
    if coverage.scanned != coverage.total {
      coverage := coverage.(status := "partial",
        message := Some("Some repositories did not permit deploy-key inventory"));
    }
    KeyOrder();
    keys := Sorting.SortSlice(collected, KeyLess);
  }

  lemma {:induction false} AllMarked(results: seq<ScanResult>, n: nat)
    requires n <= |results|
    ensures |Flatten(Range(n), Marks(results))| <= n
    ensures |Flatten(Range(n), Marks(results))| == n <==> forall i | 0 <= i < n :: results[i].scanned
  {
    if n > 0 {
      AllMarked(results, n - 1);
      MarksNext(results, n);
    }
  }

  lemma MarksNext(results: seq<ScanResult>, n: nat)
    requires 0 < n <= |results|
    ensures |Flatten(Range(n), Marks(results))| ==
        |Flatten(Range(n - 1), Marks(results))| + if results[n - 1].scanned then 1 else 0
  {
    assert Range(n)[..n - 1] == Range(n - 1);
    assert Flatten(Range(n), Marks(results)) == Flatten(Range(n)[..n - 1], Marks(results)) + Marks(results)(n - 1);
  }

  /** Coverage is complete exactly when every listed repository was scanned. */
  lemma CoverageComplete(results: seq<ScanResult>)
    ensures |Flatten(Range(|results|), Marks(results))| == |results| <==>
        forall i | 0 <= i < |results| :: results[i].scanned
  {
    AllMarked(results, |results|);
  }

  /** Distinct keys of the scanned repositories have distinct (repository, name, id) triples. */
  ghost predicate DistinctTriples(results: seq<ScanResult>) {
    var all := Flatten(Range(|results|), KeyLists(results));
    forall x, y | x in all && y in all && SameTriple(x, y) :: x == y
  }

  /** What sort.Slice may make of the keys of the scanned repositories. */
  ghost predicate Report(results: seq<ScanResult>, keys: seq<DeployKey>) {
    Sorting.Arrangement(Flatten(Range(|results|), KeyLists(results)), keys, KeyLess)
  }

  /** What sort.Slice promises leaves one sequence exactly when no two different keys share a triple. */
  lemma OneReport(results: seq<ScanResult>)
    ensures DistinctTriples(results) <==> forall a, b | Report(results, a) && Report(results, b) :: a == b
  {
    KeyOrder();
    var all := Flatten(Range(|results|), KeyLists(results));
    assert DistinctTriples(results) <==> Sorting.TieFree(all, KeyLess);
    Sorting.UniqueIffTieFree(all, KeyLess);
    assert forall a :: Report(results, a) <==> Sorting.Arrangement(all, a, KeyLess);
  }

  /**
   Any two schedules of the same repositories: what arrives, sorted, is one and the same sequence,
   unless two different keys share a triple.
  */
  lemma SchedulesAgree(
      results: seq<ScanResult>, stepsA: seq<Step>, statesA: seq<Pool>, stepsB: seq<Step>, statesB: seq<Pool>,
      a: seq<DeployKey>, b: seq<DeployKey>)
    requires Run(stepsA, statesA, |results|) && statesA[|stepsA|].finished
    requires Run(stepsB, statesB, |results|) && statesB[|stepsB|].finished
    requires Sorting.Arrangement(Flatten(statesA[|stepsA|].received, KeyLists(results)), a, KeyLess)
    requires Sorting.Arrangement(Flatten(statesB[|stepsB|].received, KeyLists(results)), b, KeyLess)
    requires DistinctTriples(results)
    ensures a == b
  {
    AllReceived(stepsA, statesA, |results|);
    AllReceived(stepsB, statesB, |results|);
    FlattenPermutation(statesA[|stepsA|].received, Range(|results|), KeyLists(results));
    FlattenPermutation(statesB[|stepsB|].received, Range(|results|), KeyLists(results));
    assert Report(results, a) && Report(results, b);
    OneReport(results);
  }

  // ---------------------------------------------------------------- from the pages to the report

  /** The repository can be scanned: a short page comes within the page limit. */
  ghost predicate Ends(replies: nat -> PageReply) {
    exists n: nat :: n <= MAX_PAGES && EndsAt(replies, n)
  }

  ghost function EndOf(replies: nat -> PageReply): (n: nat)
    requires Ends(replies)
    ensures n <= MAX_PAGES && EndsAt(replies, n)
  {
    var n: nat :| n <= MAX_PAGES && EndsAt(replies, n);
    n
  }

  /** The repositories of an organization, and what each page request for each of them is answered. */
  datatype Inventory = Inventory(org: string, repositories: seq<Repository>, replies: nat -> nat -> PageReply)

  /** The enabled keys on the pages of a repository up to its short one, if it can be scanned. */
  ghost function Contributed(inventory: Inventory): nat -> seq<DeployKey> {
    (i: nat) =>
      if i < |inventory.repositories| && Ends(inventory.replies(i)) then
        KeysUpTo(inventory.replies(i), EndOf(inventory.replies(i)), FullName(inventory.org, inventory.repositories[i]))
      else []
  }

  /** The results are those of scanning the repositories. */
  ghost predicate ResultsOf(results: seq<ScanResult>, inventory: Inventory) {
    && |results| == |inventory.repositories|
    && forall i | 0 <= i < |results| ::
        ScanOf(results[i], inventory.replies(i), FullName(inventory.org, inventory.repositories[i]))
  }

  lemma {:induction false} FlattenAlike<T>(order: seq<nat>, f: nat -> seq<T>, g: nat -> seq<T>)
    requires forall k | 0 <= k < |order| :: f(order[k]) == g(order[k])
    ensures Flatten(order, f) == Flatten(order, g)
  {
    if order != [] {
      FlattenAlike(order[..|order| - 1], f, g);
    }
  }

  lemma ResultContributes(results: seq<ScanResult>, inventory: Inventory, i: nat)
    requires ResultsOf(results, inventory) && i < |results|
    ensures results[i].scanned <==> Ends(inventory.replies(i))
    ensures KeyLists(results)(i) == Contributed(inventory)(i)
  {
    assert ScanOf(results[i], inventory.replies(i), FullName(inventory.org, inventory.repositories[i]));
  }

  lemma ResultsContribute(results: seq<ScanResult>, inventory: Inventory)
    requires ResultsOf(results, inventory)
    ensures forall i | 0 <= i < |results| :: results[i].scanned <==> Ends(inventory.replies(i))
    ensures Flatten(Range(|results|), KeyLists(results)) == Flatten(Range(|results|), Contributed(inventory))
  {
    forall i | 0 <= i < |results|
      ensures results[i].scanned <==> Ends(inventory.replies(i))
      ensures KeyLists(results)(i) == Contributed(inventory)(i)
    {
      ResultContributes(results, inventory, i);
    }
    ArrivalIndices(Range(|results|), |results|);
    FlattenAlike(Range(|results|), KeyLists(results), Contributed(inventory));
  }

  // ---------------------------------------------------------------- the report, record by record

  /** A record of one of the repositories. */
  datatype Place = Place(repository: nat, spot: Spot)

  /** The record is there and not disabled, on the pages up to the short one that comes within the limit. */
  ghost predicate InReport(inventory: Inventory, place: Place) {
    && place.repository < |inventory.repositories|
    && exists n: nat ::
      && n <= 1000 && EndsAt(inventory.replies(place.repository), n)
      && Live(inventory.replies(place.repository), n, place.spot)
  }

  /** The key is made from the record at this place. */
  ghost predicate MadeAt(inventory: Inventory, place: Place, key: DeployKey)
    requires InReport(inventory, place)
  {
    var repository := inventory.repositories[place.repository];
    var page := inventory.replies(place.repository)(place.spot.page);
    MadeFrom(key, page.records[place.spot.index],
             if repository.fullName == "" then inventory.org + "/" + repository.name else repository.fullName)
  }

  /** By repository, then name, then id, each in byte order. */
  ghost predicate InOrder(a: DeployKey, b: DeployKey) {
    || Earlier(a.repository, b.repository)
    || (a.repository == b.repository
        && (Earlier(a.name, b.name) || (a.name == b.name && (Earlier(a.id, b.id) || a.id == b.id))))
  }

  ghost predicate Earlier(a: string, b: string) { exists k: nat :: Text.EarlierAt(a, b, k) }

  /** One key for each record that belongs in the report, made from it, and in order. */
  ghost predicate InventoriedAt(inventory: Inventory, keys: seq<DeployKey>, places: seq<Place>) {
    && |places| == |keys|
    && (forall place :: multiset(places)[place] == if InReport(inventory, place) then 1 else 0)
    && (forall i | 0 <= i < |keys| :: InReport(inventory, places[i]) && MadeAt(inventory, places[i], keys[i]))
    && forall i, j | 0 <= i < j < |keys| :: InOrder(keys[i], keys[j])
  }

  /** What a report of these repositories may be. */
  ghost predicate Inventoried(inventory: Inventory, keys: seq<DeployKey>) {
    exists places :: InventoriedAt(inventory, keys, places)
  }

  lemma OrderMeans(a: DeployKey, b: DeployKey)
    ensures InOrder(a, b) <==> !KeyLess(b, a)
  {
    Text.LessMeans(a.repository, b.repository);
    Text.LessMeans(a.name, b.name);
    Text.LessMeans(a.id, b.id);
    Text.CompareFlips(a.repository, b.repository);
    Text.CompareFlips(a.name, b.name);
    Text.CompareFlips(a.id, b.id);
  }

  lemma SortedMeans(keys: seq<DeployKey>)
    ensures (forall i, j | 0 <= i < j < |keys| :: InOrder(keys[i], keys[j])) <==> Sorting.Sorted(keys, KeyLess)
  {
    forall i, j | 0 <= i < j < |keys|
      ensures InOrder(keys[i], keys[j]) <==> !KeyLess(keys[j], keys[i])
    {
      OrderMeans(keys[i], keys[j]);
    }
  }

  function Tag(r: nat): Spot -> Place { (spot: Spot) => Place(r, spot) }

  ghost function PlaceLists(inventory: Inventory): nat -> seq<Place> {
    (i: nat) =>
      if i < |inventory.repositories| && Ends(inventory.replies(i)) then
        Mapped(SpotsUpTo(inventory.replies(i), EndOf(inventory.replies(i))), Tag(i))
      else []
  }

  function KeyOf(inventory: Inventory): Place -> DeployKey {
    (place: Place) =>
      if place.repository < |inventory.repositories| then
        KeyAt(inventory.replies(place.repository),
              FullName(inventory.org, inventory.repositories[place.repository]))(place.spot)
      else DeployKey("", "", "", "", None, None, None)
  }

  lemma ContributedMapped(inventory: Inventory, i: nat)
    ensures Contributed(inventory)(i) == Mapped(PlaceLists(inventory)(i), KeyOf(inventory))
  {
    if i < |inventory.repositories| && Ends(inventory.replies(i)) {
      var n, name := EndOf(inventory.replies(i)), FullName(inventory.org, inventory.repositories[i]);
      KeysAreMapped(inventory.replies(i), n, name);
    }
  }

  lemma {:induction false} FlattenMapped<A, B>(order: seq<nat>, f: nat -> seq<A>, g: A -> B, h: nat -> seq<B>)
    requires forall i: nat :: h(i) == Mapped(f(i), g)
    ensures Flatten(order, h) == Mapped(Flatten(order, f), g)
  {
    if order != [] {
      FlattenMapped(order[..|order| - 1], f, g, h);
      MappedAppend(Flatten(order[..|order| - 1], f), f(order[|order| - 1]), g);
    }
  }

  lemma {:induction false} TagCount(spots: seq<Spot>, r: nat, place: Place)
    ensures multiset(Mapped(spots, Tag(r)))[place] == if place.repository == r then multiset(spots)[place.spot] else 0
  {
    if spots != [] {
      var last := |spots| - 1;
      TagCount(spots[..last], r, place);
      assert spots == spots[..last] + [spots[last]];
      MappedAppend(spots[..last], [spots[last]], Tag(r));
      BothCount(Mapped(spots[..last], Tag(r)), [Place(r, spots[last])], place);
      BothCount(spots[..last], [spots[last]], place.spot);
    }
  }

  /** How often a place is in the lists: once if it belongs in the report. */
  lemma ListCount(inventory: Inventory, i: nat, place: Place)
    requires i < |inventory.repositories|
    ensures multiset(PlaceLists(inventory)(i))[place] ==
        if place.repository == i && InReport(inventory, place) then 1 else 0
  {
    if Ends(inventory.replies(i)) {
      var n := EndOf(inventory.replies(i));
      TagCount(SpotsUpTo(inventory.replies(i), n), i, place);
      SpotCount(inventory.replies(i), n, place.spot);
      EndsOnce(inventory.replies(i), n);
    }
  }

  /** What only the list at r holds, and once if at all. */
  lemma {:induction false} FlattenCount<T>(n: nat, items: nat -> seq<T>, x: T, r: nat, here: bool)
    requires forall i: nat | i < n :: multiset(items(i))[x] == if i == r && here then 1 else 0
    ensures multiset(Flatten(Range(n), items))[x] == if r < n && here then 1 else 0
  {
    if n > 0 {
      FlattenCount(n - 1, items, x, r, here);
      FlattenRange(n, items);
      BothCount(Flatten(Range(n - 1), items), items(n - 1), x);
    }
  }

  lemma PlaceCount(inventory: Inventory, place: Place)
    ensures multiset(Flatten(Range(|inventory.repositories|), PlaceLists(inventory)))[place] ==
        if InReport(inventory, place) then 1 else 0
  {
    forall i: nat | i < |inventory.repositories|
      ensures multiset(PlaceLists(inventory)(i))[place] ==
          if i == place.repository && InReport(inventory, place) then 1 else 0
    {
      ListCount(inventory, i, place);
    }
    FlattenCount(
      |inventory.repositories|, PlaceLists(inventory), place, place.repository, InReport(inventory, place));
  }

  lemma {:induction false} FlattenRange<T>(n: nat, items: nat -> seq<T>)
    requires n > 0
    ensures Flatten(Range(n), items) == Flatten(Range(n - 1), items) + items(n - 1)
  {
    assert Range(n)[..n - 1] == Range(n - 1);
  }

  lemma MadeIsKey(inventory: Inventory, place: Place, key: DeployKey)
    requires InReport(inventory, place)
    ensures MadeAt(inventory, place, key) <==> key == KeyOf(inventory)(place)
  {
  }

  /** Record by record it is the sorted list of what the repositories contribute. */
  lemma InventoriedMeans(inventory: Inventory, keys: seq<DeployKey>)
    ensures Inventoried(inventory, keys) <==>
        Sorting.Arrangement(Flatten(Range(|inventory.repositories|), Contributed(inventory)), keys, KeyLess)
  {
    var all := Flatten(Range(|inventory.repositories|), PlaceLists(inventory));
    AllMapped(inventory);
    SortedMeans(keys);
    if Sorting.Sorted(keys, KeyLess) && multiset(keys) == multiset(Mapped(all, KeyOf(inventory))) {
      var places := Rearranged(all, keys, KeyOf(inventory));
      PlacesGive(inventory, keys, places);
      assert InventoriedAt(inventory, keys, places);
    }
    if places :| InventoriedAt(inventory, keys, places) {
      GivenPlaces(inventory, keys, places);
    }
  }

  lemma AllMapped(inventory: Inventory)
    ensures Flatten(Range(|inventory.repositories|), Contributed(inventory)) ==
        Mapped(Flatten(Range(|inventory.repositories|), PlaceLists(inventory)), KeyOf(inventory))
  {
    forall i: nat
      ensures Contributed(inventory)(i) == Mapped(PlaceLists(inventory)(i), KeyOf(inventory))
    {
      ContributedMapped(inventory, i);
    }
    FlattenMapped(Range(|inventory.repositories|), PlaceLists(inventory), KeyOf(inventory), Contributed(inventory));
  }

  lemma PlacesGive(inventory: Inventory, keys: seq<DeployKey>, places: seq<Place>)
    requires multiset(places) == multiset(Flatten(Range(|inventory.repositories|), PlaceLists(inventory)))
    requires keys == Mapped(places, KeyOf(inventory))
    ensures forall place :: multiset(places)[place] == if InReport(inventory, place) then 1 else 0
    ensures forall i | 0 <= i < |keys| :: InReport(inventory, places[i]) && MadeAt(inventory, places[i], keys[i])
  {
    forall place
      ensures multiset(places)[place] == if InReport(inventory, place) then 1 else 0
    {
      PlaceCount(inventory, place);
    }
    forall i | 0 <= i < |keys|
      ensures InReport(inventory, places[i]) && MadeAt(inventory, places[i], keys[i])
    {
      assert places[i] in multiset(places);
      MadeIsKey(inventory, places[i], keys[i]);
    }
  }

  lemma GivenPlaces(inventory: Inventory, keys: seq<DeployKey>, places: seq<Place>)
    requires InventoriedAt(inventory, keys, places)
    ensures multiset(keys) ==
        multiset(Mapped(Flatten(Range(|inventory.repositories|), PlaceLists(inventory)), KeyOf(inventory)))
  {
    var all := Flatten(Range(|inventory.repositories|), PlaceLists(inventory));
    forall i | 0 <= i < |keys|
      ensures keys[i] == KeyOf(inventory)(places[i])
    {
      MadeIsKey(inventory, places[i], keys[i]);
    }
    assert keys == Mapped(places, KeyOf(inventory));
    forall place
      ensures multiset(places)[place] == multiset(all)[place]
    {
      PlaceCount(inventory, place);
    }
    MappedPermutation(places, all, KeyOf(inventory));
  }

  /**
   From the pages to the report, whatever the schedule: one key for each record that belongs in it, in order,
   and main counts all repositories as scanned exactly when all of them can be.
  */
  lemma PagesToReport(
      inventory: Inventory, results: seq<ScanResult>, steps: seq<Step>, states: seq<Pool>, keys: seq<DeployKey>)
    requires ResultsOf(results, inventory) && Run(steps, states, |results|) && states[|steps|].finished
    requires Sorting.Arrangement(Flatten(states[|steps|].received, KeyLists(results)), keys, KeyLess)
    ensures Inventoried(inventory, keys)
    ensures |Flatten(states[|steps|].received, Marks(results))| == |results| <==>
        forall i | 0 <= i < |results| :: Ends(inventory.replies(i))
  {
    var received := states[|steps|].received;
    AllReceived(steps, states, |results|);
    FlattenPermutation(received, Range(|results|), KeyLists(results));
    FlattenPermutation(received, Range(|results|), Marks(results));
    assert |multiset(Flatten(received, Marks(results)))| == |multiset(Flatten(Range(|results|), Marks(results)))|;
    ResultsContribute(results, inventory);
    CoverageComplete(results);
    InventoriedMeans(inventory, keys);
  }

  /** A key of some record that belongs in the report. */
  ghost predicate OnPages(inventory: Inventory, key: DeployKey) {
    exists place :: InReport(inventory, place) && MadeAt(inventory, place, key)
  }

  lemma MappedMember<A, B>(s: seq<A>, f: A -> B, y: B)
    ensures y in Mapped(s, f) <==> exists x :: x in s && f(x) == y
  {
    if x :| x in s && f(x) == y {
      var i :| 0 <= i < |s| && s[i] == x;
      assert Mapped(s, f)[i] == y;
    }
    if y in Mapped(s, f) {
      var i :| 0 <= i < |s| && Mapped(s, f)[i] == y;
      assert s[i] in s && f(s[i]) == y;
    }
  }

  lemma OnPagesMeans(inventory: Inventory, key: DeployKey)
    ensures OnPages(inventory, key) <==> key in Flatten(Range(|inventory.repositories|), Contributed(inventory))
  {
    var all := Flatten(Range(|inventory.repositories|), PlaceLists(inventory));
    AllMapped(inventory);
    MappedMember(all, KeyOf(inventory), key);
    forall place
      ensures place in all <==> InReport(inventory, place)
    {
      PlaceCount(inventory, place);
      assert place in all <==> place in multiset(all);
    }
    forall place | InReport(inventory, place)
      ensures MadeAt(inventory, place, key) <==> key == KeyOf(inventory)(place)
    {
      MadeIsKey(inventory, place, key);
    }
  }

  /** The pages determine the report exactly when no two different keys on them share a triple. */
  lemma PagesDetermineReport(inventory: Inventory)
    ensures (forall a, b | Inventoried(inventory, a) && Inventoried(inventory, b) :: a == b) <==>
        forall x, y | OnPages(inventory, x) && OnPages(inventory, y) && SameTriple(x, y) :: x == y
  {
    KeyOrder();
    var all := Flatten(Range(|inventory.repositories|), Contributed(inventory));
    Sorting.UniqueIffTieFree(all, KeyLess);
    forall a
      ensures Inventoried(inventory, a) <==> Sorting.Arrangement(all, a, KeyLess)
    {
      InventoriedMeans(inventory, a);
    }
    forall x
      ensures OnPages(inventory, x) <==> x in all
    {
      OnPagesMeans(inventory, x);
    }
  }

  ghost function Chosen(n: nat, choice: nat -> bool): set<nat> { set i: nat | i < n && choice(i) }

  /** The repositories among the first n that can be scanned. */
  ghost function Scannable(inventory: Inventory, n: nat): set<nat> {
    Chosen(n, (i: nat) => Ends(inventory.replies(i)))
  }

  lemma {:induction false} MarksCount(results: seq<ScanResult>, inventory: Inventory, n: nat)
    requires ResultsOf(results, inventory) && n <= |results|
    ensures |Flatten(Range(n), Marks(results))| == |Scannable(inventory, n)|
  {
    if n == 0 {
      assert Scannable(inventory, 0) == {};
    } else {
      MarksCount(results, inventory, n - 1);
      MarksNext(results, n);
      ResultContributes(results, inventory, n - 1);
      ChosenNext(n, (i: nat) => Ends(inventory.replies(i)));
    }
  }

  lemma ChosenNext(n: nat, choice: nat -> bool)
    requires n > 0
    ensures |Chosen(n, choice)| == |Chosen(n - 1, choice)| + if choice(n - 1) then 1 else 0
  {
    var fewer := Chosen(n - 1, choice);
    assert Chosen(n, choice) == if choice(n - 1) then fewer + {n - 1} else fewer;
  }

  /** GitHubDeployKeys as a whole, with results that arrive in any order in which each arrives once. */
  method GitHubDeployKeys(inventory: Inventory, order: seq<nat>) returns (keys: seq<DeployKey>, coverage: Coverage)
    requires multiset(order) == multiset(Range(|inventory.repositories|))
    ensures Inventoried(inventory, keys)
    ensures coverage.total == |inventory.repositories|
    ensures coverage.scanned == |Scannable(inventory, |inventory.repositories|)|
    ensures coverage.status == "complete" <==>
        forall i | 0 <= i < |inventory.repositories| :: Ends(inventory.replies(i))
  {
    var results: seq<ScanResult> := [];
    for i := 0 to |inventory.repositories|
      invariant |results| == i && forall j | 0 <= j < i ::
        ScanOf(results[j], inventory.replies(j), FullName(inventory.org, inventory.repositories[j]))
    {
      var result := ScanRepository(inventory.org, inventory.repositories[i], inventory.replies(i));
      results := results + [result];
    }
    keys, coverage := Gather(results, order);
    ResultsContribute(results, inventory);
    CoverageComplete(results);
    MarksCount(results, inventory, |results|);
    InventoriedMeans(inventory, keys);
  }
}
