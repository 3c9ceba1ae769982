/**
 executeBeaconJob of internal/app/app.go as a transition system: one goroutine per platform, a
 heartbeat goroutine and the main goroutine, sharing a cancel flag and a bounded error channel.
 Every interleaving is a run; collectors, the network and the clock are chosen by the environment.
*/
module JobRunner {
  import opened Wire
  import opened Protocol
  import opened Sums

  // ---------------------------------------------------------------- results

  /** What collecting one platform yields; a deadline overrun is a CollectFailed with its own text. */
  datatype Collection =
    | NotConfigured
    | CollectFailed(message: string)
    | Collected(members: seq<Member>, deployKeys: seq<DeployKey>, coverage: Coverage)

  function BuildResult(platform: string, collection: Collection): Result {
    match collection
    case NotConfigured => Result(platform, [], Some("integration is not configured in this Beacon"), [], None)
    case CollectFailed(message) => Result(platform, [], Some(message), [], None)
    case Collected(members, deployKeys, coverage) =>
      if platform == "github" then Result(platform, members, None, deployKeys, Some(coverage))
      else Result(platform, members, None, [], None)
  }

  /**
   An uploaded result names its platform and carries an error or the collected inventory, never
   both; deploy keys and their coverage travel only with a successful GitHub collection.
  */
  ghost predicate WellFormed(result: Result, platform: string, collection: Collection) {
    && result.platform == platform
    && (result.error.None? <==> collection.Collected?)
    && (result.error.Some? ==> result.members == [] && result.deployKeys == [] && result.coverage.None?)
    && (collection.Collected? ==> result.members == collection.members)
    && (collection.CollectFailed? ==> result.error == Some(collection.message))
    && (collection.NotConfigured? ==> result.error == Some("integration is not configured in this Beacon"))
    && (result.coverage.Some? <==> platform == "github" && collection.Collected?)
    && (result.coverage.Some? ==>
        result.deployKeys == collection.deployKeys && result.coverage.value == collection.coverage)
    && (result.coverage.None? ==> result.deployKeys == [])
  }

  /** The uploaded result, value by value. */
  lemma ResultMeans(platform: string, collection: Collection, result: Result)
    ensures WellFormed(result, platform, collection) <==> result == BuildResult(platform, collection)
    ensures BuildResult(platform, NotConfigured) ==
        Result(platform, [], Some("integration is not configured in this Beacon"), [], None)
    ensures collection.CollectFailed? ==>
        BuildResult(platform, collection) == Result(platform, [], Some(collection.message), [], None)
    ensures collection.Collected? ==>
        BuildResult(platform, collection) ==
          Result(platform, collection.members, None, if platform == "github" then collection.deployKeys else [],
                 if platform == "github" then Some(collection.coverage) else None)
  {
  }

  // ---------------------------------------------------------------- state

  datatype Phase =
    | Collecting
    | Uploading(attempt: nat)      // request number `attempt` is about to be answered
    | BackingOff(attempt: nat)     // between two requests
    | Reporting                    // about to send on the error channel
    | Finished(delivered: bool)

  /** One worker goroutine with the record of what it did, and whether a back-off was ended by cancellation. */
  datatype Task = Task(
    platform: string, phase: Phase, collections: nat, collection: Option<Collection>, result: Option<Result>,
    log: seq<Request<Body>>, interrupted: bool)

  datatype Heartbeat =
    | Ticking(failures: nat)
    | Calling(failures: nat)
    | LeaseReporting               // third failure in a row: about to send on the error channel
    | LeaseCancelling              // sent, about to cancel the job
    | Stopped(reported: bool)

  datatype Main = Joining | Cancelling | AwaitingHeartbeat | Closing | Draining | Returned(failure: Option<Report>)

  datatype Report = UploadFailed(platform: string) | LeaseLost

  /** `ownCancel` is the number of heartbeats that had been answered when main called cancel. */
  datatype State = State(
    job: Job, capacity: nat, tasks: seq<Task>, heartbeat: Heartbeat, main: Main,
    cancelled: bool, closed: bool, queue: seq<Report>, beats: seq<bool>, ownCancel: Option<nat>)

  /** The platforms worked on: the pending ones, or all of them if none is pending. */
  function Platforms(job: Job): seq<string> {
    if |job.pendingPlatforms| == 0 then job.platforms else job.pendingPlatforms
  }

  function Init(job: Job): State {
    var platforms := Platforms(job);
    State(job, |job.pendingPlatforms| + 1,
          seq(|platforms|, i requires 0 <= i < |platforms| => Task(platforms[i], Collecting, 0, None, None, [], false)),
          Ticking(0), Joining, false, false, [], [], None)
  }

  // ---------------------------------------------------------------- steps

  datatype TaskStep =
    | Collect(collection: Collection)
    | EncodeRejected
    | Answer(reply: Reply)
    | RetryTimer
    | BackoffCancelled
    | Report

  datatype HeartbeatStep = Tick | HeartbeatAnswer(ok: bool) | ReportLease | CancelLease | StopHeartbeat

  datatype MainStep = Join | CancelJob | HeartbeatDone | CloseChannel | Drain

  datatype Step =
    | Worker(i: nat, task: TaskStep)
    | Beat(heartbeat: HeartbeatStep)
    | Control(main: MainStep)
    | CancelParent

  /** Whether a worker's next statement can execute; `room` tells if the channel has a free slot. */
  predicate TaskEnabled(task: Task, step: TaskStep, cancelled: bool, room: bool) {
    match step
    case Collect(_) => task.phase == Collecting
    case EncodeRejected => task.phase == Uploading(0)
    case Answer(_) => task.phase.Uploading? && task.result.Some?
    case RetryTimer => task.phase.BackingOff?
    case BackoffCancelled => task.phase.BackingOff? && cancelled
    case Report => task.phase == Reporting && room
  }

  function TaskApply(task: Task, step: TaskStep, job: Job): Task
    requires TaskEnabled(task, step, true, true)
  {
    match step
    case Collect(collection) =>
      task.(phase := Uploading(0), collections := task.collections + 1,
            collection := Some(collection), result := Some(BuildResult(task.platform, collection)))
    case EncodeRejected => task.(phase := Reporting)
    case Answer(reply) =>
      var log := task.log + [Request(Body(task.result.value, job), reply)];
      if reply == Status(200) then task.(phase := Finished(true), log := log)
      else if !Retryable(reply) || task.phase.attempt == ATTEMPTS - 1 then task.(phase := Reporting, log := log)
      else task.(phase := BackingOff(task.phase.attempt), log := log)
    case RetryTimer => task.(phase := Uploading(task.phase.attempt + 1))
    case BackoffCancelled => task.(phase := Reporting, interrupted := true)
    case Report => task.(phase := Finished(false))
  }

  predicate BeatEnabled(s: State, step: HeartbeatStep) {
    match step
    case Tick => s.heartbeat.Ticking?
    case HeartbeatAnswer(_) => s.heartbeat.Calling?
    case ReportLease => s.heartbeat == LeaseReporting && |s.queue| < s.capacity
    case CancelLease => s.heartbeat == LeaseCancelling
    case StopHeartbeat => s.heartbeat.Ticking? && s.cancelled
  }

  function BeatApply(s: State, step: HeartbeatStep): State
    requires BeatEnabled(s, step)
  {
    match step
    case Tick => s.(heartbeat := Calling(s.heartbeat.failures))
    case HeartbeatAnswer(ok) =>
      var beats := s.beats + [ok];
      if ok then s.(heartbeat := Ticking(0), beats := beats)
      else if s.heartbeat.failures + 1 >= 3 then s.(heartbeat := LeaseReporting, beats := beats)
      else s.(heartbeat := Ticking(s.heartbeat.failures + 1), beats := beats)
    case ReportLease => s.(heartbeat := LeaseCancelling, queue := s.queue + [LeaseLost])
    case CancelLease => s.(heartbeat := Stopped(true), cancelled := true)
    case StopHeartbeat => s.(heartbeat := Stopped(false))
  }

  predicate MainEnabled(s: State, step: MainStep) {
    match step
    case Join => s.main == Joining && forall i | 0 <= i < |s.tasks| :: s.tasks[i].phase.Finished?
    case CancelJob => s.main == Cancelling
    case HeartbeatDone => s.main == AwaitingHeartbeat && s.heartbeat.Stopped?
    case CloseChannel => s.main == Closing
    case Drain => s.main == Draining
  }

  function MainApply(s: State, step: MainStep): State {
    match step
    case Join => s.(main := Cancelling)
    case CancelJob => s.(main := AwaitingHeartbeat, cancelled := true, ownCancel := Some(|s.beats|))
    case HeartbeatDone => s.(main := Closing)
    case CloseChannel => s.(main := Draining, closed := true)
    case Drain => s.(main := Returned(if s.queue == [] then None else Some(s.queue[0])))
  }

  predicate Enabled(s: State, step: Step) {
    match step
    case Worker(i, task) => i < |s.tasks| && TaskEnabled(s.tasks[i], task, s.cancelled, |s.queue| < s.capacity)
    case Beat(heartbeat) => BeatEnabled(s, heartbeat)
    case Control(main) => MainEnabled(s, main)
    case CancelParent => true
  }

  function Apply(s: State, step: Step): State
    requires Enabled(s, step)
  {
    match step
    case Worker(i, task) =>
      s.(tasks := s.tasks[i := TaskApply(s.tasks[i], task, s.job)],
         queue := if task.Report? then s.queue + [UploadFailed(s.tasks[i].platform)] else s.queue)
    case Beat(heartbeat) => BeatApply(s, heartbeat)
    case Control(main) => MainApply(s, main)
    case CancelParent => s.(cancelled := true)
  }

  // ---------------------------------------------------------------- invariant

  ghost predicate TaskInv(task: Task, job: Job) {
    && (task.phase == Collecting ==> task.collections == 0 && task.log == [])
    && (task.phase != Collecting ==>
        && task.collections == 1 && task.collection.Some? && task.result.Some?
        && WellFormed(task.result.value, task.platform, task.collection.value)
        && (forall i | 0 <= i < |task.log| :: task.log[i].body == Body(task.result.value, job)))
    && Retried(task.log)
    && (task.interrupted ==> task.phase == Reporting || task.phase == Finished(false))
    && match task.phase
       case Collecting => true
       case Uploading(attempt) =>
         |task.log| == attempt < ATTEMPTS && forall i | 0 <= i < |task.log| :: Retryable(task.log[i].reply)
       case BackingOff(attempt) =>
         |task.log| == attempt + 1 < ATTEMPTS && forall i | 0 <= i < |task.log| :: Retryable(task.log[i].reply)
       case Reporting => UploadTrace(task.log, Body(task.result.value, job), false) && GivenUp(task)
       case Finished(delivered) =>
         UploadTrace(task.log, Body(task.result.value, job), delivered) && (delivered || GivenUp(task))
  }

  /**
   Why a worker reports an error: its result could not be encoded, the last answer was a refusal or the third,
   or cancellation ended a wait for the next request.
  */
  ghost predicate GivenUp(task: Task) {
    task.log == [] || Exhausted(task.log) || (task.interrupted && |task.log| < 3)
  }

  /** How many messages a goroutine has put on the channel. */
  function TaskReports(task: Task): nat { if task.phase == Finished(false) then 1 else 0 }

  function HeartbeatReports(heartbeat: Heartbeat): nat {
    if heartbeat == LeaseCancelling || heartbeat == Stopped(true) then 1 else 0
  }

  /** The heartbeat was refused three times in a row. */
  ghost predicate ThreeFailures(beats: seq<bool>) {
    exists k | 2 <= k < |beats| :: ThirdFailure(beats, k)
  }

  predicate ThirdFailure(beats: seq<bool>, k: nat)
    requires 2 <= k < |beats|
  {
    !beats[k] && !beats[k - 1] && !beats[k - 2]
  }

  function TrailingFailures(beats: seq<bool>): nat {
    if beats == [] || beats[|beats| - 1] then 0 else 1 + TrailingFailures(beats[..|beats| - 1])
  }

  lemma TrailingAppended(beats: seq<bool>, ok: bool)
    ensures TrailingFailures(beats + [ok]) == if ok then 0 else TrailingFailures(beats) + 1
  {
    assert (beats + [ok])[..|beats|] == beats;
  }

  /** The counter is at two exactly when the last two beats failed. */
  lemma TrailingTwo(beats: seq<bool>)
    ensures TrailingFailures(beats) >= 2 <==> |beats| >= 2 && !beats[|beats| - 1] && !beats[|beats| - 2]
  {
    if beats != [] {
      var shorter := beats[..|beats| - 1];
      assert TrailingFailures(shorter) >= 1 <==> shorter != [] && !shorter[|shorter| - 1];
    }
  }

  lemma BeatAppended(beats: seq<bool>, ok: bool)
    ensures TrailingFailures(beats + [ok]) == if ok then 0 else TrailingFailures(beats) + 1
    ensures ThreeFailures(beats + [ok]) <==> ThreeFailures(beats) || (!ok && TrailingFailures(beats) >= 2)
  {
    var all, n := beats + [ok], |beats|;
    TrailingAppended(beats, ok);
    TrailingTwo(beats);
    if !ok && TrailingFailures(beats) >= 2 {
      assert ThirdFailure(all, n);
    }
    if k :| 2 <= k < n && ThirdFailure(beats, k) {
      assert ThirdFailure(all, k);
    }
    if k :| 2 <= k < |all| && ThirdFailure(all, k) {
      assert k < n ==> ThirdFailure(beats, k);
    }
  }

  ghost predicate TasksInv(s: State) {
    && |s.tasks| == |Platforms(s.job)|
    && forall i | 0 <= i < |s.tasks| ::
      && s.tasks[i].platform == Platforms(s.job)[i] && TaskInv(s.tasks[i], s.job)
      && (s.tasks[i].interrupted ==> s.cancelled)
  }

  predicate AllFinished(s: State) {
    forall i | 0 <= i < |s.tasks| :: s.tasks[i].phase.Finished?
  }

  ghost predicate ControlInv(s: State) { ChannelInv(s) && CancelInv(s) }

  ghost predicate ChannelInv(s: State) {
    && s.capacity == |s.job.pendingPlatforms| + 1
    && |s.queue| == Sum(s.tasks, TaskReports) + HeartbeatReports(s.heartbeat)
    && (s.heartbeat.Ticking? || s.heartbeat.Calling? ==> s.heartbeat.failures == TrailingFailures(s.beats) < 3)
    && (ThreeFailures(s.beats) <==> s.heartbeat == LeaseReporting || HeartbeatReports(s.heartbeat) == 1)
    && (s.main != Joining ==> AllFinished(s))
    && (s.main != Joining && s.main != Cancelling ==> s.cancelled)
    && (s.main.Closing? || s.main.Draining? || s.main.Returned? ==> s.heartbeat.Stopped?)
    && (s.closed <==> s.main.Draining? || s.main.Returned?)
    && (s.heartbeat == Stopped(true) ==> s.cancelled)
    && (s.main.Returned? ==> s.main.failure == if s.queue == [] then None else Some(s.queue[0]))
  }

  /** No heartbeat is sent after the one that made three failures in a row, whether main had cancelled or not. */
  ghost predicate CancelInv(s: State) {
    && (ThreeFailures(s.beats) ==> TrailingFailures(s.beats) == 3)
    && (s.ownCancel.Some? <==> s.main != Joining && s.main != Cancelling)
    && (s.ownCancel.Some? ==>
        && s.ownCancel.value <= |s.beats|
        && (s.ownCancel.value < |s.beats| ==> !ThreeFailures(s.beats[..s.ownCancel.value])))
  }

  /** Each message tells of a worker that failed or of a lost lease. */
  ghost predicate QueueInv(s: State) {
    forall k | 0 <= k < |s.queue| :: Backed(s, s.queue[k])
  }

  ghost predicate Backed(s: State, report: Report) {
    match report
    case UploadFailed(platform) =>
      exists i :: 0 <= i < |s.tasks| && s.tasks[i].platform == platform && s.tasks[i].phase == Finished(false)
    case LeaseLost => HeartbeatReports(s.heartbeat) == 1
  }

  ghost predicate Inv(s: State) { TasksInv(s) && ControlInv(s) && QueueInv(s) }

  lemma InitInv(job: Job)
    ensures Inv(Init(job))
  {
    SumConstant(Init(job).tasks, TaskReports, 0);
  }

  lemma AnswerInv(task: Task, reply: Reply, job: Job)
    requires TaskInv(task, job) && TaskEnabled(task, Answer(reply), true, true)
    ensures TaskInv(TaskApply(task, Answer(reply), job), job)
  {
    AnswerTrace(task.log, Body(task.result.value, job), reply);
  }

  lemma TaskStepInv(task: Task, step: TaskStep, job: Job)
    requires TaskInv(task, job) && TaskEnabled(task, step, true, true)
    ensures TaskInv(TaskApply(task, step, job), job)
  {
    if step.Answer? {
      AnswerInv(task, step.reply, job);
    }
  }

  lemma WorkerInv(s: State, i: nat, step: TaskStep)
    requires Inv(s) && Enabled(s, Worker(i, step))
    ensures Inv(Apply(s, Worker(i, step)))
  {
    TaskStepInv(s.tasks[i], step, s.job);
    WorkerTasks(s, i, step);
    WorkerControl(s, i, step);
    WorkerQueue(s, i, step);
  }

  /** A worker that has failed has no step, so what was said of it stays true. */
  lemma WorkerQueue(s: State, i: nat, step: TaskStep)
    requires QueueInv(s) && Enabled(s, Worker(i, step))
    ensures QueueInv(Apply(s, Worker(i, step)))
  {
    var t := Apply(s, Worker(i, step));
    assert t.tasks[i].platform == s.tasks[i].platform && t.heartbeat == s.heartbeat;
    forall k | 0 <= k < |t.queue|
      ensures Backed(t, t.queue[k])
    {
      if k < |s.queue| {
        assert Backed(s, s.queue[k]);
        if s.queue[k].UploadFailed? {
          var j :|
            0 <= j < |s.tasks| && s.tasks[j].platform == s.queue[k].platform && s.tasks[j].phase == Finished(false);
          assert t.tasks[j].phase == Finished(false);
        }
      } else {
        assert t.tasks[i].phase == Finished(false);
      }
    }
  }

  lemma OtherQueue(s: State, step: Step)
    requires QueueInv(s) && ControlInv(s) && Enabled(s, step) && !step.Worker?
    ensures QueueInv(Apply(s, step))
  {
    var t := Apply(s, step);
    assert t.tasks == s.tasks;
    forall k | 0 <= k < |t.queue|
      ensures Backed(t, t.queue[k])
    {
      assert k < |s.queue| ==> Backed(s, s.queue[k]);
    }
  }

  lemma WorkerTasks(s: State, i: nat, step: TaskStep)
    requires TasksInv(s) && Enabled(s, Worker(i, step))
    requires TaskInv(TaskApply(s.tasks[i], step, s.job), s.job)
    ensures TasksInv(Apply(s, Worker(i, step)))
  {
    assert TaskApply(s.tasks[i], step, s.job).platform == s.tasks[i].platform;
  }

  lemma WorkerControl(s: State, i: nat, step: TaskStep)
    requires ControlInv(s) && Enabled(s, Worker(i, step))
    ensures ControlInv(Apply(s, Worker(i, step)))
  {
    SumUpdate(s.tasks, i, TaskApply(s.tasks[i], step, s.job), TaskReports);
    assert s.main == Joining;
  }

  lemma FailuresStay(beats: seq<bool>, ok: bool, n: nat)
    requires n <= |beats| && !ThreeFailures(beats)
    ensures !ThreeFailures((beats + [ok])[..n])
  {
    if k :| 2 <= k < n && ThirdFailure((beats + [ok])[..n], k) {
      assert ThirdFailure(beats, k);
    }
  }

  lemma AnsweredCancel(s: State, ok: bool)
    requires CancelInv(s) && BeatEnabled(s, HeartbeatAnswer(ok))
    requires TrailingFailures(s.beats) < 3 && !ThreeFailures(s.beats)
    ensures CancelInv(BeatApply(s, HeartbeatAnswer(ok)))
  {
    var t := BeatApply(s, HeartbeatAnswer(ok));
    assert t.beats == s.beats + [ok] && t.ownCancel == s.ownCancel && t.main == s.main;
    BeatAppended(s.beats, ok);
    if s.ownCancel.Some? {
      FailuresStay(s.beats, ok, s.ownCancel.value);
    }
  }

  lemma {:induction false} AnsweredInv(s: State, ok: bool)
    requires ChannelInv(s) && BeatEnabled(s, HeartbeatAnswer(ok))
    ensures ChannelInv(BeatApply(s, HeartbeatAnswer(ok)))
  {
    var t := BeatApply(s, HeartbeatAnswer(ok));
    BeatAppended(s.beats, ok);
    assert t.beats == s.beats + [ok] && t.tasks == s.tasks && t.main == s.main && t.queue == s.queue;
    assert HeartbeatReports(t.heartbeat) == 0 && HeartbeatReports(s.heartbeat) == 0;
  }

  lemma BeatInv(s: State, step: HeartbeatStep)
    requires ControlInv(s) && BeatEnabled(s, step)
    ensures ControlInv(BeatApply(s, step))
  {
    if step.HeartbeatAnswer? {
      AnsweredInv(s, step.ok);
      AnsweredCancel(s, step.ok);
    } else {
      UnansweredInv(s, step);
    }
  }

  lemma UnansweredInv(s: State, step: HeartbeatStep)
    requires ControlInv(s) && BeatEnabled(s, step) && !step.HeartbeatAnswer?
    ensures ControlInv(BeatApply(s, step))
  {
    var t := BeatApply(s, step);
    assert t.beats == s.beats && t.tasks == s.tasks && t.main == s.main;
  }

  lemma MainInv(s: State, step: MainStep)
    requires ControlInv(s) && MainEnabled(s, step)
    ensures ControlInv(MainApply(s, step))
  {
  }

  lemma TasksFrame(s: State, t: State)
    requires TasksInv(s) && t.tasks == s.tasks && t.job == s.job && (s.cancelled ==> t.cancelled)
    ensures TasksInv(t)
  {
  }

  lemma StepInv(s: State, step: Step)
    requires Inv(s) && Enabled(s, step)
    ensures Inv(Apply(s, step)) && Apply(s, step).job == s.job
  {
    if !step.Worker? {
      OtherQueue(s, step);
    }
    match step
    case Worker(i, task) => WorkerInv(s, i, task);
    case Beat(heartbeat) => BeatInv(s, heartbeat); TasksFrame(s, BeatApply(s, heartbeat));
    case Control(main) => MainInv(s, main); TasksFrame(s, MainApply(s, main));
    case CancelParent => TasksFrame(s, Apply(s, step));
  }

  // ---------------------------------------------------------------- runs

  /** A run from `start`: the steps taken, and the state before and after each of them. */
  ghost predicate Run(start: State, steps: seq<Step>, states: seq<State>) {
    && |states| == |steps| + 1 && states[0] == start
    && forall k | 0 <= k < |steps| :: Taken(steps, states, k)
  }

  ghost predicate Taken(steps: seq<Step>, states: seq<State>, k: nat)
    requires k < |steps| < |states|
  {
    Enabled(states[k], steps[k]) && states[k + 1] == Apply(states[k], steps[k])
  }

  ghost predicate Reachable(job: Job, s: State) {
    exists steps, states :: Run(Init(job), steps, states) && states[|steps|] == s
  }

  lemma {:induction false} RunInv(start: State, steps: seq<Step>, states: seq<State>, k: nat)
    requires Run(start, steps, states) && Inv(start) && k <= |steps|
    ensures Inv(states[k]) && states[k].job == start.job
  {
    if k > 0 {
      RunInv(start, steps, states, k - 1);
      assert Taken(steps, states, k - 1);
      StepInv(states[k - 1], steps[k - 1]);
    }
  }

  lemma ReachableInv(job: Job, s: State)
    requires Reachable(job, s)
    ensures Inv(s) && s.job == job
  {
    var steps, states :| Run(Init(job), steps, states) && states[|steps|] == s;
    InitInv(job);
    RunInv(Init(job), steps, states, |steps|);
  }

  // ---------------------------------------------------------------- no send blocks, none after close

  /** A goroutine stands at a channel send that has no room. */
  ghost predicate SendBlocked(s: State) {
    && |s.queue| >= s.capacity
    && (s.heartbeat == LeaseReporting || exists i | 0 <= i < |s.tasks| :: s.tasks[i].phase == Reporting)
  }

  /** A goroutine stands at a channel send although the channel is closed (a panic in Go). */
  ghost predicate SendAfterClose(s: State) {
    && s.closed
    && (s.heartbeat == LeaseReporting || exists i | 0 <= i < |s.tasks| :: s.tasks[i].phase == Reporting)
  }

  lemma RoomToSend(s: State)
    requires Inv(s)
    requires s.job.pendingPlatforms != [] || s.job.platforms == []
    ensures !SendBlocked(s)
  {
    SumBound(s.tasks, TaskReports);
    if i :| 0 <= i < |s.tasks| && s.tasks[i].phase == Reporting {
      assert TaskReports(s.tasks[i]) == 0;
    }
  }

  /** For accepted review jobs: whatever the interleaving, no send blocks and none follows close. */
  lemma SendsNeverBlock(job: Job, s: State)
    requires AcceptedReview(job) && Reachable(job, s)
    ensures !SendBlocked(s) && !SendAfterClose(s)
  {
    ReachableInv(job, s);
    RoomToSend(s);
  }

  lemma RunConcat(start: State, steps: seq<Step>, states: seq<State>, more: seq<Step>, later: seq<State>)
    requires Run(start, steps, states) && Run(states[|steps|], more, later)
    ensures Run(start, steps + more, states + later[1..])
    ensures (states + later[1..])[|steps + more|] == later[|more|]
  {
    var all, total := states + later[1..], steps + more;
    forall k | 0 <= k < |total|
      ensures Taken(total, all, k)
    {
      if k >= |steps| {
        assert Taken(more, later, k - |steps|);
        assert total[k] == more[k - |steps|] && all[k] == later[k - |steps|];
      } else {
        assert Taken(steps, states, k);
        assert total[k] == steps[k] && all[k] == states[k];
      }
    }
  }

  /** Worker 0 fails to encode its result and reports it. */
  lemma WorkerReports(s: State) returns (steps: seq<Step>, states: seq<State>)
    requires s.tasks != [] && s.tasks[0].phase == Collecting && |s.queue| < s.capacity
    ensures Run(s, steps, states)
    ensures |states[|steps|].queue| == |s.queue| + 1
    ensures states[|steps|].capacity == s.capacity && states[|steps|].heartbeat == s.heartbeat
  {
    steps := [Worker(0, Collect(NotConfigured)), Worker(0, EncodeRejected), Worker(0, Report)];
    var s1 := Apply(s, steps[0]);
    var s2 := Apply(s1, steps[1]);
    states := [s, s1, s2, Apply(s2, steps[2])];
    assert Taken(steps, states, 0) && Taken(steps, states, 1) && Taken(steps, states, 2);
  }

  /** The heartbeat fails until its third failure in a row. */
  lemma HeartbeatFails(s: State) returns (steps: seq<Step>, states: seq<State>)
    requires s.heartbeat.Ticking? && s.heartbeat.failures < 3
    ensures Run(s, steps, states)
    ensures states[|steps|].heartbeat == LeaseReporting
    ensures states[|steps|].queue == s.queue && states[|steps|].capacity == s.capacity
    decreases 3 - s.heartbeat.failures
  {
    steps := [Beat(Tick), Beat(HeartbeatAnswer(false))];
    var called := Apply(s, steps[0]);
    var failed := Apply(called, steps[1]);
    states := [s, called, failed];
    assert Taken(steps, states, 0) && Taken(steps, states, 1);
    if failed.heartbeat.Ticking? {
      var more, later := HeartbeatFails(failed);
      RunConcat(s, steps, states, more, later);
      steps, states := steps + more, states + later[1..];
    }
  }

  /** Without pending platforms the channel has one slot for all: worker 0 and the heartbeat overflow it. */
  lemma Overflow(job: Job) returns (s: State)
    requires job.pendingPlatforms == [] && job.platforms != []
    ensures Reachable(job, s) && SendBlocked(s) && s.heartbeat == LeaseReporting
  {
    var steps, states := WorkerReports(Init(job));
    var more, later := HeartbeatFails(states[|steps|]);
    RunConcat(Init(job), steps, states, more, later);
    s := later[|more|];
  }

  /** The channel is large enough exactly when something is pending or there is nothing to do at all. */
  lemma BlockingCondition(job: Job)
    ensures (exists s :: Reachable(job, s) && SendBlocked(s)) <==> job.pendingPlatforms == [] && job.platforms != []
  {
    if job.pendingPlatforms == [] && job.platforms != [] {
      var s := Overflow(job);
    }
    forall s | Reachable(job, s) && SendBlocked(s)
      ensures job.pendingPlatforms == [] && job.platforms != []
    {
      ReachableInv(job, s);
      if job.pendingPlatforms != [] || job.platforms == [] {
        RoomToSend(s);
      }
    }
  }

  ghost predicate HeartbeatStuck(s: State) {
    s.heartbeat == LeaseReporting && |s.queue| >= s.capacity && !s.main.Returned?
  }

  lemma StuckStep(s: State, step: Step)
    requires ControlInv(s) && HeartbeatStuck(s) && Enabled(s, step)
    ensures HeartbeatStuck(Apply(s, step))
  {
  }

  /** Once the heartbeat waits at a full channel it waits forever, and the job never returns. */
  lemma {:induction false} BlockedForever(start: State, steps: seq<Step>, states: seq<State>, k: nat)
    requires Run(start, steps, states) && Inv(start) && k <= |steps|
    requires SendBlocked(start) && start.heartbeat == LeaseReporting
    ensures HeartbeatStuck(states[k])
  {
    if k > 0 {
      BlockedForever(start, steps, states, k - 1);
      RunInv(start, steps, states, k - 1);
      assert Taken(steps, states, k - 1);
      StuckStep(states[k - 1], steps[k - 1]);
    }
  }

  // ---------------------------------------------------------------- progress

  /** Steps that may go on without end: a heartbeat that keeps being answered, and outside cancellation. */
  predicate Recurring(step: Step) {
    step.CancelParent? || (step.Beat? && (step.heartbeat.Tick? || step.heartbeat.HeartbeatAnswer?))
  }

  function TaskWork(task: Task): nat {
    match task.phase
    case Collecting => 8
    case Uploading(attempt) => if attempt < ATTEMPTS then 7 - 2 * attempt else 2
    case BackingOff(attempt) => if attempt < ATTEMPTS - 1 then 6 - 2 * attempt else 2
    case Reporting => 1
    case Finished(_) => 0
  }

  function HeartbeatWork(heartbeat: Heartbeat): nat {
    match heartbeat
    case Ticking(_) => 3
    case Calling(_) => 3
    case LeaseReporting => 2
    case LeaseCancelling => 1
    case Stopped(_) => 0
  }

  function MainWork(main: Main): nat {
    match main
    case Joining => 5
    case Cancelling => 4
    case AwaitingHeartbeat => 3
    case Closing => 2
    case Draining => 1
    case Returned(_) => 0
  }

  /** An upper bound on the non-recurring steps still to come. */
  function Work(s: State): nat {
    Sum(s.tasks, TaskWork) + HeartbeatWork(s.heartbeat) + MainWork(s.main)
  }

  lemma TaskStepWork(task: Task, step: TaskStep, job: Job)
    requires TaskInv(task, job) && TaskEnabled(task, step, true, true)
    ensures TaskWork(TaskApply(task, step, job)) < TaskWork(task)
  {
  }

  lemma WorkerWork(s: State, i: nat, step: TaskStep)
    requires Enabled(s, Worker(i, step)) && TaskInv(s.tasks[i], s.job)
    ensures Work(Apply(s, Worker(i, step))) < Work(s)
  {
    TaskStepWork(s.tasks[i], step, s.job);
    SumUpdate(s.tasks, i, TaskApply(s.tasks[i], step, s.job), TaskWork);
  }

  lemma OtherWork(s: State, step: Step)
    requires !step.Worker? && Enabled(s, step)
    ensures Work(Apply(s, step)) + (if Recurring(step) then 0 else 1) <= Work(s)
  {
    assert Apply(s, step).tasks == s.tasks;
  }

  lemma StepWork(s: State, step: Step)
    requires Inv(s) && Enabled(s, step)
    ensures Work(Apply(s, step)) + (if Recurring(step) then 0 else 1) <= Work(s)
  {
    if step.Worker? {
      assert TaskInv(s.tasks[step.i], s.job);
      WorkerWork(s, step.i, step.task);
    } else {
      OtherWork(s, step);
    }
  }

  /** How many of the first k steps are not recurring. */
  function CountLasting(steps: seq<Step>, k: nat): nat
    requires k <= |steps|
  {
    if k == 0 then 0
    else CountLasting(steps, k - 1) + (if Recurring(steps[k - 1]) then 0 else 1)
  }

  /** Every run makes at most 8 steps per platform and 8 more, apart from heartbeats. */
  lemma RunsAreBounded(job: Job, steps: seq<Step>, states: seq<State>)
    requires Run(Init(job), steps, states)
    ensures CountLasting(steps, |steps|) <= 8 * |Platforms(job)| + 8
  {
    SumConstant(Init(job).tasks, TaskWork, 8);
    InitInv(job);
    WorkSpent(Init(job), steps, states, |steps|);
  }

  lemma {:induction false} WorkSpent(start: State, steps: seq<Step>, states: seq<State>, k: nat)
    requires Run(start, steps, states) && Inv(start) && k <= |steps|
    ensures CountLasting(steps, k) + Work(states[k]) <= Work(start)
  {
    if k > 0 {
      WorkSpent(start, steps, states, k - 1);
      RunInv(start, steps, states, k - 1);
      assert Taken(steps, states, k - 1);
      StepWork(states[k - 1], steps[k - 1]);
    }
  }

  /**
   For accepted jobs no state short of the return is stuck: some goroutine has a step that brings
   the end nearer, or a heartbeat request is in flight, whose answer lets the heartbeat go on.
  */
  lemma NeverStuck(job: Job, s: State)
    requires AcceptedReview(job) && Reachable(job, s) && !s.main.Returned?
    ensures exists step :: Enabled(s, step) && (Recurring(step) ==> InFlight(s, step))
  {
    ReachableInv(job, s);
    RoomToSend(s);
    if i :| 0 <= i < |s.tasks| && !s.tasks[i].phase.Finished? {
      var step := WorkerMoves(s, i);
    } else {
      var step := OthersMove(s);
    }
  }

  /** The answer to the one heartbeat request that main is still waiting for. */
  predicate InFlight(s: State, step: Step) {
    step == Beat(HeartbeatAnswer(true)) && s.main == AwaitingHeartbeat
  }

  lemma WorkerMoves(s: State, i: nat) returns (step: Step)
    requires i < |s.tasks| && TaskInv(s.tasks[i], s.job) && !s.tasks[i].phase.Finished? && !SendBlocked(s)
    ensures Enabled(s, step) && !Recurring(step)
  {
    match s.tasks[i].phase
    case Collecting => step := Worker(i, Collect(NotConfigured));
    case Uploading(_) => step := Worker(i, Answer(TransportError));
    case BackingOff(_) => step := Worker(i, RetryTimer);
    case Reporting => step := Worker(i, Report);
  }

  lemma OthersMove(s: State) returns (step: Step)
    requires ControlInv(s) && AllFinished(s) && !SendBlocked(s) && !s.main.Returned?
    ensures Enabled(s, step) && (Recurring(step) ==> InFlight(s, step))
  {
    match s.main
    case Joining => step := Control(Join);
    case Cancelling => step := Control(CancelJob);
    case Closing => step := Control(CloseChannel);
    case Draining => step := Control(Drain);
    case AwaitingHeartbeat =>
      match s.heartbeat
      case Ticking(_) => step := Beat(StopHeartbeat);
      case Calling(_) => step := Beat(HeartbeatAnswer(true));
      case LeaseReporting => step := Beat(ReportLease);
      case LeaseCancelling => step := Beat(CancelLease);
      case Stopped(_) => step := Control(HeartbeatDone);
  }

  // ---------------------------------------------------------------- outcome

  /** Nothing is reported when every upload was delivered and the lease was never lost. */
  lemma QueueEmpty(s: State)
    requires Inv(s)
    requires forall i | 0 <= i < |s.tasks| :: s.tasks[i].phase.Finished?
    requires s.heartbeat.Stopped?
    ensures s.queue == [] <==>
        !ThreeFailures(s.beats) && forall i | 0 <= i < |s.tasks| :: s.tasks[i].phase == Finished(true)
  {
    SumBound(s.tasks, TaskReports);
    assert forall i | 0 <= i < |s.tasks| :: TaskReports(s.tasks[i]) == 0 <==> s.tasks[i].phase == Finished(true);
  }

  /**
   When an accepted job returns: it returned nil exactly when every upload returned nil and the
   heartbeat never failed three times in a row, and an error tells of one that did not; the workers are
   exactly the pending platforms, each collected once; and what each sent is at most three equal requests, one
   after every retryable answer until an answer of 200, a refusal, the third answer or a cancellation.
  */
  lemma JobOutcome(job: Job, s: State)
    requires AcceptedReview(job) && Reachable(job, s) && s.main.Returned?
    ensures s.main.failure.None? <==>
        !ThreeFailures(s.beats) && forall i | 0 <= i < |s.tasks| :: s.tasks[i].phase == Finished(true)
    ensures s.main.failure == if s.queue == [] then None else Some(s.queue[0])
    ensures s.main.failure == Some(LeaseLost) ==> ThreeFailures(s.beats)
    ensures s.main.failure.Some? && s.main.failure.value.UploadFailed? ==> exists i ::
        && 0 <= i < |s.tasks| && s.tasks[i].platform == s.main.failure.value.platform
        && s.tasks[i].phase == Finished(false)
    ensures |s.tasks| == |job.pendingPlatforms|
    ensures forall i | 0 <= i < |s.tasks| ::
        && s.tasks[i].platform == job.pendingPlatforms[i]
        && s.tasks[i].collections == 1
        && s.tasks[i].collection.Some? && s.tasks[i].result.Some?
        && WellFormed(s.tasks[i].result.value, job.pendingPlatforms[i], s.tasks[i].collection.value)
        && s.tasks[i].phase.Finished?
        && UploadTrace(s.tasks[i].log, Body(s.tasks[i].result.value, job), s.tasks[i].phase.delivered)
        && Retried(s.tasks[i].log) && (s.tasks[i].phase.delivered || GivenUp(s.tasks[i]))
    ensures forall i, j | 0 <= i < j < |s.tasks| :: s.tasks[i].platform != s.tasks[j].platform
  {
    FailureTells(job, s);
    WorkersDone(job, s);
  }

  /** What each worker has done when the job returns. */
  lemma WorkersDone(job: Job, s: State)
    requires Reachable(job, s) && s.main.Returned?
    ensures |s.tasks| == |Platforms(job)|
    ensures forall i | 0 <= i < |s.tasks| ::
        && s.tasks[i].platform == Platforms(job)[i]
        && s.tasks[i].collections == 1
        && s.tasks[i].collection.Some? && s.tasks[i].result.Some?
        && WellFormed(s.tasks[i].result.value, Platforms(job)[i], s.tasks[i].collection.value)
        && s.tasks[i].phase.Finished?
        && UploadTrace(s.tasks[i].log, Body(s.tasks[i].result.value, job), s.tasks[i].phase.delivered)
        && Retried(s.tasks[i].log) && (s.tasks[i].phase.delivered || GivenUp(s.tasks[i]))
  {
    ReachableInv(job, s);
  }

  /** The error is the first message on the channel, and tells of a worker that failed or of a lost lease. */
  lemma FailureTells(job: Job, s: State)
    requires Reachable(job, s) && s.main.Returned?
    ensures s.main.failure.None? <==>
        !ThreeFailures(s.beats) && forall i | 0 <= i < |s.tasks| :: s.tasks[i].phase == Finished(true)
    ensures s.main.failure == if s.queue == [] then None else Some(s.queue[0])
    ensures s.main.failure == Some(LeaseLost) ==> ThreeFailures(s.beats)
    ensures s.main.failure.Some? && s.main.failure.value.UploadFailed? ==> exists i ::
        && 0 <= i < |s.tasks| && s.tasks[i].platform == s.main.failure.value.platform
        && s.tasks[i].phase == Finished(false)
  {
    ReachableInv(job, s);
    QueueEmpty(s);
    if s.queue != [] {
      assert Backed(s, s.queue[0]);
    }
  }

  /**
   A worker that was neither cancelled nor stopped by its encoding delivers exactly when the retry loop of one
   upload with these answers does.
  */
  lemma DeliversLikeUpload(job: Job, s: State, i: nat, replies: nat -> Reply, contextDone: nat -> bool)
    requires Reachable(job, s) && i < |s.tasks| && s.tasks[i].phase.Finished?
    requires s.tasks[i].log != [] && !s.tasks[i].interrupted && forall k: nat :: !contextDone(k)
    requires forall k | 0 <= k < |s.tasks[i].log| :: s.tasks[i].log[k].reply == replies(k)
    ensures s.tasks[i].phase == Finished(true) <==> exists k :: DeliveredAt(replies, contextDone, k)
  {
    ReachableInv(job, s);
    WorkerDelivers(s.tasks[i], job, replies, contextDone);
  }

  lemma WorkerDelivers(task: Task, job: Job, replies: nat -> Reply, contextDone: nat -> bool)
    requires TaskInv(task, job) && task.phase.Finished? && task.log != [] && !task.interrupted
    requires forall k: nat :: !contextDone(k)
    requires forall k | 0 <= k < |task.log| :: task.log[k].reply == replies(k)
    ensures task.phase == Finished(true) <==> exists k :: DeliveredAt(replies, contextDone, k)
  {
    var log := task.log;
    if task.phase == Finished(true) {
      assert DeliveredAt(replies, contextDone, |log| - 1);
    }
    if k: nat :| DeliveredAt(replies, contextDone, k) {
      assert k >= |log| ==> Retryable(replies(|log| - 1));
      assert forall j | 0 <= j < |log| - 1 :: Retryable(replies(j));
    }
  }

  // ---------------------------------------------------------------- failing by its own cancel

  predicate AllDelivered(s: State) {
    forall i | 0 <= i < |s.tasks| :: s.tasks[i].phase == Finished(true)
  }

  /**
   A job that delivered every upload returns an error exactly when its last three heartbeats failed; and that
   is the work of its own cancel, with no lease lost before, exactly when the last of them was answered after it.
  */
  lemma DeliveredYetFailedCondition(job: Job, s: State)
    requires AcceptedReview(job) && Reachable(job, s) && s.main.Returned? && AllDelivered(s)
    ensures s.main.failure.Some? <==> TrailingFailures(s.beats) == 3
    ensures s.ownCancel.Some? && s.ownCancel.value <= |s.beats|
    ensures s.main.failure.Some? && !ThreeFailures(s.beats[..s.ownCancel.value]) <==>
        TrailingFailures(s.beats) == 3 && |s.beats| > s.ownCancel.value
  {
    JobOutcome(job, s);
    ReachableInv(job, s);
    if TrailingFailures(s.beats) == 3 {
      TrailingThree(s.beats);
    }
    assert s.beats[..|s.beats|] == s.beats;
  }

  lemma TrailingThree(beats: seq<bool>)
    requires TrailingFailures(beats) >= 3
    ensures ThreeFailures(beats)
  {
    var n := |beats|;
    TrailingTwo(beats[..n - 1]);
    assert ThirdFailure(beats, n - 1);
  }

  lemma ReachStart(job: Job)
    ensures Reachable(job, Init(job))
  {
    var steps: seq<Step>, states := [], [Init(job)];
    assert Run(Init(job), steps, states) && states[|steps|] == Init(job);
  }

  lemma ReachStep(job: Job, s: State, step: Step)
    requires Reachable(job, s) && Enabled(s, step)
    ensures Reachable(job, Apply(s, step))
  {
    var steps, states :| Run(Init(job), steps, states) && states[|steps|] == s;
    var t := Apply(s, step);
    forall k | 0 <= k < |steps + [step]|
      ensures Taken(steps + [step], states + [t], k)
    {
      assert k < |steps| ==> Taken(steps, states, k);
    }
    assert (states + [t])[|steps + [step]|] == t;
  }

  /** The workers from i on collect, and their uploads are answered with 200. */
  lemma {:induction false} Deliver(job: Job, s: State, i: nat) returns (t: State)
    requires Reachable(job, s) && i <= |s.tasks| && s.main == Joining
    requires forall j | 0 <= j < |s.tasks| :: s.tasks[j].phase == if j < i then Finished(true) else Collecting
    ensures Reachable(job, t) && AllDelivered(t) && t == s.(tasks := t.tasks)
    decreases |s.tasks| - i
  {
    t := s;
    if i < |s.tasks| {
      var collected := Apply(s, Worker(i, Collect(NotConfigured)));
      ReachStep(job, s, Worker(i, Collect(NotConfigured)));
      var uploaded := Apply(collected, Worker(i, Answer(Status(200))));
      ReachStep(job, collected, Worker(i, Answer(Status(200))));
      t := Deliver(job, uploaded, i + 1);
    }
  }

  /** Two heartbeats fail and a third one is sent. */
  lemma BeatsFail(job: Job) returns (s: State)
    ensures Reachable(job, s) && s == Init(job).(heartbeat := Calling(2), beats := [false, false])
  {
    ReachStart(job);
    s := Init(job);
    for k := 0 to 2
      invariant Reachable(job, s) && s == Init(job).(heartbeat := Ticking(k), beats := seq(k, _ => false))
    {
      ReachStep(job, s, Beat(Tick));
      ReachStep(job, Apply(s, Beat(Tick)), Beat(HeartbeatAnswer(false)));
      s := Apply(Apply(s, Beat(Tick)), Beat(HeartbeatAnswer(false)));
    }
    ReachStep(job, s, Beat(Tick));
    s := Apply(s, Beat(Tick));
  }

  /** Main joins and cancels, which fails the heartbeat in flight as the third in a row. */
  lemma CancelFailsBeat(job: Job, s: State) returns (t: State)
    requires Reachable(job, s) && AllDelivered(s) && s.main == Joining && s.heartbeat == Calling(2)
    ensures Reachable(job, t)
    ensures t == s.(main := AwaitingHeartbeat, cancelled := true, ownCancel := Some(|s.beats|),
                    heartbeat := LeaseReporting, beats := s.beats + [false])
  {
    var joined := Apply(s, Control(Join));
    ReachStep(job, s, Control(Join));
    var cancelled := Apply(joined, Control(CancelJob));
    ReachStep(job, joined, Control(CancelJob));
    t := Apply(cancelled, Beat(HeartbeatAnswer(false)));
    ReachStep(job, cancelled, Beat(HeartbeatAnswer(false)));
  }

  /** The third failure is reported as a lost lease, and main returns it. */
  lemma LeaseReturned(job: Job, s: State) returns (t: State)
    requires Reachable(job, s) && s.main == AwaitingHeartbeat && s.heartbeat == LeaseReporting && |s.queue| < s.capacity
    ensures Reachable(job, t) && t.main == Returned(Some(if s.queue == [] then LeaseLost else s.queue[0]))
    ensures t.tasks == s.tasks && t.beats == s.beats && t.ownCancel == s.ownCancel
  {
    var reported := Apply(s, Beat(ReportLease));
    ReachStep(job, s, Beat(ReportLease));
    var stopped := Apply(reported, Beat(CancelLease));
    ReachStep(job, reported, Beat(CancelLease));
    var done := Apply(stopped, Control(HeartbeatDone));
    ReachStep(job, stopped, Control(HeartbeatDone));
    var closed := Apply(done, Control(CloseChannel));
    ReachStep(job, done, Control(CloseChannel));
    t := Apply(closed, Control(Drain));
    ReachStep(job, closed, Control(Drain));
  }

  /** Any job can deliver every upload and still return an error, its own cancel being the third failure. */
  lemma DeliveredYetFailed(job: Job) returns (s: State)
    ensures Reachable(job, s) && AllDelivered(s) && s.main == Returned(Some(LeaseLost))
    ensures s.beats == [false, false, false] && s.ownCancel == Some(2)
  {
    var beaten := BeatsFail(job);
    var delivered := Deliver(job, beaten, 0);
    var failed := CancelFailsBeat(job, delivered);
    s := LeaseReturned(job, failed);
  }
  // ---------------------------------------------------------------- a retry that helps

  /** The workers from i on collect, their uploads are answered with 503, and the next requests with 200. */
  lemma {:induction false} DeliverSecond(job: Job, s: State, i: nat) returns (t: State)
    requires Reachable(job, s) && i <= |s.tasks| && s.main == Joining
    requires forall j | 0 <= j < |s.tasks| ::
        if j < i then SecondTry(s.tasks[j]) else s.tasks[j].phase == Collecting && s.tasks[j].log == []
    ensures Reachable(job, t) && t == s.(tasks := t.tasks)
    ensures |t.tasks| == |s.tasks| && forall j | 0 <= j < |t.tasks| :: SecondTry(t.tasks[j])
    decreases |s.tasks| - i
  {
    t := s;
    if i < |s.tasks| {
      var uploaded := SecondHelps(job, s, i);
      t := DeliverSecond(job, uploaded, i + 1);
    }
  }

  /** One worker that is refused once. */
  lemma SecondHelps(job: Job, s: State, i: nat) returns (t: State)
    requires Reachable(job, s) && i < |s.tasks| && s.tasks[i].phase == Collecting && s.tasks[i].log == []
    ensures Reachable(job, t) && |t.tasks| == |s.tasks| && SecondTry(t.tasks[i])
    ensures t == s.(tasks := s.tasks[i := t.tasks[i]])
  {
    var refused := FirstRefused(job, s, i);
    var waited := Apply(refused, Worker(i, RetryTimer));
    ReachStep(job, refused, Worker(i, RetryTimer));
    t := Apply(waited, Worker(i, Answer(Status(200))));
    ReachStep(job, waited, Worker(i, Answer(Status(200))));
  }

  lemma FirstRefused(job: Job, s: State, i: nat) returns (t: State)
    requires Reachable(job, s) && i < |s.tasks| && s.tasks[i].phase == Collecting && s.tasks[i].log == []
    ensures Reachable(job, t) && |t.tasks| == |s.tasks| && t == s.(tasks := s.tasks[i := t.tasks[i]])
    ensures t.tasks[i].phase == BackingOff(0) && t.tasks[i].result.Some?
    ensures |t.tasks[i].log| == 1 && t.tasks[i].log[0].reply == Status(503)
  {
    var collected := Apply(s, Worker(i, Collect(NotConfigured)));
    ReachStep(job, s, Worker(i, Collect(NotConfigured)));
    t := Apply(collected, Worker(i, Answer(Status(503))));
    ReachStep(job, collected, Worker(i, Answer(Status(503))));
  }

  /** Delivered by the second request, the first having been answered with 503. */
  predicate SecondTry(task: Task) {
    && task.phase == Finished(true) && |task.log| == 2
    && task.log[0].reply == Status(503) && task.log[1].reply == Status(200)
  }

  lemma ReturnsClean(job: Job, s: State) returns (t: State)
    requires Reachable(job, s) && s.main == Joining && AllFinished(s) && s.heartbeat.Ticking? && s.queue == []
    ensures Reachable(job, t) && t.main == Returned(None) && t.tasks == s.tasks
  {
    var joined := Apply(s, Control(Join));
    ReachStep(job, s, Control(Join));
    var cancelled := Apply(joined, Control(CancelJob));
    ReachStep(job, joined, Control(CancelJob));
    var stopped := Apply(cancelled, Beat(StopHeartbeat));
    ReachStep(job, cancelled, Beat(StopHeartbeat));
    var done := Apply(stopped, Control(HeartbeatDone));
    ReachStep(job, stopped, Control(HeartbeatDone));
    var closed := Apply(done, Control(CloseChannel));
    ReachStep(job, done, Control(CloseChannel));
    t := Apply(closed, Control(Drain));
    ReachStep(job, closed, Control(Drain));
  }

  /** Any job whose uploads are all answered with 503 and then with 200 can return nil. */
  lemma RetryDelivers(job: Job) returns (s: State)
    ensures Reachable(job, s) && s.main == Returned(None)
    ensures |s.tasks| == |Platforms(job)|
    ensures forall i | 0 <= i < |s.tasks| ::
        && s.tasks[i].phase == Finished(true) && |s.tasks[i].log| == 2
        && s.tasks[i].log[0].reply == Status(503) && s.tasks[i].log[1].reply == Status(200)
  {
    ReachStart(job);
    var delivered := DeliverSecond(job, Init(job), 0);
    s := ReturnsClean(job, delivered);
  }
}
