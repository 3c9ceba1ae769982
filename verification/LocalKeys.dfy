/**
 OpenOrCreateLocalKey and createLocalKey of internal/vault/local.go, with any number of callers
 interleaved call by call on one key path. Every system call may fail.
*/
module LocalKeys {
  import opened Wire

  const KEY_SIZE := 32

  /** Where a caller stands; `first` tells the opening before the creation from the one after it. */
  datatype Caller =
    | Looking(first: bool)        // before Lstat
    | Reading(first: bool)        // before ReadFile
    | Creating                    // before the exclusive create
    | Writing(written: nat)
    | Syncing
    | Closing
    | SyncingDirectory
    | Removing                    // the deferred removal after a late failure
    | Got(key: Bytes)
    | Failed

  /**
   `removals` counts the key files taken away by creators that failed after creating them; `settled`
   tells whether the file in place has been synced with its directory, so that power loss spares it.
  */
  datatype State = State(file: Option<Bytes>, callers: seq<Caller>, removals: nat, settled: bool)

  /** The starting file and the random key each caller would create. */
  datatype World = World(initial: Option<Bytes>, keys: seq<Bytes>)

  ghost predicate Sized(world: World) {
    forall i | 0 <= i < |world.keys| :: |world.keys[i]| == KEY_SIZE
  }

  function Start(world: World): State {
    State(world.initial, seq(|world.keys|, _ => Looking(true)), 0, world.initial.Some?)
  }

  datatype Action =
    | Look
    | Refuse                      // not a regular file, loose permissions, or the call failed
    | ReadFile
    | Create
    | CreateFails                 // the directory, the randomness or the create fails otherwise
    | Write(upTo: nat)
    | Sync
    | Close
    | SyncDirectory
    | LateFailure                 // writing, syncing or closing fails
    | Remove
    | RemoveFails

  datatype Step = Step(i: nat, action: Action)

  predicate Created(caller: Caller) {
    caller.Writing? || caller == Syncing || caller == Closing || caller == SyncingDirectory || caller == Removing
  }

  predicate Enabled(world: World, s: State, step: Step) {
    && step.i < |s.callers| == |world.keys|
    && var caller := s.callers[step.i];
       match step.action
       case Look => caller.Looking?
       case Refuse => caller.Looking? || caller.Reading?
       case ReadFile => caller.Reading?
       case Create => caller == Creating
       case CreateFails => caller == Creating
       case Write(upTo) => caller.Writing? && caller.written < upTo <= |world.keys[step.i]|
       case Sync => caller == Syncing
       case Close => caller == Closing
       case SyncDirectory => caller == SyncingDirectory
       case LateFailure => Created(caller) && caller != Removing
       case Remove => caller == Removing
       case RemoveFails => caller == Removing
  }

  function Move(s: State, i: nat, caller: Caller): State
    requires i < |s.callers|
  {
    s.(callers := s.callers[i := caller])
  }

  function Apply(world: World, s: State, step: Step): State
    requires Enabled(world, s, step)
  {
    var i, caller := step.i, s.callers[step.i];
    match step.action
    case Look =>
      if s.file.Some? then Move(s, i, Reading(caller.first))
      else if caller.first then Move(s, i, Creating)
      else Move(s, i, Failed)
    case Refuse => Move(s, i, Failed)
    case ReadFile =>
      if s.file.None? then Move(s, i, if caller.first then Creating else Failed)
      else if |s.file.value| != KEY_SIZE then Move(s, i, Failed)
      else Move(s, i, Got(s.file.value))
    case Create =>
      if s.file.Some? then Move(s, i, Looking(false))
      else Move(s, i, Writing(0)).(file := Some([]), settled := false)
    case CreateFails => Move(s, i, Failed)
    case Write(upTo) =>
      Move(s, i, if upTo == |world.keys[i]| then Syncing else Writing(upTo)).(file := Some(world.keys[i][..upTo]))
    case Sync => Move(s, i, Closing)
    case Close => Move(s, i, SyncingDirectory)
    case SyncDirectory => Move(s, i, Looking(false)).(settled := true)
    case LateFailure => Move(s, i, Removing)
    case Remove => Move(s, i, Failed).(file := None, removals := s.removals + 1, settled := false)
    case RemoveFails => Move(s, i, Failed)
  }

  // ---------------------------------------------------------------- invariant

  ghost predicate PartOfKey(bytes: Bytes, key: Bytes) { bytes <= key }

  /** The key was there from the start, or one caller made all of it. */
  ghost predicate Genuine(world: World, key: Bytes) {
    |key| == KEY_SIZE && (world.initial == Some(key) || key in world.keys)
  }

  /** Between its create and its end a creator is alone, and the file is the part it has written. */
  ghost predicate CreatorInv(world: World, s: State) {
    && |s.callers| == |world.keys|
    && forall i | 0 <= i < |s.callers| && Created(s.callers[i]) ::
      && s.file.Some? && world.initial.None?
      && PartOfKey(s.file.value, world.keys[i])
      && (s.callers[i].Writing? ==> |s.file.value| == s.callers[i].written < KEY_SIZE)
      && (s.callers[i] != Removing && !s.callers[i].Writing? ==> s.file.value == world.keys[i])
      && forall j | 0 <= j < |s.callers| && j != i :: !Created(s.callers[j])
  }

  ghost predicate FileInv(world: World, s: State) {
    && |s.callers| == |world.keys|
    && (world.initial.Some? ==> s.file == world.initial)
    && (s.file.Some? ==>
        s.file == world.initial || exists j :: 0 <= j < |world.keys| && PartOfKey(s.file.value, world.keys[j]))
    && (forall i | 0 <= i < |s.callers| && s.callers[i].Got? :: Genuine(world, s.callers[i].key))
  }

  /** While no key file has been removed, whoever has a key has the one in the file. */
  ghost predicate AgreeInv(s: State) {
    s.removals == 0 ==> forall i | 0 <= i < |s.callers| && s.callers[i].Got? :: s.file == Some(s.callers[i].key)
  }

  ghost predicate Inv(world: World, s: State) {
    Sized(world) && CreatorInv(world, s) && FileInv(world, s) && AgreeInv(s)
  }

  lemma ReadIsGenuine(world: World, s: State)
    requires Sized(world) && FileInv(world, s) && s.file.Some? && |s.file.value| == KEY_SIZE
    ensures Genuine(world, s.file.value)
  {
    if s.file != world.initial {
      var j :| 0 <= j < |world.keys| && PartOfKey(s.file.value, world.keys[j]);
      assert s.file.value == world.keys[j];
    }
  }

  lemma WriterCreator(world: World, s: State, step: Step)
    requires Inv(world, s) && Enabled(world, s, step) && (step.action.Create? || step.action.Write?)
    ensures CreatorInv(world, Apply(world, s, step))
  {
  }

  lemma StepCreator(world: World, s: State, step: Step)
    requires Inv(world, s) && Enabled(world, s, step)
    ensures CreatorInv(world, Apply(world, s, step))
  {
    if step.action.Create? || step.action.Write? {
      WriterCreator(world, s, step);
    }
  }

  lemma StepFile(world: World, s: State, step: Step)
    requires Inv(world, s) && Enabled(world, s, step)
    ensures FileInv(world, Apply(world, s, step))
  {
    var t := Apply(world, s, step);
    if s.file.Some? && |s.file.value| == KEY_SIZE {
      ReadIsGenuine(world, s);
    }
    if step.action.Write? {
      assert PartOfKey(t.file.value, world.keys[step.i]);
    } else if step.action.Create? && s.file.None? {
      assert PartOfKey([], world.keys[step.i]);
    }
  }

  lemma StepAgree(world: World, s: State, step: Step)
    requires Inv(world, s) && Enabled(world, s, step)
    ensures AgreeInv(Apply(world, s, step))
  {
  }

  lemma StepInv(world: World, s: State, step: Step)
    requires Inv(world, s) && Enabled(world, s, step)
    ensures Inv(world, Apply(world, s, step))
  {
    StepCreator(world, s, step);
    StepFile(world, s, step);
    StepAgree(world, s, step);
  }

  // ---------------------------------------------------------------- runs

  ghost predicate Run(world: World, steps: seq<Step>, states: seq<State>) {
    && |states| == |steps| + 1 && states[0] == Start(world)
    && forall k | 0 <= k < |steps| :: Taken(world, steps, states, k)
  }

  ghost predicate Taken(world: World, steps: seq<Step>, states: seq<State>, k: nat)
    requires k < |steps| < |states|
  {
    Enabled(world, states[k], steps[k]) && states[k + 1] == Apply(world, states[k], steps[k])
  }

  lemma {:induction false} RunInv(world: World, steps: seq<Step>, states: seq<State>, k: nat)
    requires Sized(world) && Run(world, steps, states) && k <= |steps|
    ensures Inv(world, states[k])
  {
    if k > 0 {
      RunInv(world, steps, states, k - 1);
      assert Taken(world, steps, states, k - 1);
      StepInv(world, states[k - 1], steps[k - 1]);
    }
  }

  /** An existing key file is never overwritten or removed, whoever runs and whatever fails. */
  lemma ExistingKeyKept(world: World, steps: seq<Step>, states: seq<State>, k: nat)
    requires Sized(world) && Run(world, steps, states) && k <= |steps| && world.initial.Some?
    ensures states[k].file == world.initial
    ensures forall i | 0 <= i < |states[k].callers| && states[k].callers[i].Got? ::
        states[k].callers[i].key == world.initial.value
  {
    RunInv(world, steps, states, k);
    NeverRemoved(world, steps, states, k);
  }

  lemma {:induction false} NeverRemoved(world: World, steps: seq<Step>, states: seq<State>, k: nat)
    requires Sized(world) && Run(world, steps, states) && k <= |steps| && world.initial.Some?
    ensures states[k].removals == 0
  {
    if k > 0 {
      RunInv(world, steps, states, k - 1);
      NeverRemoved(world, steps, states, k - 1);
      assert Taken(world, steps, states, k - 1);
    }
  }

  /** No caller ever gets half a key: what it gets is the starting key or all of one caller's key. */
  lemma NeverHalfAKey(world: World, steps: seq<Step>, states: seq<State>, k: nat, i: nat)
    requires Sized(world) && Run(world, steps, states) && k <= |steps|
    requires i < |states[k].callers| && states[k].callers[i].Got?
    ensures Genuine(world, states[k].callers[i].key)
  {
    RunInv(world, steps, states, k);
  }

  /** Unless a creator took its file away, all callers with a key have the same one: the file. */
  lemma KeysAgree(world: World, steps: seq<Step>, states: seq<State>, k: nat, i: nat, j: nat)
    requires Sized(world) && Run(world, steps, states) && k <= |steps| && states[k].removals == 0
    requires i < |states[k].callers| && states[k].callers[i].Got?
    requires j < |states[k].callers| && states[k].callers[j].Got?
    ensures states[k].callers[i].key == states[k].callers[j].key && states[k].file == Some(states[k].callers[i].key)
  {
    RunInv(world, steps, states, k);
  }

  /** A creator never fails late in these steps. */
  predicate NoLateFailure(steps: seq<Step>) {
    forall k | 0 <= k < |steps| :: steps[k].action != LateFailure
  }

  lemma {:induction false} NoLateFailureNoRemoval(world: World, steps: seq<Step>, states: seq<State>, k: nat)
    requires Run(world, steps, states) && k <= |steps| && NoLateFailure(steps)
    ensures states[k].removals == 0 && forall i | 0 <= i < |states[k].callers| :: states[k].callers[i] != Removing
  {
    if k > 0 {
      NoLateFailureNoRemoval(world, steps, states, k - 1);
      assert Taken(world, steps, states, k - 1);
    }
  }

  /** The agreement in terms of the calls alone: no creator fails after its exclusive create. */
  lemma CreatorsSucceedKeysAgree(world: World, steps: seq<Step>, states: seq<State>, i: nat, j: nat)
    requires Sized(world) && Run(world, steps, states) && NoLateFailure(steps)
    requires i < |states[|steps|].callers| && states[|steps|].callers[i].Got?
    requires j < |states[|steps|].callers| && states[|steps|].callers[j].Got?
    ensures states[|steps|].callers[i].key == states[|steps|].callers[j].key
    ensures states[|steps|].file == Some(states[|steps|].callers[i].key)
  {
    RunInv(world, steps, states, |steps|);
    NoLateFailureNoRemoval(world, steps, states, |steps|);
    KeysAgree(world, steps, states, |steps|, i, j);
  }

  // ---------------------------------------------------------------- one creation, and who fails

  /** The caller has made its attempt at creating the key, or will not make one. */
  predicate Past(caller: Caller) { caller !in {Looking(true), Reading(true), Creating} }

  lemma {:induction false} StaysPast(world: World, steps: seq<Step>, states: seq<State>, i: nat, j: nat, k: nat)
    requires Sized(world) && Run(world, steps, states) && i < |world.keys| && j <= k <= |steps|
    requires |states[j].callers| == |world.keys| && Past(states[j].callers[i])
    ensures |states[k].callers| == |world.keys| && Past(states[k].callers[i])
  {
    if j < k {
      StaysPast(world, steps, states, i, j, k - 1);
      assert Taken(world, steps, states, k - 1);
    }
  }

  /** A caller tries to create the key once: when it finds no key after that, it fails. */
  lemma CreatesOnce(world: World, steps: seq<Step>, states: seq<State>, j: nat, k: nat)
    requires Sized(world) && Run(world, steps, states) && j < k < |steps| && steps[j].i == steps[k].i
    requires steps[j].action == Create || steps[j].action == CreateFails
    ensures steps[k].action != Create && steps[k].action != CreateFails
  {
    assert Taken(world, steps, states, j) && Taken(world, steps, states, k);
    StaysPast(world, steps, states, steps[j].i, j + 1, k);
  }

  /**
   As long as no call fails, a caller fails only by reading a file that has not 32 bytes: finding a file
   that another caller has created in the meantime is no failure.
  */
  lemma {:induction false} FailsOnlyOnSize(world: World, steps: seq<Step>, states: seq<State>, i: nat, k: nat)
    requires Sized(world) && Run(world, steps, states) && i < |world.keys| && k <= |steps|
    requires forall m | 0 <= m < k :: steps[m].action !in {Refuse, CreateFails, LateFailure, RemoveFails}
    requires forall m | 0 <= m < k && steps[m] == Step(i, ReadFile) && states[m].file.Some? ::
        |states[m].file.value| == 32
    ensures |states[k].callers| == |world.keys| && states[k].callers[i] != Failed
    ensures forall j | 0 <= j < |world.keys| :: states[k].callers[j] != Removing
    ensures states[k].callers[i].Reading? || states[k].callers[i] == Looking(false) ==> states[k].file.Some?
  {
    if k > 0 {
      RunInv(world, steps, states, k - 1);
      FailsOnlyOnSize(world, steps, states, i, k - 1);
      assert Taken(world, steps, states, k - 1);
    }
  }

  // ---------------------------------------------------------------- when keys can differ

  ghost predicate Reachable(world: World, s: State) {
    exists steps, states :: Run(world, steps, states) && states[|steps|] == s
  }

  lemma ReachStep(world: World, s: State, step: Step)
    requires Reachable(world, s) && Enabled(world, s, step)
    ensures Reachable(world, Apply(world, s, step))
  {
    var steps, states :| Run(world, steps, states) && states[|steps|] == s;
    var t := Apply(world, s, step);
    forall k | 0 <= k < |steps + [step]|
      ensures Taken(world, steps + [step], states + [t], k)
    {
      assert k < |steps| ==> Taken(world, steps, states, k);
    }
    assert (states + [t])[|steps + [step]|] == t;
  }

  lemma ReachStart(world: World)
    ensures Reachable(world, Start(world))
  {
    var steps: seq<Step>, states := [], [Start(world)];
    assert Run(world, steps, states) && states[|steps|] == Start(world);
  }

  ghost predicate Disagree(s: State) {
    exists i, j | 0 <= i < |s.callers| && 0 <= j < |s.callers| ::
      s.callers[i].Got? && s.callers[j].Got? && s.callers[i].key != s.callers[j].key
  }

  /** A caller with nothing in its way creates its file and writes all of it. */
  lemma WriteWhole(world: World, s: State, i: nat) returns (t: State)
    requires Sized(world) && Reachable(world, s) && |s.callers| == |world.keys|
    requires i < |s.callers| && s.callers[i] == Looking(true) && s.file.None?
    ensures Reachable(world, t)
    ensures t == s.(file := Some(world.keys[i]), callers := s.callers[i := Syncing], settled := false)
  {
    var s1 := Apply(world, s, Step(i, Look));
    ReachStep(world, s, Step(i, Look));
    var s2 := Apply(world, s1, Step(i, Create));
    ReachStep(world, s1, Step(i, Create));
    t := Apply(world, s2, Step(i, Write(KEY_SIZE)));
    ReachStep(world, s2, Step(i, Write(KEY_SIZE)));
    assert world.keys[i][..KEY_SIZE] == world.keys[i];
    assert t.callers == s.callers[i := Syncing];
  }

  lemma OpenWhole(world: World, s: State, i: nat) returns (t: State)
    requires Reachable(world, s) && |s.callers| == |world.keys|
    requires i < |s.callers| && s.callers[i].Looking? && s.file.Some? && |s.file.value| == KEY_SIZE
    ensures Reachable(world, t)
    ensures t == s.(callers := s.callers[i := Got(s.file.value)])
  {
    var s1 := Apply(world, s, Step(i, Look));
    ReachStep(world, s, Step(i, Look));
    t := Apply(world, s1, Step(i, ReadFile));
    ReachStep(world, s1, Step(i, ReadFile));
    assert t.callers == s.callers[i := Got(s.file.value)];
  }

  /** a creates a key, c reads it, a fails late and takes it away, and b creates another one. */
  lemma LateFailureSplits(world: World, a: nat, b: nat, c: nat) returns (t: State)
    requires Sized(world) && world.initial.None?
    requires a < |world.keys| && b < |world.keys| && c < |world.keys| && a != b && b != c && a != c
    requires world.keys[a] != world.keys[b]
    ensures Reachable(world, t) && Disagree(t)
  {
    var s := ReadThenRemoved(world, a, c);
    var s1 := WriteWhole(world, s, b);
    t := FinishCreate(world, s1, b);
    assert t.callers[c] == Got(world.keys[a]) && t.callers[b] == Got(world.keys[b]);
  }

  lemma ReadThenRemoved(world: World, a: nat, c: nat) returns (t: State)
    requires Sized(world) && world.initial.None? && a < |world.keys| && c < |world.keys| && a != c
    ensures Reachable(world, t) && t.file.None? && |t.callers| == |world.keys| && t.callers[c] == Got(world.keys[a])
    ensures forall i | 0 <= i < |world.keys| && i != a && i != c :: t.callers[i] == Looking(true)
  {
    ReachStart(world);
    var s1 := WriteWhole(world, Start(world), a);
    var s2 := OpenWhole(world, s1, c);
    t := TakenAway(world, s2, a);
  }

  lemma TakenAway(world: World, s: State, a: nat) returns (t: State)
    requires Reachable(world, s) && |s.callers| == |world.keys| && a < |s.callers| && s.callers[a] == Syncing
    ensures Reachable(world, t)
    ensures t == s.(file := None, callers := s.callers[a := Failed], removals := s.removals + 1, settled := false)
  {
    var s1 := Apply(world, s, Step(a, LateFailure));
    ReachStep(world, s, Step(a, LateFailure));
    t := Apply(world, s1, Step(a, Remove));
    ReachStep(world, s1, Step(a, Remove));
    assert t.callers == s.callers[a := Failed];
  }

  lemma FinishCreate(world: World, s: State, i: nat) returns (t: State)
    requires Reachable(world, s) && |s.callers| == |world.keys|
    requires i < |s.callers| && s.callers[i] == Syncing && s.file.Some? && |s.file.value| == KEY_SIZE
    ensures Reachable(world, t)
    ensures t == s.(callers := s.callers[i := Got(s.file.value)], settled := true)
  {
    var s1 := Apply(world, s, Step(i, Sync));
    ReachStep(world, s, Step(i, Sync));
    var s2 := Apply(world, s1, Step(i, Close));
    ReachStep(world, s1, Step(i, Close));
    var s3 := Apply(world, s2, Step(i, SyncDirectory));
    ReachStep(world, s2, Step(i, SyncDirectory));
    t := OpenWhole(world, s3, i);
    assert t.callers == s.callers[i := Got(s.file.value)];
  }

  lemma {:induction false} RemovalsFail(world: World, steps: seq<Step>, states: seq<State>, k: nat)
    requires Run(world, steps, states) && k <= |steps|
    ensures states[k].removals > 0 ==> exists i | 0 <= i < |states[k].callers| :: states[k].callers[i] == Failed
  {
    if k > 0 {
      RemovalsFail(world, steps, states, k - 1);
      assert Taken(world, steps, states, k - 1);
      var s, step := states[k - 1], steps[k - 1];
      if step.action == Remove {
        assert states[k].callers[step.i] == Failed;
      } else if i :| 0 <= i < |s.callers| && s.callers[i] == Failed {
        assert states[k].callers[i] == Failed;
      }
    }
  }

  /**
   Two callers can end up with different keys exactly when there is no key file to begin with, at
   least three callers run, and their random keys are not all equal.
  */
  lemma DisagreementCondition(world: World)
    requires Sized(world)
    ensures (exists s :: Reachable(world, s) && Disagree(s)) <==>
        && world.initial.None? && |world.keys| >= 3
        && exists a, b | 0 <= a < |world.keys| && 0 <= b < |world.keys| :: world.keys[a] != world.keys[b]
  {
    if s :| Reachable(world, s) && Disagree(s) {
      DisagreementNeeds(world, s);
    }
    if world.initial.None? && |world.keys| >= 3 {
      if a, b :| 0 <= a < |world.keys| && 0 <= b < |world.keys| && world.keys[a] != world.keys[b] {
        var c := if a != 0 && b != 0 then 0 else if a != 1 && b != 1 then 1 else 2;
        var s := LateFailureSplits(world, a, b, c);
      }
    }
  }

  lemma DisagreementNeeds(world: World, s: State)
    requires Sized(world) && Reachable(world, s) && Disagree(s)
    ensures world.initial.None? && |world.keys| >= 3
    ensures exists a, b | 0 <= a < |world.keys| && 0 <= b < |world.keys| :: world.keys[a] != world.keys[b]
  {
    var steps, states :| Run(world, steps, states) && states[|steps|] == s;
    RunInv(world, steps, states, |steps|);
    RemovalsFail(world, steps, states, |steps|);
    var i, j :| 0 <= i < |s.callers| && 0 <= j < |s.callers|
      && s.callers[i].Got? && s.callers[j].Got? && s.callers[i].key != s.callers[j].key;
    if world.initial.Some? {
      ExistingKeyKept(world, steps, states, |steps|);
    }
    var k :| 0 <= k < |s.callers| && s.callers[k] == Failed;
    assert k != i && k != j && i != j;
    assert Genuine(world, s.callers[i].key) && Genuine(world, s.callers[j].key);
    var a :| 0 <= a < |world.keys| && world.keys[a] == s.callers[i].key;
    var b :| 0 <= b < |world.keys| && world.keys[b] == s.callers[j].key;
  }

  // ---------------------------------------------------------------- power loss

  /** A creator at work, or a failed caller, which may have left its file behind. */
  predicate Unfinished(caller: Caller) { Created(caller) || caller == Failed }

  lemma {:induction false} UnsettledFile(world: World, steps: seq<Step>, states: seq<State>, k: nat)
    requires Sized(world) && Run(world, steps, states) && k <= |steps|
    ensures world.initial.Some? ==> states[k].settled
    ensures states[k].file.Some? && !states[k].settled ==>
        exists j :: 0 <= j < |states[k].callers| && Unfinished(states[k].callers[j])
  {
    if k > 0 {
      UnsettledFile(world, steps, states, k - 1);
      RunInv(world, steps, states, k - 1);
      assert Taken(world, steps, states, k - 1);
      UnsettledStep(world, states[k - 1], steps[k - 1]);
    }
  }

  lemma UnsettledStep(world: World, s: State, step: Step)
    requires Inv(world, s) && Enabled(world, s, step) && (world.initial.Some? ==> s.settled)
    requires s.file.Some? && !s.settled ==> exists j :: 0 <= j < |s.callers| && Unfinished(s.callers[j])
    ensures var t := Apply(world, s, step);
      && (world.initial.Some? ==> t.settled)
      && (t.file.Some? && !t.settled ==> exists j :: 0 <= j < |t.callers| && Unfinished(t.callers[j]))
  {
    var t := Apply(world, s, step);
    if t.file.Some? && !t.settled {
      if step.action.Create? && s.file.None? {
        assert Unfinished(t.callers[step.i]);
      } else {
        var j :| 0 <= j < |s.callers| && Unfinished(s.callers[j]);
        assert Unfinished(t.callers[j]);
      }
    }
  }

  ghost predicate UnsettledKey(s: State) {
    !s.settled && exists i :: 0 <= i < |s.callers| && s.callers[i].Got?
  }

  /**
   When no creator is at work and no caller has failed, a key that somebody has is in a file that power
   loss spares: a vault saved under it then does not outlive its key.
  */
  lemma QuietKeyIsSettled(world: World, steps: seq<Step>, states: seq<State>, k: nat, i: nat)
    requires Sized(world) && Run(world, steps, states) && k <= |steps|
    requires forall j | 0 <= j < |states[k].callers| :: !Unfinished(states[k].callers[j])
    requires i < |states[k].callers| && states[k].callers[i].Got?
    ensures states[k].settled && states[k].file == Some(states[k].callers[i].key)
  {
    RunInv(world, steps, states, k);
    UnsettledFile(world, steps, states, k);
    RemovalsFail(world, steps, states, k);
  }

  /**
   A caller can have a key that a power loss takes away exactly when there is no key file to begin with
   and at least two callers run: one reads what the other has written but not synced.
  */
  lemma UnsettledCondition(world: World)
    requires Sized(world)
    ensures (exists s :: Reachable(world, s) && UnsettledKey(s)) <==> world.initial.None? && |world.keys| >= 2
  {
    if s :| Reachable(world, s) && UnsettledKey(s) {
      UnsettledNeeds(world, s);
    }
    if world.initial.None? && |world.keys| >= 2 {
      ReachStart(world);
      var s := WriteWhole(world, Start(world), 0);
      var t := OpenWhole(world, s, 1);
      assert t.callers[1].Got? && UnsettledKey(t);
    }
  }

  lemma UnsettledNeeds(world: World, s: State)
    requires Sized(world) && Reachable(world, s) && UnsettledKey(s)
    ensures world.initial.None? && |world.keys| >= 2
  {
    var steps, states :| Run(world, steps, states) && states[|steps|] == s;
    RunInv(world, steps, states, |steps|);
    UnsettledFile(world, steps, states, |steps|);
    RemovalsFail(world, steps, states, |steps|);
    var i :| 0 <= i < |s.callers| && s.callers[i].Got?;
    assert Unfinished(s.callers[i]) == false;
    var j := UnfinishedCaller(s);
    assert i != j;
  }

  lemma UnfinishedCaller(s: State) returns (j: nat)
    requires exists j :: 0 <= j < |s.callers| && Unfinished(s.callers[j])
    ensures j < |s.callers| && Unfinished(s.callers[j])
  {
    j :| j < |s.callers| && Unfinished(s.callers[j]);
  }
}

/** createLocalKey of internal/vault/local.go on a disk that can lose power. */
module KeyFiles {
  import opened Wire
  import opened Disks
  import opened AtomicWrites

  /** Which calls fail; `open` is a failure of the exclusive create other than an existing file. */
  datatype KeyFaults = KeyFaults(
    mkdir: bool, chmodDirectory: bool, random: bool, open: bool, write: bool, sync: bool, close: bool,
    openDirectory: bool, syncDirectory: bool, remove: bool)

  datatype KeyOutcome = NewKey | KeyExists | KeyFailed

  predicate EarlyFault(f: KeyFaults) { f.mkdir || f.chmodDirectory || f.random }

  predicate LateFault(f: KeyFaults) { f.write || f.sync || f.close || f.openDirectory || f.syncDirectory }

  /** A key file that is being made: it is new since `base`, and no directory state of `base` is forgotten. */
  ghost predicate Pending<C>(base: Disk<C>, d: Disk<C>, path: string, inode: nat) {
    && WellFormed(d) && OthersKept(base, d, {path}) && base.history <= d.history
    && inode !in base.files && inode in d.files && path in d.entries && d.entries[path] == inode
  }

  /** Until the directory is synced, power loss can take the file away. */
  lemma MayVanish<C(!new)>(base: Disk<C>, d: Disk<C>, path: string)
    requires WellFormed(base) && path !in base.entries && base.history <= d.history
    ensures Survives(d, path, Missing)
  {
    assert Leads(d, d.history[|base.history| - 1], path, Missing);
  }

  /** Since `from` nothing but this path has changed. */
  ghost predicate OnlyHere<C>(trace: seq<Disk<C>>, from: nat, base: Disk<C>, path: string) {
    forall i | from <= i < |trace| :: OthersKept(base, trace[i], {path})
  }

  /** In the states from `from` up to `to` the file can vanish. */
  ghost predicate Fragile<C(!new)>(trace: seq<Disk<C>>, from: nat, to: int, path: string) {
    forall i | from <= i < to && i < |trace| :: Survives(trace[i], path, Missing)
  }

  method StoreKey<C(!new)>(
      fs: FileSystem<C>, inode: nat, file: File<C>, path: string, ghost base: Disk<C>, ghost from: nat)
    requires WellFormed(base) && path !in base.entries && Pending(base, fs.disk, path, inode)
    requires OnlyHere(fs.trace, from, base, path) && Fragile(fs.trace, from, |fs.trace|, path)
    modifies fs
    ensures Pending(base, fs.disk, path, inode) && fs.disk.files[inode] == file && old(fs.trace) <= fs.trace
    ensures OnlyHere(fs.trace, from, base, path) && Fragile(fs.trace, from, |fs.trace|, path)
  {
    OthersKeptFiles(base, fs.disk, Stored(fs.disk, inode, file), {path});
    fs.Become(Stored(fs.disk, inode, file));
    MayVanish(base, fs.disk, path);
  }

  /** Writing and syncing the new file, up to its close. */
  method WriteKey<C(!new)>(fs: FileSystem<C>, path: string, key: C, inode: nat, f: KeyFaults, ghost base: Disk<C>)
    returns (ok: bool)
    requires WellFormed(base) && path !in base.entries && Pending(base, fs.disk, path, inode)
    modifies fs
    ensures Pending(base, fs.disk, path, inode) && old(fs.trace) <= fs.trace
    ensures OnlyHere(fs.trace, |old(fs.trace)|, base, path) && Fragile(fs.trace, |old(fs.trace)|, |fs.trace|, path)
    ensures ok <==> !f.write && !f.sync && !f.close
    ensures ok ==> fs.disk.files[inode] == File(Some(key), true)
  {
    ghost var from := |fs.trace|;
    StoreKey(fs, inode, File(None, false), path, base, from);
    if f.write {
      return false;
    }
    StoreKey(fs, inode, File(Some(key), false), path, base, from);
    if f.sync {
      return false;
    }
    StoreKey(fs, inode, File(Some(key), true), path, base, from);
    ok := !f.close;
  }

  /**
   createLocalKey. Only the key path is touched. A nil return means that the key is there whatever a power
   loss does, which holds at no earlier state of the call; a failed call leaves no file unless its removal
   fails too, and an existing file is left alone.
  */
  method CreateLocalKey<C(!new)>(fs: FileSystem<C>, path: string, key: C, f: KeyFaults) returns (r: KeyOutcome)
    requires WellFormed(fs.disk)
    modifies fs
    ensures WellFormed(fs.disk) && old(fs.trace) <= fs.trace
    ensures OthersKept(old(fs.disk), fs.disk, {path}) && OnlyHere(fs.trace, |old(fs.trace)|, old(fs.disk), path)
    ensures r == KeyExists <==> !EarlyFault(f) && path in old(fs.disk.entries)
    ensures r == NewKey <==> !EarlyFault(f) && path !in old(fs.disk.entries) && !f.open && !LateFault(f)
    ensures r == NewKey ==>
        && Read(fs.disk, path) == Whole(key)
        && (forall found :: Survives(fs.disk, path, found) <==> found == Whole(key))
        && Fragile(fs.trace, |old(fs.trace)|, |fs.trace| - 1, path)
    ensures r == KeyExists || EarlyFault(f) ==> fs.disk == old(fs.disk)
    ensures r == KeyFailed && path !in old(fs.disk.entries) && !f.remove ==> path !in fs.disk.entries
  {
    ghost var base := fs.disk;
    OthersKeptStart(base, {path});
    if f.mkdir || f.chmodDirectory || f.random {
      return KeyFailed;
    }
    if path in fs.disk.entries {
      return KeyExists;
    }
    if f.open {
      return KeyFailed;
    }
    var inode := fs.disk.next;
    OthersKeptCreated(base, base, path, {path});
    fs.Become(Created(fs.disk, path));
    MayVanish(base, fs.disk, path);
    var ok := WriteKey(fs, path, key, inode, f, base);
    if !ok || f.openDirectory || f.syncDirectory {
      RemoveKey(fs, path, f, base, inode);
      return KeyFailed;
    }
    SyncedExactly(fs.disk, path, key);
    SyncedWellFormed(fs.disk);
    OthersKeptSynced(base, fs.disk, {path});
    fs.Become(DirectorySynced(fs.disk));
    return NewKey;
  }

  /** The deferred removal. */
  method RemoveKey<C(!new)>(fs: FileSystem<C>, path: string, f: KeyFaults, ghost base: Disk<C>, ghost inode: nat)
    requires WellFormed(base) && Pending(base, fs.disk, path, inode)
    modifies fs
    ensures WellFormed(fs.disk) && OthersKept(base, fs.disk, {path}) && old(fs.trace) <= fs.trace
    ensures OnlyHere(fs.trace, |old(fs.trace)|, base, path)
    ensures !f.remove ==> path !in fs.disk.entries
  {
    if !f.remove {
      OthersKeptEntered(base, fs.disk, {path}, fs.disk.entries - {path});
      assert forall name | name in fs.disk.entries :: name in fs.disk.history[|fs.disk.history| - 1];
      fs.Become(Removed(fs.disk, path));
    }
  }
}

/** The callers of LocalKeys on a disk that can lose power: what `settled` stands for. */
module LocalKeyDisks {
  import opened Wire
  import opened Disks
  import opened LocalKeys

  const PATH := "local.key"

  /** The content of the key file, once all of it has been written. */
  function Content(world: World, file: Bytes): Option<Bytes> {
    if world.initial.Some? || |file| == KEY_SIZE then Some(file) else None
  }

  function KeyFile(d: Disk<Bytes>, file: File<Bytes>): Disk<Bytes>
    requires PATH in d.entries
  {
    Stored(d, d.entries[PATH], file)
  }

  /** What the system call of a step does to the disk. */
  function Effect(world: World, s: State, step: Step, d: Disk<Bytes>): Disk<Bytes>
    requires Enabled(world, s, step)
  {
    match step.action
    case Create => if s.file.None? then Disks.Created(d, PATH) else d
    case Write(upTo) =>
      if PATH in d.entries then KeyFile(d, File(Content(world, world.keys[step.i][..upTo]), false)) else d
    case Sync => if PATH in d.entries then KeyFile(d, File(Some(world.keys[step.i]), true)) else d
    case SyncDirectory => DirectorySynced(d)
    case Remove => Removed(d, PATH)
    case _ => d
  }

  /** Past its sync and before the removal a creator's file is synced. */
  predicate HasSynced(caller: Caller) { caller == Closing || caller == SyncingDirectory }

  ghost predicate Synced(d: Disk<Bytes>) {
    PATH in d.entries && d.entries[PATH] in d.files && d.files[d.entries[PATH]].synced
  }

  /** The directory may come back without the key file. */
  ghost predicate Forgettable(d: Disk<Bytes>) { exists k :: 0 <= k < |d.history| && PATH !in d.history[k] }

  /** The disk holds the file of the state, and is as settled as the state says. */
  ghost predicate Matches(world: World, s: State, d: Disk<Bytes>) {
    && WellFormed(d)
    && (PATH in d.entries <==> s.file.Some?)
    && (s.file.Some? ==> d.files[d.entries[PATH]].content == Content(world, s.file.value))
    && (forall i | 0 <= i < |s.callers| && HasSynced(s.callers[i]) :: Synced(d))
    && (s.settled ==> d.history == [d.entries] && Synced(d) && Content(world, s.file.value).Some?)
    && (!s.settled ==> Forgettable(d))
  }

  /** A disk to start from: with nothing at the path, or with a file that lasts. */
  lemma StartingDisk(world: World) returns (d: Disk<Bytes>)
    ensures Matches(world, Start(world), d)
  {
    match world.initial
    case None =>
      d := Disk(map[], [map[]], map[], 0);
      assert PATH !in d.history[0];
    case Some(file) =>
      d := Disk(map[PATH := 0], [map[PATH := 0]], map[0 := File(Some(file), true)], 1);
  }

  lemma CreateMatches(world: World, s: State, step: Step, d: Disk<Bytes>)
    requires Inv(world, s) && Enabled(world, s, step) && Matches(world, s, d) && step.action == Create && s.file.None?
    ensures Matches(world, Apply(world, s, step), Effect(world, s, step, d))
  {
    var e := Disks.Created(d, PATH);
    assert PATH !in e.history[|d.history| - 1];
  }

  lemma StoreMatches(world: World, s: State, step: Step, d: Disk<Bytes>)
    requires Inv(world, s) && Enabled(world, s, step) && Matches(world, s, d)
    requires step.action.Write? || step.action == Sync
    ensures Matches(world, Apply(world, s, step), Effect(world, s, step, d))
  {
    var e := Effect(world, s, step, d);
    assert e.history == d.history;
  }

  lemma SyncMatches(world: World, s: State, step: Step, d: Disk<Bytes>)
    requires Inv(world, s) && Enabled(world, s, step) && Matches(world, s, d) && step.action == SyncDirectory
    ensures Matches(world, Apply(world, s, step), Effect(world, s, step, d))
  {
    assert HasSynced(s.callers[step.i]);
    SyncedWellFormed(d);
  }

  lemma RemoveMatches(world: World, s: State, step: Step, d: Disk<Bytes>)
    requires Inv(world, s) && Enabled(world, s, step) && Matches(world, s, d) && step.action == Remove
    ensures Matches(world, Apply(world, s, step), Effect(world, s, step, d))
  {
    var e := Removed(d, PATH);
    assert PATH !in e.history[|d.history|];
  }

  lemma StepMatches(world: World, s: State, step: Step, d: Disk<Bytes>)
    requires Inv(world, s) && Enabled(world, s, step) && Matches(world, s, d)
    ensures Matches(world, Apply(world, s, step), Effect(world, s, step, d))
  {
    match step.action
    case Create =>
      if s.file.None? {
        CreateMatches(world, s, step, d);
      }
    case Write(_) => StoreMatches(world, s, step, d);
    case Sync => StoreMatches(world, s, step, d);
    case SyncDirectory => SyncMatches(world, s, step, d);
    case Remove => RemoveMatches(world, s, step, d);
    case _ =>
  }

  /** The disks of a run. */
  ghost predicate DiskRun(world: World, steps: seq<Step>, states: seq<State>, disks: seq<Disk<Bytes>>) {
    && Run(world, steps, states) && |disks| == |states| && Matches(world, Start(world), disks[0])
    && forall k | 0 <= k < |steps| :: DiskTaken(world, steps, states, disks, k)
  }

  ghost predicate DiskTaken(world: World, steps: seq<Step>, states: seq<State>, disks: seq<Disk<Bytes>>, k: nat)
    requires k < |steps| < |states| == |disks|
  {
    Enabled(world, states[k], steps[k]) && disks[k + 1] == Effect(world, states[k], steps[k], disks[k])
  }

  lemma {:induction false} RunMatches(
      world: World, steps: seq<Step>, states: seq<State>, disks: seq<Disk<Bytes>>, k: nat)
    requires Sized(world) && DiskRun(world, steps, states, disks) && k <= |steps|
    ensures Matches(world, states[k], disks[k])
  {
    if k > 0 {
      RunMatches(world, steps, states, disks, k - 1);
      RunInv(world, steps, states, k - 1);
      assert Taken(world, steps, states, k - 1) && DiskTaken(world, steps, states, disks, k - 1);
      StepMatches(world, states[k - 1], steps[k - 1], disks[k - 1]);
    }
  }

  /**
   At every moment of every run the key file reads on the disk as the callers see it, and `settled` is just
   this: whatever a power loss does, the whole file of the state is found.
  */
  lemma SettledIsDurable(world: World, steps: seq<Step>, states: seq<State>, disks: seq<Disk<Bytes>>, k: nat)
    requires Sized(world) && DiskRun(world, steps, states, disks) && k <= |steps|
    ensures Read(disks[k], PATH) ==
        match states[k].file
        case None => Missing
        case Some(file) => match Content(world, file) case Some(key) => Whole(key) case None => Torn
    ensures states[k].settled <==>
        states[k].file.Some? && forall found | Survives(disks[k], PATH, found) :: found == Whole(states[k].file.value)
    ensures states[k].settled || Survives(disks[k], PATH, Missing)
  {
    RunMatches(world, steps, states, disks, k);
    var s, d := states[k], disks[k];
    if !s.settled {
      var j :| 0 <= j < |d.history| && PATH !in d.history[j];
      assert Leads(d, d.history[j], PATH, Missing);
      assert Survives(d, PATH, Missing);
    }
  }
}
