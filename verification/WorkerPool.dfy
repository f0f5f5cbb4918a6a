/** SyncToAllTargets: a pool of workers behind a five-slot semaphore. */
module WorkerPool {
  // One goroutine per eligible target, a wait group, a buffered result channel, a goroutine
  // that closes it, and the collecting loop. Every statement that can be interleaved with
  // other goroutines is one step. The context may be cancelled at any moment, and a sync may
  // succeed or fail.

  import opened Tally

  const SLOTS := 5

  datatype Target = Target(name: string, enabled: bool)

  /** `target` is the position of the target in the list. */
  datatype SyncResult = SyncResult(target: nat, success: bool)

  datatype Worker =
    | Unspawned
    | Skipped
    | Queued                      // wants a semaphore slot
    | Acquired                    // holds a slot, has not looked at the context
    | Syncing
    | Sending(result: SyncResult)
    | Releasing(sent: bool)       // first deferred call: give the slot back
    | Finishing(sent: bool)       // second deferred call: wg.Done
    | Finished(sent: bool)

  datatype Closer = NotStarted | Waiting | Closed

  datatype State = State(
    targets: seq<Target>,
    force: bool,
    spawned: nat,
    workers: seq<Worker>,
    slots: nat,
    group: nat,
    buffer: seq<SyncResult>,
    closer: Closer,
    results: seq<SyncResult>,
    successes: nat,
    failures: nat,
    returned: bool,
    cancelled: bool)

  predicate Eligible(s: State, i: nat)
    requires i < |s.targets|
  {
    s.targets[i].enabled || s.force
  }

  function Init(targets: seq<Target>, force: bool): State {
    State(targets, force, 0, seq(|targets|, _ => Unspawned), 0, 0, [], NotStarted, [], 0, 0, false, false)
  }

  datatype Step =
    | Spawn
    | StartCloser
    | Acquire(i: nat)
    | LookAtContext(i: nat)
    | Sync(i: nat, success: bool)
    | Send(i: nat)
    | Release(i: nat)
    | Done(i: nat)
    | Close
    | Receive
    | Return
    | Cancel

  predicate Enabled(s: State, step: Step)
    requires |s.workers| == |s.targets|
  {
    match step
    case Spawn => s.spawned < |s.targets|
    case StartCloser => s.spawned == |s.targets| && s.closer.NotStarted?
    case Acquire(i) => i < |s.workers| && s.workers[i].Queued? && s.slots < SLOTS
    case LookAtContext(i) => i < |s.workers| && s.workers[i].Acquired?
    case Sync(i, _) => i < |s.workers| && s.workers[i].Syncing?
    case Send(i) => i < |s.workers| && s.workers[i].Sending? && |s.buffer| < |s.targets|
    case Release(i) => i < |s.workers| && s.workers[i].Releasing? && s.slots > 0
    case Done(i) => i < |s.workers| && s.workers[i].Finishing? && s.group > 0
    case Close => s.closer.Waiting? && s.group == 0
    case Receive => !s.closer.NotStarted? && !s.returned && s.buffer != []
    case Return => s.closer.Closed? && !s.returned && s.buffer == []
    case Cancel => !s.cancelled
  }

  function Move(s: State, i: nat, w: Worker): State
    requires i < |s.workers|
  {
    s.(workers := s.workers[i := w])
  }

  function Apply(s: State, step: Step): State
    requires |s.workers| == |s.targets| && Enabled(s, step)
  {
    match step
    case Spawn =>
      if Eligible(s, s.spawned)
      then Move(s, s.spawned, Queued).(spawned := s.spawned + 1, group := s.group + 1)
      else Move(s, s.spawned, Skipped).(spawned := s.spawned + 1)
    case StartCloser => s.(closer := Waiting)
    case Acquire(i) => Move(s, i, Acquired).(slots := s.slots + 1)
    case LookAtContext(i) => Move(s, i, if s.cancelled then Releasing(false) else Syncing)
    case Sync(i, success) => Move(s, i, Sending(SyncResult(i, success)))
    case Send(i) => Move(s, i, Releasing(true)).(buffer := s.buffer + [s.workers[i].result])
    case Release(i) => Move(s, i, Finishing(s.workers[i].sent)).(slots := s.slots - 1)
    case Done(i) => Move(s, i, Finished(s.workers[i].sent)).(group := s.group - 1)
    case Close => s.(closer := Closed)
    case Receive =>
      var r := s.buffer[0];
      var s' := s.(buffer := s.buffer[1..], results := s.results + [r]);
      if r.success then s'.(successes := s.successes + 1) else s'.(failures := s.failures + 1)
    case Return => s.(returned := true)
    case Cancel => s.(cancelled := true)
  }

  ghost predicate Next(s: State, s': State) {
    |s.workers| == |s.targets| && exists step :: Enabled(s, step) && s' == Apply(s, step)
  }

  // ---- The invariant ----

  function HoldsSlot(w: Worker): nat {
    if w.Acquired? || w.Syncing? || w.Sending? || w.Releasing? then 1 else 0
  }

  /** Counted by the wait group */
  function Running(w: Worker): nat {
    if w.Unspawned? || w.Skipped? || w.Finished? then 0 else 1
  }

  function HasSent(w: Worker): nat {
    if (w.Releasing? || w.Finishing? || w.Finished?) && w.sent then 1 else 0
  }

  /** Everything ever sent, in order: received first, then what is still in the channel. */
  function Log(s: State): seq<SyncResult> {
    s.results + s.buffer
  }

  function Succeeded(r: SyncResult): nat {
    if r.success then 1 else 0
  }

  ghost predicate Counted(s: State) {
    && s.slots == Sum(s.workers, HoldsSlot) && s.slots <= SLOTS
    && s.group == Sum(s.workers, Running)
    && |Log(s)| == Sum(s.workers, HasSent)
    && s.successes == Sum(s.results, Succeeded)
    && s.successes + s.failures == |s.results|
  }

  ghost predicate Ordered(s: State) {
    && |s.workers| == |s.targets| && s.spawned <= |s.targets|
    && (forall i :: 0 <= i < |s.workers| ==>
          && (s.workers[i].Unspawned? <==> i >= s.spawned)
          && (i < s.spawned ==> (s.workers[i].Skipped? <==> !Eligible(s, i)))
          && (s.workers[i].Sending? ==> s.workers[i].result.target == i)
          && ((s.workers[i].Releasing? || s.workers[i].Finishing? || s.workers[i].Finished?) && !s.workers[i].sent ==> s.cancelled))
    && (!s.closer.NotStarted? ==> s.spawned == |s.targets|)
    && (s.closer.Closed? ==> s.group == 0)
    && (s.returned ==> s.closer.Closed? && s.buffer == [])
  }

  /** Each result comes from a worker that has sent, and each such worker has one. */
  ghost predicate Logged(log: seq<SyncResult>, workers: seq<Worker>) {
    && (forall k :: 0 <= k < |log| ==> log[k].target < |workers| && HasSent(workers[log[k].target]) == 1)
    && (forall j, k :: 0 <= j < k < |log| ==> log[j].target != log[k].target)
    && (forall i :: 0 <= i < |workers| && HasSent(workers[i]) == 1 ==> Reported(log, i))
  }

  ghost predicate Reported(log: seq<SyncResult>, i: nat) {
    exists k :: 0 <= k < |log| && log[k].target == i
  }

  ghost predicate Inv(s: State) {
    Ordered(s) && Counted(s) && Logged(Log(s), s.workers)
  }

  lemma InitInv(targets: seq<Target>, force: bool)
    ensures Inv(Init(targets, force))
  {
    var s := Init(targets, force);
    SumZero(s.workers, HoldsSlot);
    SumZero(s.workers, Running);
    SumZero(s.workers, HasSent);
  }

  lemma MoveCounts(s: State, i: nat, w: Worker)
    requires i < |s.workers|
    ensures Sum(Move(s, i, w).workers, HoldsSlot) + HoldsSlot(s.workers[i]) == Sum(s.workers, HoldsSlot) + HoldsSlot(w)
    ensures Sum(Move(s, i, w).workers, Running) + Running(s.workers[i]) == Sum(s.workers, Running) + Running(w)
    ensures Sum(Move(s, i, w).workers, HasSent) + HasSent(s.workers[i]) == Sum(s.workers, HasSent) + HasSent(w)
  {
    SumUpdate(s.workers, i, w, HoldsSlot);
    SumUpdate(s.workers, i, w, Running);
    SumUpdate(s.workers, i, w, HasSent);
  }

  /** Which worker a step moves, and to where. */
  function Moved(s: State, step: Step): (nat, Worker)
    requires |s.workers| == |s.targets| && Enabled(s, step)
    requires OfWorker(step)
  {
    match step
    case Spawn => (s.spawned, if Eligible(s, s.spawned) then Queued else Skipped)
    case Acquire(i) => (i, Acquired)
    case LookAtContext(i) => (i, if s.cancelled then Releasing(false) else Syncing)
    case Sync(i, success) => (i, Sending(SyncResult(i, success)))
    case Send(i) => (i, Releasing(true))
    case Release(i) => (i, Finishing(s.workers[i].sent))
    case Done(i) => (i, Finished(s.workers[i].sent))
  }

  predicate OfWorker(step: Step) {
    !(step.StartCloser? || step.Close? || step.Receive? || step.Return? || step.Cancel?)
  }

  /** Once the channel is closed nobody runs any more. */
  lemma ClosedStopsWorkers(s: State, step: Step)
    requires Ordered(s) && Counted(s) && Enabled(s, step) && s.closer.Closed?
    ensures !OfWorker(step)
  {
    if OfWorker(step) && !step.Spawn? {
      TermAtMostSum(s.workers, Moved(s, step).0, Running);
    }
  }

  lemma StepKeepsOrdered(s: State, step: Step)
    requires Inv(s) && Enabled(s, step)
    ensures Ordered(Apply(s, step))
  {
    if s.closer.Closed? {
      ClosedStopsWorkers(s, step);
    } else if OfWorker(step) {
      WorkerStepKeepsOrdered(s, step);
    }
  }

  lemma WorkerStepKeepsOrdered(s: State, step: Step)
    requires Ordered(s) && Enabled(s, step) && OfWorker(step) && !s.closer.Closed?
    ensures Ordered(Apply(s, step))
  {
    var s' := Apply(s, step);
    var (i, w) := Moved(s, step);
    assert s'.workers == s.workers[i := w];
  }

  /** What a worker's step does to the counters, in terms of where the worker was and is. */
  lemma WorkerStepFields(s: State, step: Step, i: nat, w: Worker)
    requires Ordered(s) && Enabled(s, step) && OfWorker(step) && (i, w) == Moved(s, step)
    ensures i < |s.workers|
    ensures var s', was := Apply(s, step), s.workers[i];
            && s'.workers == s.workers[i := w]
            && s'.slots + HoldsSlot(was) == s.slots + HoldsSlot(w) && (s.slots <= SLOTS ==> s'.slots <= SLOTS)
            && s'.group + Running(was) == s.group + Running(w)
            && |s'.buffer| + HasSent(was) == |s.buffer| + HasSent(w)
            && Rank(w) + HasSent(w) < Rank(was) + HasSent(was)
    ensures var s' := Apply(s, step);
            && s'.results == s.results && s'.successes == s.successes && s'.failures == s.failures
            && s'.closer == s.closer && s'.returned == s.returned && s'.cancelled == s.cancelled
  {
  }

  lemma WorkerStepKeepsCounted(s: State, step: Step)
    requires Ordered(s) && Counted(s) && Enabled(s, step) && OfWorker(step)
    ensures Counted(Apply(s, step))
  {
    var (i, w) := Moved(s, step);
    WorkerStepFields(s, step, i, w);
    MoveCounts(s, i, w);
  }

  lemma ReceiveKeepsCounted(s: State)
    requires Ordered(s) && Counted(s) && Enabled(s, Receive)
    ensures Counted(Apply(s, Receive))
  {
    SumAppend(s.results, s.buffer[0], Succeeded);
  }

  lemma OtherStepKeepsCounted(s: State, step: Step)
    requires Ordered(s) && Counted(s) && Enabled(s, step) && !OfWorker(step) && !step.Receive?
    ensures Counted(Apply(s, step))
  {
  }

  lemma StepKeepsCounted(s: State, step: Step)
    requires Inv(s) && Enabled(s, step)
    ensures Counted(Apply(s, step))
  {
    if step.Receive? {
      ReceiveKeepsCounted(s);
    } else if OfWorker(step) {
      WorkerStepKeepsCounted(s, step);
    } else {
      OtherStepKeepsCounted(s, step);
    }
  }

  lemma StepKeepsLogged(s: State, step: Step)
    requires Ordered(s) && Logged(Log(s), s.workers) && Enabled(s, step)
    ensures Logged(Log(Apply(s, step)), Apply(s, step).workers)
  {
    if step.Send? {
      SendKeepsLogged(Log(s), s.workers, step.i);
      assert Log(Apply(s, step)) == Log(s) + [s.workers[step.i].result];
    } else if OfWorker(step) {
      var (i, w) := Moved(s, step);
      SilentStep(s, step, i, w);
      SilentMoveKeepsLogged(Log(s), s.workers, i, w);
    } else {
      QuietStep(s, step);
    }
  }

  /** A step that moves no worker keeps the record: receiving only moves the border inside it. */
  lemma QuietStep(s: State, step: Step)
    requires Ordered(s) && Enabled(s, step) && !OfWorker(step)
    ensures Log(Apply(s, step)) == Log(s) && Apply(s, step).workers == s.workers
  {
    if step.Receive? {
      LogShifts(s.results, s.buffer);
    }
  }

  lemma LogShifts(results: seq<SyncResult>, buffer: seq<SyncResult>)
    requires buffer != []
    ensures results + [buffer[0]] + buffer[1..] == results + buffer
  {
  }

  /** A worker step other than a send leaves the record of sends alone. */
  lemma SilentStep(s: State, step: Step, i: nat, w: Worker)
    requires Ordered(s) && Enabled(s, step) && OfWorker(step) && !step.Send? && (i, w) == Moved(s, step)
    ensures i < |s.workers| && Apply(s, step).workers == s.workers[i := w] && HasSent(w) == HasSent(s.workers[i])
    ensures Log(Apply(s, step)) == Log(s)
  {
  }

  lemma SilentMoveKeepsLogged(log: seq<SyncResult>, workers: seq<Worker>, i: nat, w: Worker)
    requires Logged(log, workers) && i < |workers| && HasSent(w) == HasSent(workers[i])
    ensures Logged(log, workers[i := w])
  {
  }

  lemma SendKeepsLogged(log: seq<SyncResult>, workers: seq<Worker>, i: nat)
    requires Logged(log, workers) && i < |workers| && workers[i].Sending? && workers[i].result.target == i
    ensures Logged(log + [workers[i].result], workers[i := Releasing(true)])
  {
    var log', workers' := log + [workers[i].result], workers[i := Releasing(true)];
    forall j | 0 <= j < |workers'| && HasSent(workers'[j]) == 1 ensures Reported(log', j) {
      if j == i {
        assert log'[|log|].target == j;
      } else {
        assert Reported(log, j);
        var k :| 0 <= k < |log| && log[k].target == j;
        assert log'[k].target == j;
      }
    }
  }

  lemma ApplyKeepsTargets(s: State, step: Step)
    requires Ordered(s) && Enabled(s, step)
    ensures Apply(s, step).targets == s.targets && Apply(s, step).force == s.force
  {
  }

  lemma StepKeepsInv(s: State, s': State)
    requires Inv(s) && Next(s, s')
    ensures Inv(s') && s'.targets == s.targets && s'.force == s.force
  {
    var step :| Enabled(s, step) && s' == Apply(s, step);
    ApplyKeepsTargets(s, step);
    assert Ordered(s') by { StepKeepsOrdered(s, step); }
    assert Counted(s') by { StepKeepsCounted(s, step); }
    assert Logged(Log(s'), s'.workers) by { StepKeepsLogged(s, step); }
  }

  // ---- Safety ----

  /** At most five workers are between acquiring and releasing. */
  lemma AtMostFive(s: State)
    requires Inv(s)
    ensures Sum(s.workers, HoldsSlot) <= 5
  {
  }

  /** A worker with a result can always send it: the channel is open and has room. */
  lemma SendNeverBlocksNorPanics(s: State, i: nat)
    requires Inv(s) && i < |s.workers| && s.workers[i].Sending?
    ensures !s.closer.Closed? && Enabled(s, Send(i)) && |s.buffer| < |s.targets|
  {
    TermAtMostSum(s.workers, i, Running);
    RoomForZero(s.workers, i, HasSent);
    assert |s.buffer| <= |Log(s)|;
  }

  /** The close happens only when every worker is done, and it is never repeated. */
  lemma CloseIsLast(s: State)
    requires Inv(s) && (Enabled(s, Close) || s.closer.Closed?)
    ensures forall i :: 0 <= i < |s.workers| ==> s.workers[i].Skipped? || s.workers[i].Finished?
    ensures !Enabled(s, Close) || !s.closer.Closed?
  {
    forall i | 0 <= i < |s.workers| ensures s.workers[i].Skipped? || s.workers[i].Finished? {
      TermAtMostSum(s.workers, i, Running);
    }
  }

  /** Releasing a slot and signing off from the wait group never block or underflow. */
  lemma DeferredCallsNeverBlock(s: State, i: nat)
    requires Inv(s) && i < |s.workers|
    ensures s.workers[i].Releasing? ==> Enabled(s, Release(i))
    ensures s.workers[i].Finishing? ==> Enabled(s, Done(i))
  {
    TermAtMostSum(s.workers, i, HoldsSlot);
    TermAtMostSum(s.workers, i, Running);
  }

  /** Never do more than five workers sync at once. */
  lemma NoSixAtOnce(run: seq<State>, targets: seq<Target>, force: bool, n: nat, syncing: set<nat>)
    requires IsRun(run, targets, force) && n < |run|
    requires forall i :: i in syncing ==> i < |run[n].workers| && run[n].workers[i] == Syncing
    ensures |syncing| <= 5
  {
    RunInv(run, targets, force, n);
    PlacesAtMostSum(run[n].workers, syncing, Skipped, HoldsSlot);
  }

  // ---- Termination ----

  function Rank(w: Worker): nat {
    match w
    case Unspawned => 9
    case Skipped => 0
    case Queued => 8
    case Acquired => 7
    case Syncing => 6
    case Sending(_) => 5
    case Releasing(_) => 3
    case Finishing(_) => 2
    case Finished(_) => 1
  }

  function Measure(s: State): nat {
    Sum(s.workers, Rank) + |s.buffer|
    + (match s.closer case NotStarted => 2 case Waiting => 1 case Closed => 0)
    + (if s.returned then 0 else 1) + (if s.cancelled then 0 else 1)
  }

  lemma StepDecreases(s: State, s': State)
    requires Inv(s) && Next(s, s')
    ensures Measure(s') < Measure(s)
  {
    var step :| Enabled(s, step) && s' == Apply(s, step);
    if OfWorker(step) {
      var (i, w) := Moved(s, step);
      SumUpdate(s.workers, i, w, Rank);
      WorkerStepFields(s, step, i, w);
    } else {
      OtherStepDecreases(s, step);
    }
  }

  lemma OtherStepDecreases(s: State, step: Step)
    requires Ordered(s) && Enabled(s, step) && !OfWorker(step)
    ensures Measure(Apply(s, step)) < Measure(s)
  {
  }

  /** Before the call returns, some step other than a cancellation is enabled. */
  lemma SomeStepEnabled(s: State) returns (step: Step)
    requires Inv(s) && !s.returned
    ensures Enabled(s, step) && !step.Cancel?
  {
    if s.spawned < |s.targets| {
      step := Spawn;
    } else if s.closer.NotStarted? {
      step := StartCloser;
    } else if s.closer.Closed? {
      step := if s.buffer == [] then Return else Receive;
    } else if s.group == 0 {
      step := Close;
    } else if s.slots == 0 {
      var i := PositiveTerm(s.workers, Running);
      TermAtMostSum(s.workers, i, HoldsSlot);
      step := if s.workers[i].Queued? then Acquire(i) else Done(i);
    } else {
      var i := PositiveTerm(s.workers, HoldsSlot);
      match s.workers[i]
      case Acquired => step := LookAtContext(i);
      case Syncing => step := Sync(i, true);
      case Sending(_) =>
        SendNeverBlocksNorPanics(s, i);
        step := Send(i);
      case Releasing(_) => step := Release(i);
    }
  }

  // ---- Whole runs ----

  ghost predicate IsRun(run: seq<State>, targets: seq<Target>, force: bool) {
    && run != [] && run[0] == Init(targets, force)
    && forall k :: 0 <= k < |run| - 1 ==> Next(run[k], run[k + 1])
  }

  lemma {:induction false} RunInv(run: seq<State>, targets: seq<Target>, force: bool, n: nat)
    requires IsRun(run, targets, force) && n < |run|
    ensures Inv(run[n]) && run[n].targets == targets && run[n].force == force
    decreases n
  {
    if n == 0 {
      InitInv(targets, force);
    } else {
      RunInv(run, targets, force, n - 1);
      StepKeepsInv(run[n - 1], run[n]);
    }
  }

  lemma {:induction false} RunShrinks(run: seq<State>, targets: seq<Target>, force: bool, n: nat)
    requires IsRun(run, targets, force) && n < |run|
    ensures n + Measure(run[n]) <= Measure(run[0])
    decreases n
  {
    if n > 0 {
      RunShrinks(run, targets, force, n - 1);
      RunInv(run, targets, force, n - 1);
      assert Next(run[n - 1], run[n]);
      StepDecreases(run[n - 1], run[n]);
    }
  }

  /** Nothing can happen any more, except a cancellation. */
  ghost predicate Stuck(s: State)
    requires |s.workers| == |s.targets|
  {
    forall step :: Enabled(s, step) ==> step.Cancel?
  }

  /** Every schedule is finite, and one that cannot go on has returned. */
  lemma EveryScheduleReturns(run: seq<State>, targets: seq<Target>, force: bool)
    requires IsRun(run, targets, force)
    ensures |run| <= 9 * |targets| + 5
    ensures var last := run[|run| - 1]; |last.workers| == |last.targets| && (Stuck(last) ==> last.returned)
  {
    var last := run[|run| - 1];
    RunInv(run, targets, force, |run| - 1);
    RunShrinks(run, targets, force, |run| - 1);
    InitialMeasure(targets, force);
    if !last.returned {
      var step := SomeStepEnabled(last);
    }
  }

  lemma InitialMeasure(targets: seq<Target>, force: bool)
    ensures Measure(Init(targets, force)) == 9 * |targets| + 4
  {
    RankOfUnspawned(Init(targets, force).workers);
  }

  lemma {:induction false} RankOfUnspawned(workers: seq<Worker>)
    requires forall i :: 0 <= i < |workers| ==> workers[i].Unspawned?
    ensures Sum(workers, Rank) == 9 * |workers|
    decreases |workers|
  {
    if workers != [] {
      RankOfUnspawned(workers[1..]);
    }
  }

  lemma SuccessesCounted(results: seq<SyncResult>)
    ensures Sum(results, Succeeded) == |set k | 0 <= k < |results| && results[k].success|
  {
    SumCounts(results, Succeeded);
    assert Ones(results, Succeeded) == set k | 0 <= k < |results| && results[k].success;
  }

  /**
   What the call returns: as many successes and failures as results, at most one result per
   eligible target and none for others, and exactly one each if the context was never cancelled.
   */
  lemma Outcome(run: seq<State>, targets: seq<Target>, force: bool)
    requires IsRun(run, targets, force) && run[|run| - 1].returned
    ensures var s := run[|run| - 1];
            && s.successes + s.failures == |s.results|
            && s.successes == |set k | 0 <= k < |s.results| && s.results[k].success|
            && (forall k :: 0 <= k < |s.results| ==> s.results[k].target < |targets| && (targets[s.results[k].target].enabled || force))
            && (forall j, k :: 0 <= j < k < |s.results| ==> s.results[j].target != s.results[k].target)
            && (!s.cancelled ==> forall i :: 0 <= i < |targets| && (targets[i].enabled || force) ==> Reported(s.results, i))
  {
    var s := run[|run| - 1];
    RunInv(run, targets, force, |run| - 1);
    assert Log(s) == s.results;
    CloseIsLast(s);
    SuccessesCounted(s.results);
    forall k | 0 <= k < |s.results| ensures s.results[k].target < |targets| && (targets[s.results[k].target].enabled || force) {
      assert Log(s)[k] == s.results[k];
      assert Eligible(s, s.results[k].target);
    }
    if !s.cancelled {
      forall i | 0 <= i < |targets| && (targets[i].enabled || force)
        ensures Reported(s.results, i)
      {
        assert Eligible(s, i);
        assert HasSent(s.workers[i]) == 1;
        assert Reported(Log(s), i);
      }
    }
  }
}
