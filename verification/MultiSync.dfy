/** SyncToMultiple. */
module MultiSync {
  // One goroutine per destination, with shared counters and a shared slice under a mutex.
  // Each update is a separate read and a separate write, so the counts below hold because of
  // the mutex and not because increments are indivisible.

  import opened Tally

  /** `dest` is the position of the destination in the list. */
  datatype SyncResult = SyncResult(dest: nat, success: bool)

  datatype Worker =
    | Unspawned
    | Syncing
    | Waiting(success: bool)                        // wants the mutex
    | Locked(success: bool)
    | CounterRead(success: bool, seen: nat)
    | CounterWritten(success: bool)
    | SliceRead(success: bool, soFar: seq<SyncResult>)
    | Unlocking                                     // first deferred call
    | Finishing                                     // second deferred call: wg.Done
    | Finished

  datatype Owner = Free | HeldBy(i: nat)

  datatype State = State(
    spawned: nat,
    workers: seq<Worker>,
    mutex: Owner,
    group: nat,
    successes: nat,
    failures: nat,
    results: seq<SyncResult>,
    returned: bool)

  function Init(dests: nat): State {
    State(0, seq(dests, _ => Unspawned), Free, 0, 0, 0, [], false)
  }

  datatype Step =
    | Spawn
    | Sync(i: nat, success: bool)
    | Lock(i: nat)
    | ReadCounter(i: nat)
    | WriteCounter(i: nat)
    | ReadSlice(i: nat)
    | WriteSlice(i: nat)
    | Unlock(i: nat)
    | Done(i: nat)
    | Return

  predicate Enabled(s: State, step: Step) {
    match step
    case Spawn => s.spawned < |s.workers|
    case Sync(i, _) => i < |s.workers| && s.workers[i].Syncing?
    case Lock(i) => i < |s.workers| && s.workers[i].Waiting? && s.mutex.Free?
    case ReadCounter(i) => i < |s.workers| && s.workers[i].Locked?
    case WriteCounter(i) => i < |s.workers| && s.workers[i].CounterRead?
    case ReadSlice(i) => i < |s.workers| && s.workers[i].CounterWritten?
    case WriteSlice(i) => i < |s.workers| && s.workers[i].SliceRead?
    case Unlock(i) => i < |s.workers| && s.workers[i].Unlocking?
    case Done(i) => i < |s.workers| && s.workers[i].Finishing? && s.group > 0
    case Return => s.spawned == |s.workers| && s.group == 0 && !s.returned
  }

  function Move(s: State, i: nat, w: Worker): State
    requires i < |s.workers|
  {
    s.(workers := s.workers[i := w])
  }

  function Apply(s: State, step: Step): State
    requires Enabled(s, step)
  {
    match step
    case Spawn => Move(s, s.spawned, Syncing).(spawned := s.spawned + 1, group := s.group + 1)
    case Sync(i, success) => Move(s, i, Waiting(success))
    case Lock(i) => Move(s, i, Locked(s.workers[i].success)).(mutex := HeldBy(i))
    case ReadCounter(i) =>
      var success := s.workers[i].success;
      Move(s, i, CounterRead(success, if success then s.successes else s.failures))
    case WriteCounter(i) =>
      var w := s.workers[i];
      if w.success then Move(s, i, CounterWritten(true)).(successes := w.seen + 1)
      else Move(s, i, CounterWritten(false)).(failures := w.seen + 1)
    case ReadSlice(i) => Move(s, i, SliceRead(s.workers[i].success, s.results))
    case WriteSlice(i) => Move(s, i, Unlocking).(results := s.workers[i].soFar + [SyncResult(i, s.workers[i].success)])
    case Unlock(i) => Move(s, i, Finishing).(mutex := Free)
    case Done(i) => Move(s, i, Finished).(group := s.group - 1)
    case Return => s.(returned := true)
  }

  ghost predicate Next(s: State, s': State) {
    exists step :: Enabled(s, step) && s' == Apply(s, step)
  }

  // ---- The invariant ----

  predicate Critical(w: Worker) {
    w.Locked? || w.CounterRead? || w.CounterWritten? || w.SliceRead? || w.Unlocking?
  }

  function Running(w: Worker): nat {
    if w.Unspawned? || w.Finished? then 0 else 1
  }

  function Recorded(w: Worker): nat {
    if w.Unlocking? || w.Finishing? || w.Finished? then 1 else 0
  }

  function Succeeded(r: SyncResult): nat {
    if r.success then 1 else 0
  }

  /** A worker that has written its counter but not yet its result. */
  predicate HalfRecorded(w: Worker) {
    w.CounterWritten? || w.SliceRead?
  }

  /** What the mutex holder has counted ahead of the slice. */
  function Ahead(s: State): (nat, nat) {
    if s.mutex.HeldBy? && s.mutex.i < |s.workers| && HalfRecorded(s.workers[s.mutex.i]) then
      if s.workers[s.mutex.i].success then (1, 0) else (0, 1)
    else (0, 0)
  }

  /** Mutual exclusion, and values read under the mutex are still current. */
  ghost predicate Exclusive(s: State) {
    && s.spawned <= |s.workers|
    && (forall i :: 0 <= i < |s.workers| ==>
          && (s.workers[i].Unspawned? <==> i >= s.spawned)
          && (Critical(s.workers[i]) <==> s.mutex == HeldBy(i))
          && (s.workers[i].CounterRead? ==> s.workers[i].seen == if s.workers[i].success then s.successes else s.failures)
          && (s.workers[i].SliceRead? ==> s.workers[i].soFar == s.results))
    && (s.mutex.HeldBy? ==> s.mutex.i < |s.workers|)
  }

  ghost predicate Counted(s: State) {
    && s.group == Sum(s.workers, Running)
    && |s.results| == Sum(s.workers, Recorded)
    && s.successes == Sum(s.results, Succeeded) + Ahead(s).0
    && s.successes + s.failures == |s.results| + Ahead(s).0 + Ahead(s).1
    && (s.returned ==> s.group == 0 && s.spawned == |s.workers|)
  }

  ghost predicate Reported(results: seq<SyncResult>, i: nat) {
    exists k :: 0 <= k < |results| && results[k].dest == i
  }

  ghost predicate Logged(results: seq<SyncResult>, workers: seq<Worker>) {
    && (forall k :: 0 <= k < |results| ==> results[k].dest < |workers| && Recorded(workers[results[k].dest]) == 1)
    && (forall j, k :: 0 <= j < k < |results| ==> results[j].dest != results[k].dest)
    && (forall i :: 0 <= i < |workers| && Recorded(workers[i]) == 1 ==> Reported(results, i))
  }

  ghost predicate Inv(s: State) {
    Exclusive(s) && Counted(s) && Logged(s.results, s.workers)
  }

  lemma InitInv(dests: nat)
    ensures Inv(Init(dests))
  {
    var s := Init(dests);
    SumZero(s.workers, Running);
    SumZero(s.workers, Recorded);
  }

  function Moved(s: State, step: Step): (nat, Worker)
    requires Enabled(s, step) && !step.Return?
  {
    match step
    case Spawn => (s.spawned, Syncing)
    case Sync(i, success) => (i, Waiting(success))
    case Lock(i) => (i, Locked(s.workers[i].success))
    case ReadCounter(i) => (i, CounterRead(s.workers[i].success, if s.workers[i].success then s.successes else s.failures))
    case WriteCounter(i) => (i, CounterWritten(s.workers[i].success))
    case ReadSlice(i) => (i, SliceRead(s.workers[i].success, s.results))
    case WriteSlice(i) => (i, Unlocking)
    case Unlock(i) => (i, Finishing)
    case Done(i) => (i, Finished)
  }

  lemma ApplyMoves(s: State, step: Step)
    requires Exclusive(s) && Enabled(s, step) && !step.Return?
    ensures var (i, w) := Moved(s, step); i < |s.workers| && Apply(s, step).workers == s.workers[i := w]
    ensures step.WriteSlice? ==> Apply(s, step).results == s.results + [SyncResult(step.i, s.workers[step.i].success)]
    ensures !step.WriteSlice? ==> Apply(s, step).results == s.results
  {
  }

  lemma StepKeepsExclusive(s: State, step: Step)
    requires Exclusive(s) && Enabled(s, step)
    ensures Exclusive(Apply(s, step))
  {
    if !step.Return? {
      ApplyMoves(s, step);
    }
  }

  lemma StepKeepsCounted(s: State, step: Step)
    requires Exclusive(s) && Counted(s) && Enabled(s, step)
    ensures Counted(Apply(s, step))
  {
    if !step.Return? {
      var (i, w) := Moved(s, step);
      MoveFields(s, step, i, w);
      MoveCounters(s, step);
      SumUpdate(s.workers, i, w, Running);
      SumUpdate(s.workers, i, w, Recorded);
      if s.returned {
        TermAtMostSum(s.workers, i, Running);
      }
      if step.WriteSlice? {
        SumAppend(s.results, SyncResult(i, s.workers[i].success), Succeeded);
      }
    }
  }

  /** What a goroutine's step does to the group and the slice, in terms of where it was and is. */
  lemma MoveFields(s: State, step: Step, i: nat, w: Worker)
    requires Exclusive(s) && Enabled(s, step) && !step.Return? && (i, w) == Moved(s, step)
    ensures i < |s.workers|
    ensures var s', was := Apply(s, step), s.workers[i];
            && s'.workers == s.workers[i := w]
            && s'.group + Running(was) == s.group + Running(w) && |s'.results| + Recorded(was) == |s.results| + Recorded(w)
            && s'.returned == s.returned && (s'.spawned == s.spawned || step.Spawn?)
            && s'.results == if step.WriteSlice? then s.results + [SyncResult(i, s.workers[i].success)] else s.results
  {
  }

  /** The counters, less what their writer is ahead of the slice, follow the slice. */
  lemma MoveCounters(s: State, step: Step)
    requires Exclusive(s) && Enabled(s, step) && !step.Return?
    ensures var s' := Apply(s, step);
            && s'.successes + Ahead(s).0 == s.successes + Ahead(s').0 + (if step.WriteSlice? && s.workers[step.i].success then 1 else 0)
            && s'.failures + Ahead(s).1 == s.failures + Ahead(s').1 + (if step.WriteSlice? && !s.workers[step.i].success then 1 else 0)
  {
  }

  lemma StepKeepsLogged(s: State, step: Step)
    requires Exclusive(s) && Logged(s.results, s.workers) && Enabled(s, step)
    ensures Logged(Apply(s, step).results, Apply(s, step).workers)
  {
    if !step.Return? {
      var (i, w) := Moved(s, step);
      ApplyMoves(s, step);
      if step.WriteSlice? {
        RecordKeepsLogged(s.results, s.workers, i, w, SyncResult(i, s.workers[i].success));
      } else {
        SilentMoveKeepsLogged(s.results, s.workers, i, w);
      }
    }
  }

  lemma SilentMoveKeepsLogged(results: seq<SyncResult>, workers: seq<Worker>, i: nat, w: Worker)
    requires Logged(results, workers) && i < |workers| && Recorded(w) == Recorded(workers[i])
    ensures Logged(results, workers[i := w])
  {
  }

  lemma RecordKeepsLogged(results: seq<SyncResult>, workers: seq<Worker>, i: nat, w: Worker, r: SyncResult)
    requires Logged(results, workers) && i < |workers| && Recorded(workers[i]) == 0 && Recorded(w) == 1 && r.dest == i
    ensures Logged(results + [r], workers[i := w])
  {
    var results', workers' := results + [r], workers[i := w];
    forall j | 0 <= j < |workers'| && Recorded(workers'[j]) == 1 ensures Reported(results', j) {
      if j == i {
        assert results'[|results|].dest == j;
      } else {
        assert Reported(results, j);
        var k :| 0 <= k < |results| && results[k].dest == j;
        assert results'[k].dest == j;
      }
    }
  }

  lemma StepKeepsInv(s: State, s': State)
    requires Inv(s) && Next(s, s')
    ensures Inv(s') && |s'.workers| == |s.workers|
  {
    var step :| Enabled(s, step) && s' == Apply(s, step);
    assert Exclusive(s') by { StepKeepsExclusive(s, step); }
    assert Counted(s') by { StepKeepsCounted(s, step); }
    assert Logged(s'.results, s'.workers) by { StepKeepsLogged(s, step); }
  }

  // ---- Safety, termination, outcome ----

  /** Two workers are never both inside the critical section. */
  lemma MutualExclusion(s: State, i: nat, j: nat)
    requires Inv(s) && i < |s.workers| && j < |s.workers|
    requires var w := s.workers[i]; w.Locked? || w.CounterRead? || w.CounterWritten? || w.SliceRead? || w.Unlocking?
    requires var w := s.workers[j]; w.Locked? || w.CounterRead? || w.CounterWritten? || w.SliceRead? || w.Unlocking?
    ensures i == j
  {
    assert s.mutex == HeldBy(i) && s.mutex == HeldBy(j);
  }

  function Rank(w: Worker): nat {
    match w
    case Unspawned => 9
    case Syncing => 8
    case Waiting(_) => 7
    case Locked(_) => 6
    case CounterRead(_, _) => 5
    case CounterWritten(_) => 4
    case SliceRead(_, _) => 3
    case Unlocking => 2
    case Finishing => 1
    case Finished => 0
  }

  function Measure(s: State): nat {
    Sum(s.workers, Rank) + if s.returned then 0 else 1
  }

  lemma MovesGoDown(s: State, step: Step)
    requires Exclusive(s) && Enabled(s, step) && !step.Return?
    ensures var (i, w) := Moved(s, step); i < |s.workers| && Rank(w) < Rank(s.workers[i])
    ensures Apply(s, step).returned == s.returned
  {
  }

  lemma StepDecreases(s: State, s': State)
    requires Inv(s) && Next(s, s')
    ensures Measure(s') < Measure(s)
  {
    var step :| Enabled(s, step) && s' == Apply(s, step);
    if !step.Return? {
      var (i, w) := Moved(s, step);
      assert s'.workers == s.workers[i := w] by { ApplyMoves(s, step); }
      MovesGoDown(s, step);
      SumUpdate(s.workers, i, w, Rank);
    }
  }

  /** Until the call returns, some step is enabled: in particular the mutex holder can always go on. */
  lemma SomeStepEnabled(s: State) returns (step: Step)
    requires Inv(s) && !s.returned
    ensures Enabled(s, step)
  {
    if s.spawned < |s.workers| {
      step := Spawn;
    } else if s.group == 0 {
      step := Return;
    } else {
      var i := if s.mutex.HeldBy? then s.mutex.i else 0;
      if s.mutex.Free? {
        i := PositiveTerm(s.workers, Running);
      }
      TermAtMostSum(s.workers, i, Running);
      match s.workers[i]
      case Syncing => step := Sync(i, true);
      case Waiting(_) => step := Lock(i);
      case Locked(_) => step := ReadCounter(i);
      case CounterRead(_, _) => step := WriteCounter(i);
      case CounterWritten(_) => step := ReadSlice(i);
      case SliceRead(_, _) => step := WriteSlice(i);
      case Unlocking => step := Unlock(i);
      case Finishing => step := Done(i);
    }
  }

  ghost predicate IsRun(run: seq<State>, dests: nat) {
    && run != [] && run[0] == Init(dests)
    && forall k :: 0 <= k < |run| - 1 ==> Next(run[k], run[k + 1])
  }

  lemma {:induction false} RunInv(run: seq<State>, dests: nat, n: nat)
    requires IsRun(run, dests) && n < |run|
    ensures Inv(run[n]) && |run[n].workers| == dests
    ensures n + Measure(run[n]) <= Measure(run[0])
    decreases n
  {
    if n == 0 {
      InitInv(dests);
    } else {
      RunInv(run, dests, n - 1);
      StepKeepsInv(run[n - 1], run[n]);
      StepDecreases(run[n - 1], run[n]);
    }
  }

  ghost predicate Stuck(s: State) {
    forall step :: !Enabled(s, step)
  }

  lemma {:induction false} RankOfUnspawned(workers: seq<Worker>)
    requires forall i :: 0 <= i < |workers| ==> workers[i].Unspawned?
    ensures Sum(workers, Rank) == 9 * |workers|
    decreases |workers|
  {
    if workers != [] {
      RankOfUnspawned(workers[1..]);
    }
  }

  /** Every schedule is finite, and one that cannot go on has returned. */
  lemma EveryScheduleReturns(run: seq<State>, dests: nat)
    requires IsRun(run, dests)
    ensures |run| <= 9 * dests + 2
    ensures Stuck(run[|run| - 1]) ==> run[|run| - 1].returned
  {
    RunInv(run, dests, |run| - 1);
    RankOfUnspawned(Init(dests).workers);
    if !run[|run| - 1].returned {
      var step := SomeStepEnabled(run[|run| - 1]);
    }
  }

  lemma SuccessesCounted(results: seq<SyncResult>)
    ensures Sum(results, Succeeded) == |set k | 0 <= k < |results| && results[k].success|
  {
    SumCounts(results, Succeeded);
    assert Ones(results, Succeeded) == set k | 0 <= k < |results| && results[k].success;
  }

  /** When the call returns there is exactly one result per destination, and the counters agree with the results. */
  lemma Outcome(run: seq<State>, dests: nat)
    requires IsRun(run, dests) && run[|run| - 1].returned
    ensures var s := run[|run| - 1];
            && |s.results| == dests && s.successes + s.failures == dests
            && s.successes == |set k | 0 <= k < |s.results| && s.results[k].success|
            && (forall i :: 0 <= i < dests ==> Reported(s.results, i))
            && (forall j, k :: 0 <= j < k < |s.results| ==> s.results[j].dest != s.results[k].dest)
  {
    var s := run[|run| - 1];
    RunInv(run, dests, |run| - 1);
    forall i | 0 <= i < dests ensures s.workers[i].Finished? {
      TermAtMostSum(s.workers, i, Running);
    }
    AllRecorded(s.workers);
    SuccessesCounted(s.results);
    assert Ahead(s) == (0, 0);
  }

  lemma {:induction false} AllRecorded(workers: seq<Worker>)
    requires forall i :: 0 <= i < |workers| ==> workers[i].Finished?
    ensures Sum(workers, Recorded) == |workers|
    decreases |workers|
  {
    if workers != [] {
      AllRecorded(workers[1..]);
    }
  }

  // ---- Results are those of the syncs ----

  /** Worker `i` came from its sync with this outcome. */
  ghost predicate Synced(run: seq<State>, i: nat, success: bool) {
    exists k :: 0 <= k < |run| - 1 && i < |run[k].workers| && i < |run[k + 1].workers|
      && run[k].workers[i] == Syncing && run[k + 1].workers[i] == Waiting(success)
  }

  /** A worker on its way from the sync to the slice carries the outcome along. */
  ghost predicate Carries(w: Worker, success: bool) {
    (w.Waiting? || w.Locked? || w.CounterRead? || w.CounterWritten? || w.SliceRead?) && w.success == success
  }

  lemma CarriedOn(s: State, step: Step, i: nat, success: bool)
    requires Exclusive(s) && Enabled(s, step) && i < |s.workers|
    ensures var s' := Apply(s, step);
            && |s'.workers| == |s.workers|
            && (Carries(s'.workers[i], success) ==>
                  Carries(s.workers[i], success) || (s.workers[i] == Syncing && s'.workers[i] == Waiting(success)))
  {
    if !step.Return? {
      ApplyMoves(s, step);
    }
  }

  lemma StepAt(run: seq<State>, dests: nat, k: nat) returns (step: Step)
    requires IsRun(run, dests) && k + 1 < |run|
    ensures Inv(run[k]) && |run[k].workers| == dests && Enabled(run[k], step) && run[k + 1] == Apply(run[k], step)
  {
    RunInv(run, dests, k);
    assert Next(run[k], run[k + 1]);
    step :| Enabled(run[k], step) && run[k + 1] == Apply(run[k], step);
  }

  lemma {:induction false} CarriersSynced(run: seq<State>, dests: nat, n: nat, i: nat, success: bool)
    requires IsRun(run, dests) && n < |run| && i < dests
    ensures |run[n].workers| == dests && (Carries(run[n].workers[i], success) ==> Synced(run, i, success))
    decreases n
  {
    if n == 0 {
      RunInv(run, dests, 0);
    } else {
      CarriersSynced(run, dests, n - 1, i, success);
      var step := StepAt(run, dests, n - 1);
      CarriedOn(run[n - 1], step, i, success);
      if Carries(run[n].workers[i], success) && !Carries(run[n - 1].workers[i], success) {
        assert run[n - 1].workers[i] == Syncing && run[n - 1 + 1].workers[i] == Waiting(success);
      }
    }
  }

  ghost predicate AllSynced(run: seq<State>, results: seq<SyncResult>) {
    forall k :: 0 <= k < |results| ==> Synced(run, results[k].dest, results[k].success)
  }

  /** At every point of every run, each result in the slice is the outcome of its own destination's sync. */
  lemma ResultsAreSyncs(run: seq<State>, dests: nat, n: nat)
    requires IsRun(run, dests) && n < |run|
    ensures AllSynced(run, run[n].results)
  {
    for k := 0 to n
      invariant AllSynced(run, run[k].results)
    {
      NextResult(run, dests, k);
    }
  }

  lemma NextResult(run: seq<State>, dests: nat, k: nat)
    requires IsRun(run, dests) && k + 1 < |run| && AllSynced(run, run[k].results)
    ensures AllSynced(run, run[k + 1].results)
  {
    var step := StepAt(run, dests, k);
    if !step.Return? {
      ApplyMoves(run[k], step);
      if step.WriteSlice? {
        CarriersSynced(run, dests, k, step.i, run[k].workers[step.i].success);
      }
    }
  }

  /** A sync may go either way, and its worker remembers which. */
  lemma SyncGoesEitherWay(run: seq<State>, dests: nat, i: nat, success: bool) returns (s': State)
    requires IsRun(run, dests) && i < |run[|run| - 1].workers| && run[|run| - 1].workers[i] == Syncing
    ensures IsRun(run + [s'], dests)
    ensures var s := run[|run| - 1]; s' == s.(workers := s.workers[i := Waiting(success)])
  {
    var s := run[|run| - 1];
    s' := Apply(s, Sync(i, success));
    assert Enabled(s, Sync(i, success)) && Next(s, s');
    var run' := run + [s'];
    forall k | 0 <= k < |run'| - 1 ensures Next(run'[k], run'[k + 1]) {
      if k < |run| - 1 {
        assert Next(run[k], run[k + 1]);
      }
    }
  }
}
