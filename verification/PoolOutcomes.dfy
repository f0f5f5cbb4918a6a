/** What a pool of workers reports. */
module PoolOutcomes {
  // Which targets SyncToAllTargets reports, and as what: exactly those whose worker came to
  // its sync, which it does only if it finds the context not cancelled.

  import opened Tally
  import opened WorkerPool

  /** Has not come to the context check, or has found the context cancelled there. */
  predicate NotBegun(w: Worker) {
    w.Unspawned? || w.Skipped? || w.Queued? || w.Acquired? || ((w.Releasing? || w.Finishing? || w.Finished?) && !w.sent)
  }

  /** What can become of worker `i` in one step, as far as syncing is concerned. */
  ghost predicate Progress(i: nat, w: Worker, w': Worker, cancelled: bool) {
    && (NotBegun(w) && !NotBegun(w') ==> w == Acquired && w' == Syncing && !cancelled)
    && (!NotBegun(w) ==> w' == w || (!NotBegun(w') && w' != Syncing))
    && (w'.Sending? ==> w' == w || (w == Syncing && w'.result.target == i))
  }

  lemma MovedProgress(s: State, step: Step)
    requires Ordered(s) && Enabled(s, step) && OfWorker(step)
    ensures var (i, w) := Moved(s, step); i < |s.workers| && Progress(i, s.workers[i], w, s.cancelled)
  {
  }

  lemma WorkerProgress(s: State, step: Step, i: nat)
    requires Ordered(s) && Enabled(s, step) && i < |s.workers|
    ensures var s' := Apply(s, step);
            && |s'.workers| == |s.workers| && (s.cancelled ==> s'.cancelled)
            && Progress(i, s.workers[i], s'.workers[i], s.cancelled)
  {
    if OfWorker(step) {
      MovedProgress(s, step);
      var (j, w) := Moved(s, step);
      WorkerStepFields(s, step, j, w);
    } else {
      OthersMoveNobody(s, step);
    }
  }

  lemma OthersMoveNobody(s: State, step: Step)
    requires Ordered(s) && Enabled(s, step) && !OfWorker(step)
    ensures Apply(s, step).workers == s.workers && (s.cancelled ==> Apply(s, step).cancelled)
  {
  }

  /** The step from one point of a run to the next */
  lemma StepAt(run: seq<State>, targets: seq<Target>, force: bool, k: nat) returns (step: Step)
    requires IsRun(run, targets, force) && k + 1 < |run|
    ensures Inv(run[k]) && run[k].targets == targets && Enabled(run[k], step) && run[k + 1] == Apply(run[k], step)
  {
    RunInv(run, targets, force, k);
    assert Next(run[k], run[k + 1]);
    step :| Enabled(run[k], step) && run[k + 1] == Apply(run[k], step);
  }

  lemma RunProgress(run: seq<State>, targets: seq<Target>, force: bool, k: nat, i: nat)
    requires IsRun(run, targets, force) && k + 1 < |run| && i < |targets|
    ensures |run[k].workers| == |run[k + 1].workers| == |targets| && (run[k].cancelled ==> run[k + 1].cancelled)
    ensures Progress(i, run[k].workers[i], run[k + 1].workers[i], run[k].cancelled)
  {
    var step := StepAt(run, targets, force, k);
    WorkerProgress(run[k], step, i);
  }

  // ---- Cancellation ----

  ghost predicate CancelledBefore(s: State, i: nat) {
    i < |s.workers| && s.cancelled && NotBegun(s.workers[i])
  }

  lemma StaysNotBegun(run: seq<State>, targets: seq<Target>, force: bool, n: nat, m: nat, i: nat)
    requires IsRun(run, targets, force) && n <= m < |run| && i < |targets| && CancelledBefore(run[n], i)
    ensures CancelledBefore(run[m], i)
  {
    forall k | n <= k < m && CancelledBefore(run[k], i) ensures CancelledBefore(run[k + 1], i) {
      CancelledNext(run, targets, force, k, i);
    }
    CancelledAlong(run, n, m, i);
  }

  lemma {:induction false} CancelledAlong(states: seq<State>, n: nat, m: nat, i: nat)
    requires n <= m < |states| && CancelledBefore(states[n], i)
    requires forall k :: n <= k < m && CancelledBefore(states[k], i) ==> CancelledBefore(states[k + 1], i)
    ensures CancelledBefore(states[m], i)
    decreases m - n
  {
    if n < m {
      assert CancelledBefore(states[n + 1], i);
      CancelledAlong(states, n + 1, m, i);
    }
  }

  lemma CancelledNext(run: seq<State>, targets: seq<Target>, force: bool, k: nat, i: nat)
    requires IsRun(run, targets, force) && k + 1 < |run| && i < |targets| && CancelledBefore(run[k], i)
    ensures CancelledBefore(run[k + 1], i)
  {
    RunProgress(run, targets, force, k, i);
  }

  lemma NotBegunNotLogged(s: State, i: nat)
    requires Inv(s) && i < |s.workers| && NotBegun(s.workers[i])
    ensures forall k :: 0 <= k < |s.results| ==> s.results[k].target != i
    ensures forall k :: 0 <= k < |s.buffer| ==> s.buffer[k].target != i
  {
    forall k | 0 <= k < |s.results| ensures s.results[k].target != i {
      assert Log(s)[k] == s.results[k];
    }
    forall k | 0 <= k < |s.buffer| ensures s.buffer[k].target != i {
      assert Log(s)[|s.results| + k] == s.buffer[k];
    }
  }

  /** Once the context is cancelled, a worker that has not looked at it yet never produces a result. */
  lemma CancelledNeverSyncs(run: seq<State>, targets: seq<Target>, force: bool, n: nat, m: nat, i: nat)
    requires IsRun(run, targets, force) && n <= m < |run| && i < |targets| && run[n].cancelled
    requires i < |run[n].workers| && run[n].workers[i] in {Unspawned, Queued, Acquired}
    ensures forall k :: 0 <= k < |run[m].results| ==> run[m].results[k].target != i
    ensures forall k :: 0 <= k < |run[m].buffer| ==> run[m].buffer[k].target != i
  {
    StaysNotBegun(run, targets, force, n, m, i);
    RunInv(run, targets, force, m);
    NotBegunNotLogged(run[m], i);
  }

  /** So a call whose context is cancelled before it starts a worker has no results, at any time. */
  lemma CancelledFromTheStart(run: seq<State>, targets: seq<Target>, force: bool, n: nat, m: nat)
    requires IsRun(run, targets, force) && n <= m < |run| && run[n].cancelled && run[n].spawned == 0
    ensures run[m].results == [] && run[m].successes == 0 && run[m].failures == 0
  {
    RunInv(run, targets, force, n);
    RunInv(run, targets, force, m);
    var s := run[m];
    if s.results != [] {
      assert Log(s)[0] == s.results[0];
      CancelledNeverSyncs(run, targets, force, n, m, s.results[0].target);
    }
  }

  // ---- Which targets are reported, and as what ----

  ghost predicate IsSyncing(s: State, i: nat) {
    i < |s.workers| && s.workers[i] == Syncing
  }

  /** Worker `i` came from its sync with this result. */
  ghost predicate Synced(run: seq<State>, i: nat, r: SyncResult) {
    exists k :: 0 <= k < |run| - 1 && IsSyncing(run[k], i) && i < |run[k + 1].workers| && run[k + 1].workers[i] == Sending(r)
  }

  lemma {:induction false} SendingSynced(run: seq<State>, targets: seq<Target>, force: bool, n: nat, i: nat)
    requires IsRun(run, targets, force) && n < |run| && i < |targets|
    ensures |run[n].workers| == |targets|
    ensures run[n].workers[i].Sending? ==> Synced(run, i, run[n].workers[i].result)
    decreases n
  {
    if n == 0 {
      RunInv(run, targets, force, 0);
    } else {
      SendingSynced(run, targets, force, n - 1, i);
      RunProgress(run, targets, force, n - 1, i);
      if run[n].workers[i].Sending? && run[n].workers[i] != run[n - 1].workers[i] {
        assert IsSyncing(run[n - 1], i);
      }
    }
  }

  ghost predicate AllSynced(run: seq<State>, log: seq<SyncResult>) {
    forall k :: 0 <= k < |log| ==> Synced(run, log[k].target, log[k])
  }

  /** Every result, received or still in the channel, is the outcome of its own target's sync. */
  lemma ResultsAreSyncs(run: seq<State>, targets: seq<Target>, force: bool, n: nat)
    requires IsRun(run, targets, force) && n < |run|
    ensures AllSynced(run, run[n].results + run[n].buffer)
  {
    for k := 0 to n
      invariant AllSynced(run, run[k].results + run[k].buffer)
    {
      NextResult(run, targets, force, k);
    }
  }

  lemma NextResult(run: seq<State>, targets: seq<Target>, force: bool, k: nat)
    requires IsRun(run, targets, force) && k + 1 < |run| && AllSynced(run, Log(run[k]))
    ensures AllSynced(run, Log(run[k + 1]))
  {
    var step := StepAt(run, targets, force, k);
    var i := LogStep(run[k], step);
    if Log(run[k + 1]) != Log(run[k]) {
      SendingSynced(run, targets, force, k, i);
    }
  }

  /** The record grows only by the result that some worker is sending. */
  lemma LogStep(s: State, step: Step) returns (i: nat)
    requires Ordered(s) && Enabled(s, step)
    ensures Log(Apply(s, step)) == Log(s)
            || (i < |s.workers| && s.workers[i].Sending? && s.workers[i].result.target == i
                && Log(Apply(s, step)) == Log(s) + [s.workers[i].result])
  {
    i := 0;
    if step.Send? {
      i := step.i;
      assert Log(Apply(s, step)) == Log(s) + [s.workers[i].result];
    } else if OfWorker(step) {
      var (j, w) := Moved(s, step);
      SilentStep(s, step, j, w);
    } else {
      QuietStep(s, step);
    }
  }

  ghost predicate HasBegun(s: State, i: nat) {
    i < |s.workers| && !NotBegun(s.workers[i])
  }

  lemma StaysBegun(run: seq<State>, targets: seq<Target>, force: bool, n: nat, m: nat, i: nat)
    requires IsRun(run, targets, force) && n <= m < |run| && i < |targets| && HasBegun(run[n], i)
    ensures HasBegun(run[m], i)
  {
    forall k | n <= k < m && HasBegun(run[k], i) ensures HasBegun(run[k + 1], i) {
      BegunNext(run, targets, force, k, i);
    }
    BegunAlong(run, n, m, i);
  }

  lemma {:induction false} BegunAlong(states: seq<State>, n: nat, m: nat, i: nat)
    requires n <= m < |states| && HasBegun(states[n], i)
    requires forall k :: n <= k < m && HasBegun(states[k], i) ==> HasBegun(states[k + 1], i)
    ensures HasBegun(states[m], i)
    decreases m - n
  {
    if n < m {
      assert HasBegun(states[n + 1], i);
      BegunAlong(states, n + 1, m, i);
    }
  }

  lemma BegunNext(run: seq<State>, targets: seq<Target>, force: bool, k: nat, i: nat)
    requires IsRun(run, targets, force) && k + 1 < |run| && i < |targets| && HasBegun(run[k], i)
    ensures HasBegun(run[k + 1], i)
  {
    RunProgress(run, targets, force, k, i);
  }

  /** When the call has returned, a target is in the results exactly if its worker was syncing at some point. */
  lemma ReportedExactly(run: seq<State>, targets: seq<Target>, force: bool, i: nat)
    requires IsRun(run, targets, force) && run[|run| - 1].returned && i < |targets|
    ensures Reported(run[|run| - 1].results, i) <==> exists k :: 0 <= k < |run| && IsSyncing(run[k], i)
  {
    var s := run[|run| - 1];
    RunInv(run, targets, force, |run| - 1);
    if k :| 0 <= k < |run| && IsSyncing(run[k], i) {
      StaysBegun(run, targets, force, k, |run| - 1, i);
      ReturnedWithResult(s, i);
    }
    if Reported(s.results, i) {
      var k :| 0 <= k < |s.results| && s.results[k].target == i;
      ResultsAreSyncs(run, targets, force, |run| - 1);
      var log := s.results + s.buffer;
      assert log[k] == s.results[k];
      assert Synced(run, i, log[k]);
    }
  }

  lemma ReturnedWithResult(s: State, i: nat)
    requires Inv(s) && s.returned && i < |s.workers| && !NotBegun(s.workers[i])
    ensures Reported(s.results, i)
  {
    CloseIsLast(s);
    assert HasSent(s.workers[i]) == 1;
    assert Log(s) == s.results;
  }

  /** A worker starts syncing only from the context check, and only while the context is not cancelled. */
  lemma StartsSyncing(run: seq<State>, targets: seq<Target>, force: bool, k: nat, i: nat)
    requires IsRun(run, targets, force) && k + 1 < |run| && i < |targets|
    requires IsSyncing(run[k + 1], i) && !IsSyncing(run[k], i)
    ensures i < |run[k].workers| && run[k].workers[i] == Acquired && !run[k].cancelled
  {
    RunProgress(run, targets, force, k, i);
  }

  /** A sync may go either way, and its result says which. */
  lemma SyncGoesEitherWay(run: seq<State>, targets: seq<Target>, force: bool, i: nat, success: bool) returns (s': State)
    requires IsRun(run, targets, force) && IsSyncing(run[|run| - 1], i)
    ensures IsRun(run + [s'], targets, force)
    ensures var s := run[|run| - 1]; s' == s.(workers := s.workers[i := Sending(SyncResult(i, success))])
  {
    var s := run[|run| - 1];
    RunInv(run, targets, force, |run| - 1);
    s' := Apply(s, Sync(i, success));
    assert Enabled(s, Sync(i, success)) && Next(s, s');
    var run' := run + [s'];
    forall k | 0 <= k < |run'| - 1 ensures Next(run'[k], run'[k + 1]) {
      if k < |run| - 1 {
        assert Next(run[k], run[k + 1]);
      }
    }
  }
}
