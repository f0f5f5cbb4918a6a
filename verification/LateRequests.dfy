/**
 The request that Stop cannot catch: one that SetConfig has started and that has not taken
 the manager's mutex when Stop cancels the timer. It arms a timer while Stop still waits
 for the engine's lock, and the timer outlives Stop.
 */
module LateRequests {
  import opened Common
  import opened Tally
  import opened AutoSync
  import opened Schedules
  import Debounce

  lemma Cancel(run: seq<State>, i: nat) returns (s': State)
    requires IsRun(run) && i < |Last(run).threads| && Last(run).threads[i].StopCancel?
    ensures s' == Apply(Last(run), Run(i, true)) && IsRun(run + [s'])
    ensures s'.threads == Last(run).threads[i := StopUnlockAgain] && s'.mu == 1
  {
    s' := Apply(Last(run), Run(i, true));
    Continue(run, Run(i, true));
    assert s'.threads == Last(run).threads[i := StopUnlockAgain];
    RunInv(run, |run| - 1);
    TermAtMostSum(Last(run).threads, i, HoldsMu);
  }

  lemma Unlock(run: seq<State>, i: nat) returns (s': State)
    requires IsRun(run) && i < |Last(run).threads| && Last(run).threads[i].StopUnlockAgain? && Last(run).mu == 1
    ensures IsRun(run + [s']) && s'.threads == Last(run).threads[i := StopWantEngine] && s'.mu == 0
  {
    s' := Advance(run, i, true, StopUnlockAgain, StopWantEngine);
  }

  lemma TakeMu(run: seq<State>, j: nat) returns (s': State)
    requires IsRun(run) && j < |Last(run).threads| && Last(run).threads[j].RequestWantMu? && Last(run).mu == 0
    ensures IsRun(run + [s']) && s'.threads == Last(run).threads[j := RequestArm]
  {
    s' := Advance(run, j, true, RequestWantMu, RequestArm);
  }

  lemma Arm(run: seq<State>, j: nat) returns (s': State)
    requires IsRun(run) && j < |Last(run).threads| && Last(run).threads[j].RequestArm?
    ensures IsRun(run + [s']) && s'.threads == Last(run).threads[j := RequestUnlock] && s'.timers.armed != map[]
  {
    s' := Advance(run, j, true, RequestArm, RequestUnlock);
    RunInv(run, |run| - 1);
    Debounce.RequestArms(Last(run).timers, Last(run).delay);
  }

  lemma TakeEngine(run: seq<State>, i: nat) returns (s': State)
    requires IsRun(run) && i < |Last(run).threads| && Last(run).threads[i].StopWantEngine?
    requires Last(run).writer == 0 && Last(run).readers == 0
    ensures IsRun(run + [s']) && s'.threads == Last(run).threads[i := StopSave] && s'.timers == Last(run).timers
  {
    s' := Advance(run, i, true, StopWantEngine, StopSave);
  }

  lemma Save(run: seq<State>, i: nat) returns (s': State)
    requires IsRun(run) && i < |Last(run).threads| && Last(run).threads[i].StopSave?
    ensures IsRun(run + [s']) && s'.threads == Last(run).threads[i := Returned] && s'.timers == Last(run).timers
  {
    s' := Advance(run, i, true, StopSave, Returned);
  }

  // ---- Draining the engine's lock ----

  /** How many statements a thread needs to let go of the engine's lock. */
  function Holding(pc: Pc): nat {
    match pc
    case SetSave => 2
    case StartSave | StopSave | SetUnlock | SyncLoad | StatusRead | SyncRead => 1
    case _ => 0
  }

  lemma SomeHolder(s: State) returns (h: nat)
    requires Locks(s) && (s.writer != 0 || s.readers != 0)
    ensures h < |s.threads| && (Writes(s.threads[h]) == 1 || Reads(s.threads[h]) == 1)
  {
    if s.writer > 0 {
      h := PositiveTerm(s.threads, Writes);
    } else {
      h := PositiveTerm(s.threads, Reads);
    }
  }

  /** A holder's next statement brings it closer to letting go; it starts no thread and leaves the timers alone. */
  lemma HolderStatement(s: State, pc: Pc)
    requires Writes(pc) == 1 || Reads(pc) == 1
    ensures CanRun(s, pc) && Spawned(s, pc, false) == [] && Effect(s, pc, false) == s
    ensures Holding(Following(s, pc, false)) < Holding(pc) && !pc.StopWantEngine?
  {
  }

  lemma HolderAdvances(run: seq<State>) returns (s': State)
    requires IsRun(run) && (Last(run).writer != 0 || Last(run).readers != 0)
    ensures IsRun(run + [s']) && s'.timers == Last(run).timers && |s'.threads| == |Last(run).threads|
    ensures forall i :: 0 <= i < |s'.threads| && Last(run).threads[i].StopWantEngine? ==> s'.threads[i].StopWantEngine?
    ensures Sum(s'.threads, Holding) < Sum(Last(run).threads, Holding)
  {
    RunInv(run, |run| - 1);
    var h := SomeHolder(Last(run));
    var pc := Last(run).threads[h];
    var pc' := Following(Last(run), pc, false);
    HolderStatement(Last(run), pc);
    s' := Advance(run, h, false, pc, pc');
    SumUpdate(Last(run).threads, h, pc', Holding);
  }

  /** While thread `i` waits for the engine's lock, those who hold it can be run until it is free. */
  lemma {:induction false} Drain(run: seq<State>, i: nat) returns (more: seq<State>)
    requires IsRun(run) && i < |Last(run).threads| && Last(run).threads[i].StopWantEngine?
    ensures IsRun(run + more)
    ensures forall k :: 0 <= k < |more| ==> i < |more[k].threads| && more[k].threads[i].StopWantEngine?
    ensures Last(run + more).timers == Last(run).timers
    ensures Last(run + more).writer == 0 && Last(run + more).readers == 0
    decreases Sum(Last(run).threads, Holding)
  {
    if Last(run).writer == 0 && Last(run).readers == 0 {
      more := [];
      assert run + more == run;
    } else {
      var s' := HolderAdvances(run);
      var rest := Drain(run + [s'], i);
      more := [s'] + rest;
      assert run + more == run + [s'] + rest;
    }
  }

  // ---- From the cancellation to the return ----

  /** `more` takes the run from the cancellation in thread `i`'s Stop to the moment at which this Stop has returned. */
  ghost predicate CancelsAndReturns(run: seq<State>, i: nat, more: seq<State>) {
    && run != [] && more != [] && IsRun(run + more)
    && i < |Last(run).threads| && Last(run).threads[i].StopCancel? && more[0] == Apply(Last(run), Run(i, true))
    && (forall k :: 0 <= k < |more| - 1 ==> i < |more[k].threads| && Stopped(more[k].threads[i]) == 1)
    && i < |Last(more).threads| && Last(more).threads[i].Returned?
  }

  /** The mutex is free after the cancellation, and a request that waits for it takes it and arms. */
  lemma RequestSlipsIn(run: seq<State>, i: nat, j: nat) returns (more: seq<State>)
    requires IsRun(run) && i < |Last(run).threads| && j < |Last(run).threads|
    requires Last(run).threads[i].StopCancel? && Last(run).threads[j].RequestWantMu?
    ensures IsRun(run + more) && |more| == 4 && more[0] == Apply(Last(run), Run(i, true))
    ensures forall k :: 0 <= k < 4 ==> i < |more[k].threads| && Stopped(more[k].threads[i]) == 1
    ensures more[3].threads[i].StopWantEngine? && more[3].timers.armed != map[]
  {
    var s1 := Cancel(run, i);
    var s2 := Unlock(run + [s1], i);
    Two(run, s1, s2);
    var s3 := TakeMu(run + [s1, s2], j);
    var s4 := Arm(run + [s1, s2] + [s3], j);
    more := [s1, s2] + [s3, s4];
    Two(run + [s1, s2], s3, s4);
    assert run + more == run + [s1, s2] + [s3, s4];
  }

  /** With a request in flight at the cancellation, the schedule can go on so that a timer is armed when Stop returns. */
  lemma LateRequestArms(run: seq<State>, i: nat, j: nat) returns (more: seq<State>)
    requires IsRun(run) && i < |Last(run).threads| && j < |Last(run).threads|
    requires Last(run).threads[i].StopCancel? && Last(run).threads[j].RequestWantMu?
    ensures CancelsAndReturns(run, i, more) && Last(more).timers.armed != map[]
  {
    var first := RequestSlipsIn(run, i, j);
    assert Last(run + first) == first[3];
    var drained := Drain(run + first, i);
    var so := run + first + drained;
    assert |drained| > 0 ==> Last(so) == Last(drained);
    var s5 := TakeEngine(so, i);
    var s6 := Save(so + [s5], i);
    Two(so, s5, s6);
    more := first + drained + [s5, s6];
    assert run + more == so + [s5, s6];
    InStopAllTheWay(first, drained, s5, s6, i);
  }

  lemma InStopAllTheWay(first: seq<State>, drained: seq<State>, s5: State, s6: State, i: nat)
    requires forall k :: 0 <= k < |first| ==> i < |first[k].threads| && Stopped(first[k].threads[i]) == 1
    requires forall k :: 0 <= k < |drained| ==> i < |drained[k].threads| && drained[k].threads[i].StopWantEngine?
    requires i < |s5.threads| && s5.threads[i].StopSave?
    ensures var more := first + drained + [s5, s6];
            forall k :: 0 <= k < |more| - 1 ==> i < |more[k].threads| && Stopped(more[k].threads[i]) == 1
  {
    var more := first + drained + [s5, s6];
    forall k | 0 <= k < |more| - 1 ensures i < |more[k].threads| && Stopped(more[k].threads[i]) == 1 {
      if |first| <= k < |first| + |drained| {
        assert more[k] == drained[k - |first|];
      }
    }
  }

  /** Whatever the schedule does from the cancellation on, nothing is armed when Stop returns if and only if no request was in flight. */
  lemma ArmedAtReturnExactly(run: seq<State>, i: nat)
    requires IsRun(run) && i < |Last(run).threads| && Last(run).threads[i].StopCancel?
    ensures (forall more :: CancelsAndReturns(run, i, more) ==> Last(more).timers.armed == map[])
            <==> Sum(Last(run).threads, InFlight) == 0
  {
    if Sum(Last(run).threads, InFlight) == 0 {
      forall more | CancelsAndReturns(run, i, more) ensures Last(more).timers.armed == map[] {
        NothingArmedAtReturn(run, i, more);
      }
    } else {
      RunInv(run, |run| - 1);
      var j := PositiveTerm(Last(run).threads, InFlight);
      OneHolder(Last(run), i, j);
      var more := LateRequestArms(run, i, j);
    }
  }

  lemma NothingArmedAtReturn(run: seq<State>, i: nat, more: seq<State>)
    requires IsRun(run) && CancelsAndReturns(run, i, more) && Sum(Last(run).threads, InFlight) == 0
    ensures Last(more).timers.armed == map[]
  {
    var whole, n := run + more, |run| - 1;
    assert whole[n] == Last(run) && whole[n + 1] == more[0] && whole[|whole| - 1] == Last(more);
    forall k | n < k < |whole| - 1 ensures i < |whole[k].threads| && Stopped(whole[k].threads[i]) == 1 {
      assert whole[k] == more[k - n - 1];
    }
    NothingArmedAfterStop(whole, n, |whole| - 1, i, true);
  }

  // ---- It does happen ----

  /** The loop and a Stop, beside a returned Start, a returned SetConfig and the request it started. */
  function Stopping(d: nat, loop: Pc, stop: Pc, mu: int, group: int, running: bool, closed: set<nat>, watcherOpen: bool): State {
    State([Returned, loop, Returned, RequestWantMu, stop], mu, 0, 0, group, running, 1, closed, watcherOpen, d, Debounce.INITIAL, None)
  }

  /** One schedule: Start runs, the loop enters its select, SetConfig starts a request, and Stop comes to the cancellation. */
  lemma StartCalled(d: nat) returns (run: seq<State>)
    ensures IsRun(run) && Last(run) == State([StartWantEngine], 1, 0, 0, 0, true, 1, {}, true, d, Debounce.INITIAL, None)
  {
    run := [INITIAL];
    run := Goes(run, Call(StartWantMu(d)), State([StartWantMu(d)], 0, 0, 0, 0, false, 0, {}, false, 0, Debounce.INITIAL, None));
    run := Goes(run, Run(0, true), State([StartCheck(d)], 1, 0, 0, 0, false, 0, {}, false, 0, Debounce.INITIAL, None));
    run := Goes(run, Run(0, true), State([StartWantEngine], 1, 0, 0, 0, true, 1, {}, true, d, Debounce.INITIAL, None));
  }

  lemma StartSaved(d: nat) returns (run: seq<State>)
    ensures IsRun(run) && Last(run) == State([StartSpawn], 1, 0, 0, 0, true, 1, {}, true, d, Debounce.INITIAL, None)
  {
    run := StartCalled(d);
    run := Goes(run, Run(0, true), State([StartSave], 1, 1, 0, 0, true, 1, {}, true, d, Debounce.INITIAL, None));
    run := Goes(run, Run(0, true), State([StartWatch], 1, 0, 0, 0, true, 1, {}, true, d, Debounce.INITIAL, None));
    run := Goes(run, Run(0, true), State([StartSpawn], 1, 0, 0, 0, true, 1, {}, true, d, Debounce.INITIAL, None));
  }

  lemma LoopStarted(d: nat) returns (run: seq<State>)
    ensures IsRun(run) && Last(run) == State([Returned, LoopEnter], 0, 0, 0, 1, true, 1, {}, true, d, Debounce.INITIAL, None)
  {
    run := StartSaved(d);
    run := Goes(run, Run(0, true), State([StartUnlock, LoopEnter], 1, 0, 0, 1, true, 1, {}, true, d, Debounce.INITIAL, None));
    run := Goes(run, Run(0, true), State([Returned, LoopEnter], 0, 0, 0, 1, true, 1, {}, true, d, Debounce.INITIAL, None));
  }

  lemma Started(d: nat) returns (run: seq<State>)
    ensures IsRun(run) && Last(run) == State([Returned, LoopSelect(1), SetWantEngine], 0, 0, 0, 1, true, 1, {}, true, d, Debounce.INITIAL, None)
  {
    run := LoopStarted(d);
    run := Goes(run, Run(1, true), State([Returned, LoopSelect(1)], 0, 0, 0, 1, true, 1, {}, true, d, Debounce.INITIAL, None));
    run := Goes(run, Call(SetWantEngine), State([Returned, LoopSelect(1), SetWantEngine], 0, 0, 0, 1, true, 1, {}, true, d, Debounce.INITIAL, None));
  }

  lemma ConfigSet(d: nat) returns (run: seq<State>)
    ensures IsRun(run) && Last(run) == State([Returned, LoopSelect(1), SetUnlock, RequestWantMu], 0, 1, 0, 1, true, 1, {}, true, d, Debounce.INITIAL, None)
  {
    run := Started(d);
    run := Goes(run, Run(2, true), State([Returned, LoopSelect(1), SetSave], 0, 1, 0, 1, true, 1, {}, true, d, Debounce.INITIAL, None));
    run := Goes(run, Run(2, true), State([Returned, LoopSelect(1), SetUnlock, RequestWantMu], 0, 1, 0, 1, true, 1, {}, true, d, Debounce.INITIAL, None));
  }

  lemma Requested(d: nat) returns (run: seq<State>)
    ensures IsRun(run) && Last(run) == State([Returned, LoopSelect(1), Returned, RequestWantMu], 0, 0, 0, 1, true, 1, {}, true, d, Debounce.INITIAL, None)
  {
    run := ConfigSet(d);
    run := Goes(run, Run(2, true), State([Returned, LoopSelect(1), Returned, RequestWantMu], 0, 0, 0, 1, true, 1, {}, true, d, Debounce.INITIAL, None));
  }

  lemma StopWaiting(d: nat) returns (run: seq<State>)
    ensures IsRun(run) && Last(run) == Stopping(d, LoopSelect(1), StopWantMu, 0, 1, true, {}, true)
  {
    run := Requested(d);
    SumZero(Last(run).threads, Controls);
    run := Goes(run, Call(StopWantMu), Stopping(d, LoopSelect(1), StopWantMu, 0, 1, true, {}, true));
  }

  lemma StopCalled(d: nat) returns (run: seq<State>)
    ensures IsRun(run) && Last(run) == Stopping(d, LoopSelect(1), StopUnlock, 1, 1, false, {1}, true)
  {
    run := StopWaiting(d);
    run := Goes(run, Run(4, true), Stopping(d, LoopSelect(1), StopCheck, 1, 1, true, {}, true));
    run := Goes(run, Run(4, true), Stopping(d, LoopSelect(1), StopUnlock, 1, 1, false, {1}, true));
  }

  lemma Draining(d: nat) returns (run: seq<State>)
    ensures IsRun(run) && Last(run) == Stopping(d, LoopSelect(1), StopWait, 0, 1, false, {1}, true)
  {
    run := StopCalled(d);
    run := Goes(run, Run(4, true), Stopping(d, LoopSelect(1), StopWait, 0, 1, false, {1}, true));
  }

  lemma LoopStopped(d: nat) returns (run: seq<State>)
    ensures IsRun(run) && Last(run) == Stopping(d, LoopExit, StopWait, 0, 1, false, {1}, true)
  {
    run := Draining(d);
    run := Goes(run, Run(1, true), Stopping(d, LoopExit, StopWait, 0, 1, false, {1}, true));
  }

  lemma Drained(d: nat) returns (run: seq<State>)
    ensures IsRun(run) && Last(run) == Stopping(d, Returned, StopWait, 0, 0, false, {1}, true)
  {
    run := LoopStopped(d);
    run := Goes(run, Run(1, true), Stopping(d, Returned, StopWait, 0, 0, false, {1}, true));
  }

  lemma WaitOver(d: nat) returns (run: seq<State>)
    ensures IsRun(run) && Last(run) == Stopping(d, Returned, StopCloseWatcher, 0, 0, false, {1}, true)
  {
    run := Drained(d);
    run := Goes(run, Run(4, true), Stopping(d, Returned, StopCloseWatcher, 0, 0, false, {1}, true));
  }

  lemma Cancelling(d: nat) returns (run: seq<State>)
    ensures IsRun(run) && Last(run) == Stopping(d, Returned, StopCancel, 1, 0, false, {1}, false)
  {
    run := WaitOver(d);
    run := Goes(run, Run(4, true), Stopping(d, Returned, StopWantMuAgain, 0, 0, false, {1}, false));
    run := Goes(run, Run(4, true), Stopping(d, Returned, StopCancel, 1, 0, false, {1}, false));
  }

  /** So for every delay some schedule ends with Stop returned, auto-sync not running, and a timer armed. */
  lemma TimerCanOutliveStop(d: nat) returns (run: seq<State>, i: nat)
    ensures IsRun(run) && i < |Last(run).threads| && Last(run).threads[i].Returned?
    ensures exists k :: 0 <= k < |run| - 1 && i < |run[k].threads| && run[k].threads[i].StopCancel?
    ensures Last(run).timers.armed != map[]
  {
    var before := Cancelling(d);
    i := 4;
    var more := LateRequestArms(before, 4, 3);
    run := before + more;
    assert run[|before| - 1] == Last(before);
  }
}
