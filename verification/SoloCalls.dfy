/**
 What each auto-sync operation does when nothing else is under way. From an idle point of
 any run, each is run on its own to its end, and the state it leaves is given field by
 field.
 */
module SoloCalls {
  import opened Common
  import opened Tally
  import opened AutoSync
  import opened Schedules
  import Debounce

  // ---- One active thread ----

  /** Threads that hold no lock and wait for none as writers */
  ghost predicate Calm(threads: seq<Pc>) {
    forall i :: 0 <= i < |threads| ==>
      HoldsMu(threads[i]) == 0 && Writes(threads[i]) == 0 && Reads(threads[i]) == 0 && WantsWrite(threads[i]) == 0
  }

  /** `base` with thread `i` at `pc`, which alone may hold locks. */
  function With(base: State, i: nat, pc: Pc): State
    requires i < |base.threads|
  {
    base.(threads := base.threads[i := pc], mu := HoldsMu(pc), writer := Writes(pc), readers := Reads(pc))
  }

  /** Nobody else is in the way, so the thread can run unless it waits for the group or sits in its select. */
  lemma SoloCanRun(base: State, i: nat, pc: Pc)
    requires i < |base.threads| && Calm(base.threads) && !pc.Returned? && !pc.LoopSelect?
    requires pc.StopWait? ==> base.group == 0
    ensures CanRun(With(base, i, pc), pc)
  {
    SumZero(base.threads, WantsWrite);
    SumUpdate(base.threads, i, pc, WantsWrite);
    WaitersHoldNothing(pc);
  }

  lemma WaitersHoldNothing(pc: Pc)
    ensures WantsMu(pc) == 1 ==> HoldsMu(pc) == 0
    ensures WantsWrite(pc) == 1 || WantsRead(pc) == 1 ==> Writes(pc) == 0 && Reads(pc) == 0
    ensures WantsRead(pc) == 1 ==> WantsWrite(pc) == 0
  {
  }

  /** A statement looks at no lock and at no other thread. */
  lemma SoloEffect(base: State, i: nat, pc: Pc, ok: bool)
    requires i < |base.threads|
    ensures Effect(base, pc, ok).threads == base.threads
    ensures Effect(With(base, i, pc), pc, ok) == With(Effect(base, pc, ok), i, pc)
  {
  }

  lemma SoloFollowing(base: State, i: nat, pc: Pc, ok: bool)
    requires i < |base.threads|
    ensures Following(With(base, i, pc), pc, ok) == Following(base, pc, ok)
    ensures Spawned(With(base, i, pc), pc, ok) == Spawned(base, pc, ok)
  {
  }

  lemma SoloApply(base: State, i: nat, pc: Pc, ok: bool)
    requires i < |base.threads| && Spawned(base, pc, ok) == [] && !pc.LoopExit?
    ensures Effect(base, pc, ok).threads == base.threads
    ensures Apply(With(base, i, pc), Run(i, ok)) == With(Effect(base, pc, ok), i, Following(base, pc, ok))
  {
    SoloEffect(base, i, pc, ok);
    SoloFollowing(base, i, pc, ok);
    var pc' := Following(base, pc, ok);
    assert base.threads[i := pc][i := pc'] + [] == base.threads[i := pc'];
  }

  /** One statement of the only active thread. */
  lemma Solo(run: seq<State>, base: State, i: nat, pc: Pc, ok: bool) returns (run': seq<State>)
    requires IsRun(run) && i < |base.threads| && Last(run) == With(base, i, pc)
    requires CanRun(With(base, i, pc), pc) && Spawned(base, pc, ok) == [] && !pc.LoopExit?
    ensures IsRun(run') && run <= run' && |run'| == |run| + 1 && Effect(base, pc, ok).threads == base.threads
    ensures Last(run') == With(Effect(base, pc, ok), i, Following(base, pc, ok))
  {
    SoloApply(base, i, pc, ok);
    run' := Goes(run, Run(i, ok), Apply(Last(run), Run(i, ok)));
  }

  /** The same with the outcome named, for a thread that can run. */
  lemma Executes(run: seq<State>, base: State, i: nat, pc: Pc, ok: bool, base': State, pc': Pc) returns (run': seq<State>)
    requires IsRun(run) && i < |base.threads| && Calm(base.threads) && Last(run) == With(base, i, pc)
    requires !pc.Returned? && !pc.LoopSelect? && !pc.LoopExit? && (pc.StopWait? ==> base.group == 0)
    requires Spawned(base, pc, ok) == [] && base' == Effect(base, pc, ok) && pc' == Following(base, pc, ok)
    ensures IsRun(run') && run <= run' && |run'| == |run| + 1 && base'.threads == base.threads
    ensures Last(run') == With(base', i, pc')
  {
    SoloCanRun(base, i, pc);
    run' := Solo(run, base, i, pc, ok);
  }

  /** A statement that only moves its thread, locks apart. */
  ghost predicate Plain(base: State, pc: Pc, ok: bool, pc': Pc) {
    && !pc.Returned? && !pc.LoopSelect? && !pc.LoopExit? && (pc.StopWait? ==> base.group == 0)
    && Spawned(base, pc, ok) == [] && Effect(base, pc, ok) == base && Following(base, pc, ok) == pc'
  }

  /** A thread runs through plain statements, one after the other. */
  lemma {:induction false} Through(run: seq<State>, base: State, i: nat, pcs: seq<Pc>, ok: bool) returns (run': seq<State>)
    requires IsRun(run) && i < |base.threads| && Calm(base.threads) && pcs != [] && Last(run) == With(base, i, pcs[0])
    requires forall k :: 0 <= k < |pcs| - 1 ==> Plain(base, pcs[k], ok, pcs[k + 1])
    ensures IsRun(run') && run <= run' && |run'| == |run| + |pcs| - 1 && Last(run') == With(base, i, pcs[|pcs| - 1])
    decreases |pcs|
  {
    if |pcs| == 1 {
      run' := run;
    } else {
      assert Plain(base, pcs[0], ok, pcs[1]);
      run' := Executes(run, base, i, pcs[0], ok, base, pcs[1]);
      forall k | 0 <= k < |pcs[1..]| - 1 ensures Plain(base, pcs[1..][k], ok, pcs[1..][k + 1]) {
        assert Plain(base, pcs[k + 1], ok, pcs[k + 2]);
      }
      run' := Through(run', base, i, pcs[1..], ok);
    }
  }

  /** The statements that start a thread: the loop, or the request of a SetConfig. */
  lemma Spawns(run: seq<State>, base: State, i: nat, pc: Pc, newcomer: Pc) returns (run': seq<State>)
    requires IsRun(run) && i < |base.threads| && Calm(base.threads) && Last(run) == With(base, i, pc)
    requires Spawned(base, pc, true) == [newcomer] && (pc.StartSpawn? || pc.SetSave?)
    ensures IsRun(run') && run <= run'
    ensures Last(run') == With(base.(threads := base.threads + [newcomer], group := base.group + if pc.StartSpawn? then 1 else 0),
                               i, Following(base, pc, true))
  {
    SoloFollowing(base, i, pc, true);
    run' := Goes(run, Run(i, true), Apply(Last(run), Run(i, true)));
    var pc' := Following(base, pc, true);
    assert base.threads[i := pc][i := pc'] + [newcomer] == (base.threads + [newcomer])[i := pc'];
  }

  /** At an idle point no lock is held, and every thread is calm. */
  lemma IdleIsCalm(run: seq<State>)
    requires IsRun(run) && Idle(Last(run))
    ensures var s := Last(run);
            && s.mu == 0 && s.writer == 0 && s.readers == 0 && Sum(s.threads, Controls) == 0
            && Calm(s.threads) && Debounce.Inv(s.timers)
  {
    RunInv(run, |run| - 1);
    IdleHoldsNothing(Last(run));
  }

  lemma IdleHoldsNothing(s: State)
    requires Idle(s)
    ensures Sum(s.threads, HoldsMu) == 0 && Sum(s.threads, Writes) == 0 && Sum(s.threads, Reads) == 0 && Sum(s.threads, Controls) == 0
    ensures Calm(s.threads)
  {
    forall i | 0 <= i < |s.threads|
      ensures IdlePoint(s.threads[i])
    {
    }
    SumZero(s.threads, HoldsMu);
    SumZero(s.threads, Writes);
    SumZero(s.threads, Reads);
    SumZero(s.threads, Controls);
  }

  predicate IdlePoint(pc: Pc) {
    HoldsMu(pc) == 0 && Writes(pc) == 0 && Reads(pc) == 0 && WantsWrite(pc) == 0 && Controls(pc) == 0
  }

  /** A call at an idle point; `base` is the state with the new thread returned. */
  lemma Calls(run: seq<State>, pc: Pc) returns (run': seq<State>, base: State)
    requires IsRun(run) && Idle(Last(run)) && (pc.StartWantMu? || pc.StopWantMu? || pc.StatusWantMu? || pc.SetWantEngine?)
    ensures IsRun(run') && run <= run' && base == Last(run).(threads := Last(run).threads + [Returned])
    ensures Calm(base.threads) && Last(run') == With(base, |base.threads| - 1, pc)
    ensures base.mu == 0 && base.writer == 0 && base.readers == 0
  {
    IdleIsCalm(run);
    base := Last(run).(threads := Last(run).threads + [Returned]);
    run' := Goes(run, Call(pc), Apply(Last(run), Call(pc)));
    assert (Last(run).threads + [Returned])[|base.threads| - 1 := pc] == Last(run).threads + [pc];
  }

  /** A thread that has let go of everything leaves the base. */
  lemma Rests(base: State, i: nat)
    requires i < |base.threads| && base.mu == 0 && base.writer == 0 && base.readers == 0
    requires HoldsMu(base.threads[i]) == 0 && Writes(base.threads[i]) == 0 && Reads(base.threads[i]) == 0
    ensures With(base, i, base.threads[i]) == base
  {
    assert base.threads[i := base.threads[i]] == base.threads;
  }

  // ---- Start ----

  /** A Start that is refused, because auto-sync runs or no watcher can be made, changes nothing. */
  lemma StartRefused(run: seq<State>, delay: nat, watcher: bool) returns (run': seq<State>)
    requires IsRun(run) && Idle(Last(run)) && (Last(run).running || !watcher)
    ensures IsRun(run') && run <= run' && Last(run') == Last(run).(threads := Last(run).threads + [Returned])
  {
    var base;
    run', base := Calls(run, StartWantMu(delay));
    var n := |Last(run).threads|;
    run' := Through(run', base, n, [StartWantMu(delay), StartCheck(delay), StartUnlock, Returned], watcher);
    Rests(base, n);
  }

  /** Up to the point at which the configuration file is added to the watcher. */
  lemma StartToWatch(run: seq<State>, delay: nat) returns (run': seq<State>, base: State)
    requires IsRun(run) && Idle(Last(run)) && !Last(run).running
    ensures IsRun(run') && run <= run'
    ensures var s := Last(run);
      base == s.(threads := s.threads + [Returned], delay := delay, watcherOpen := true, running := true, chan := s.chan + 1)
    ensures Calm(base.threads) && base.mu == 0 && base.writer == 0 && base.readers == 0
    ensures Last(run') == With(base, |Last(run).threads|, StartWatch)
  {
    var idle;
    run', idle := Calls(run, StartWantMu(delay));
    var n := |Last(run).threads|;
    base := idle.(delay := delay, watcherOpen := true, running := true, chan := idle.chan + 1);
    run' := StartSets(run', idle, base, n, delay);
    run' := Through(run', base, n, [StartWantEngine, StartSave, StartWatch], true);
  }

  lemma StartSets(run: seq<State>, idle: State, base: State, n: nat, delay: nat) returns (run': seq<State>)
    requires IsRun(run) && n < |idle.threads| && Calm(idle.threads) && Last(run) == With(idle, n, StartWantMu(delay)) && !idle.running
    requires base == idle.(delay := delay, watcherOpen := true, running := true, chan := idle.chan + 1)
    ensures IsRun(run') && run <= run' && Last(run') == With(base, n, StartWantEngine)
  {
    run' := Through(run, idle, n, [StartWantMu(delay), StartCheck(delay)], true);
    run' := Executes(run', idle, n, StartCheck(delay), true, base, StartWantEngine);
  }

  /** A Start whose file cannot be watched closes the watcher and leaves auto-sync off. */
  lemma StartFails(run: seq<State>, delay: nat) returns (run': seq<State>)
    requires IsRun(run) && Idle(Last(run)) && !Last(run).running
    ensures IsRun(run') && run <= run'
    ensures var s := Last(run);
      Last(run') == s.(threads := s.threads + [Returned], delay := delay, chan := s.chan + 1, watcherOpen := false)
  {
    var base;
    run', base := StartToWatch(run, delay);
    var n := |Last(run).threads|;
    var off := base.(watcherOpen := false, running := false);
    run' := Executes(run', base, n, StartWatch, false, off, StartUnlock);
    run' := Executes(run', off, n, StartUnlock, true, off, Returned);
    Rests(off, n);
  }

  /** A Start that works leaves auto-sync running with the given delay, one new loop and a fresh stop channel. */
  lemma StartWorks(run: seq<State>, delay: nat) returns (run': seq<State>)
    requires IsRun(run) && Idle(Last(run)) && !Last(run).running
    ensures IsRun(run') && run <= run'
    ensures var s := Last(run);
      Last(run') == s.(threads := s.threads + [Returned, LoopSelect(s.chan + 1)], group := s.group + 1,
                       delay := delay, watcherOpen := true, running := true, chan := s.chan + 1)
  {
    var base;
    run', base := StartToWatch(run, delay);
    var n := |Last(run).threads|;
    run' := StartFinishes(run', base, n);
    var on := base.(threads := base.threads + [LoopEnter], group := base.group + 1);
    run' := LoopEnters(run', on, n + 1);
    assert on.threads[n + 1 := LoopSelect(on.chan)] == Last(run).threads + [Returned, LoopSelect(on.chan)];
  }

  /** From there to the return, with the loop that has been started */
  lemma StartFinishes(run: seq<State>, base: State, n: nat) returns (run': seq<State>)
    requires IsRun(run) && n == |base.threads| - 1 && Last(run) == With(base, n, StartWatch) && Calm(base.threads)
    requires base.threads[n] == Returned && base.mu == 0 && base.writer == 0 && base.readers == 0
    ensures IsRun(run') && run <= run'
    ensures Last(run') == With(base.(threads := base.threads + [LoopEnter], group := base.group + 1), n + 1, LoopEnter)
  {
    var on := base.(threads := base.threads + [LoopEnter], group := base.group + 1);
    run' := StartSpawns(run, base, n);
    run' := StartReturns(run', on, n);
    Rests(on, n);
    Rests(on, n + 1);
  }

  lemma StartSpawns(run: seq<State>, base: State, n: nat) returns (run': seq<State>)
    requires IsRun(run) && n < |base.threads| && Last(run) == With(base, n, StartWatch) && Calm(base.threads)
    ensures IsRun(run') && run <= run'
    ensures Last(run') == With(base.(threads := base.threads + [LoopEnter], group := base.group + 1), n, StartUnlock)
  {
    run' := Through(run, base, n, [StartWatch, StartSpawn], true);
    run' := Spawns(run', base, n, StartSpawn, LoopEnter);
  }

  lemma StartReturns(run: seq<State>, base: State, n: nat) returns (run': seq<State>)
    requires IsRun(run) && n < |base.threads| && Last(run) == With(base, n, StartUnlock) && Calm(base.threads)
    ensures IsRun(run') && run <= run' && Last(run') == With(base, n, Returned)
  {
    run' := Through(run, base, n, [StartUnlock, Returned], true);
  }

  lemma LoopEnters(run: seq<State>, base: State, i: nat) returns (run': seq<State>)
    requires IsRun(run) && i < |base.threads| && Last(run) == With(base, i, LoopEnter) && Calm(base.threads)
    ensures IsRun(run') && run <= run' && Last(run') == With(base, i, LoopSelect(base.chan))
  {
    run' := Through(run, base, i, [LoopEnter, LoopSelect(base.chan)], true);
  }

  // ---- Stop ----

  lemma StopRefused(run: seq<State>) returns (run': seq<State>)
    requires IsRun(run) && Idle(Last(run)) && !Last(run).running
    ensures IsRun(run') && run <= run' && Last(run') == Last(run).(threads := Last(run).threads + [Returned])
  {
    var base;
    run', base := Calls(run, StopWantMu);
    var n := |Last(run).threads|;
    run' := Through(run', base, n, [StopWantMu, StopCheck, StopGiveUp, Returned], true);
    Rests(base, n);
  }

  /** The loop of a running manager, which is idle in its select. */
  lemma IdleLoop(run: seq<State>) returns (i: nat)
    requires IsRun(run) && Idle(Last(run)) && Last(run).running
    ensures i < |Last(run).threads| && Last(run).threads[i] == LoopSelect(Last(run).chan)
    ensures forall j :: 0 <= j < |Last(run).threads| && j != i ==> Last(run).threads[j] == Returned
    ensures Last(run).watcherOpen && Last(run).group == 1
  {
    i := RunningMeansWatching(run, |run| - 1);
    RunInv(run, |run| - 1);
    RunWatches(run, |run| - 1);
    SumZero(Last(run).threads, Starting);
  }

  /** Up to the wait: the channel is closed, and the loop has not noticed yet. */
  lemma StopToWait(run: seq<State>) returns (run': seq<State>, base: State)
    requires IsRun(run) && Idle(Last(run)) && Last(run).running
    ensures IsRun(run') && run <= run'
    ensures var s := Last(run);
      base == s.(threads := s.threads + [Returned], closed := s.closed + {s.chan}, running := false)
    ensures Calm(base.threads) && base.mu == 0 && base.writer == 0 && base.readers == 0
    ensures Last(run') == With(base, |Last(run).threads|, StopWait)
  {
    var idle;
    run', idle := Calls(run, StopWantMu);
    run', base := StopCloses(run', idle, |Last(run).threads|);
  }

  lemma StopCloses(run: seq<State>, idle: State, n: nat) returns (run': seq<State>, base: State)
    requires IsRun(run) && n < |idle.threads| && Last(run) == With(idle, n, StopWantMu) && Calm(idle.threads) && idle.running
    ensures IsRun(run') && run <= run' && base == idle.(closed := idle.closed + {idle.chan}, running := false)
    ensures Last(run') == With(base, n, StopWait)
  {
    base := idle.(closed := idle.closed + {idle.chan}, running := false);
    run' := Executes(run, idle, n, StopWantMu, true, idle, StopCheck);
    run' := Executes(run', idle, n, StopCheck, true, base, StopUnlock);
    run' := Through(run', base, n, [StopUnlock, StopWait], true);
  }

  /** The loop, number `i`, sees the closed channel and ends while thread `n` waits for it. */
  lemma LoopEnds(run: seq<State>, base: State, n: nat, i: nat) returns (run': seq<State>)
    requires IsRun(run) && i < n < |base.threads| && Last(run) == With(base, n, StopWait)
    requires base.threads[i] == LoopSelect(base.chan) && base.chan in base.closed && base.group == 1
    ensures IsRun(run') && run <= run'
    ensures Last(run') == With(base.(threads := base.threads[i := Returned], group := 0), n, StopWait)
  {
    var with := With(base, n, StopWait);
    run' := Goes(run, Run(i, true), with.(threads := with.threads[i := LoopExit]));
    run' := LoopLeaves(run', with, i);
    assert with.threads[i := Returned] == base.threads[i := Returned][n := StopWait];
  }

  lemma LoopLeaves(run: seq<State>, with: State, i: nat) returns (run': seq<State>)
    requires IsRun(run) && i < |with.threads| && Last(run) == with.(threads := with.threads[i := LoopExit]) && with.group == 1
    ensures IsRun(run') && run <= run' && Last(run') == with.(threads := with.threads[i := Returned], group := 0)
  {
    LoopExits(Last(run), i);
    Continue(run, Run(i, true));
    run' := run + [Apply(Last(run), Run(i, true))];
    assert Last(run).threads[i := Returned] == with.threads[i := Returned];
  }

  lemma LoopExits(s: State, i: nat)
    requires i < |s.threads| && s.threads[i] == LoopExit && s.group == 1
    ensures Apply(s, Run(i, true)) == s.(threads := s.threads[i := Returned], group := 0)
  {
    assert s.threads[i := Returned] + [] == s.threads[i := Returned];
  }

  /** After the wait: the watcher is closed, the timer stopped, and the setting saved. */
  lemma StopAfterWait(run: seq<State>, base: State, n: nat) returns (run': seq<State>)
    requires IsRun(run) && n < |base.threads| && Last(run) == With(base, n, StopWait) && Calm(base.threads) && base.group == 0
    ensures IsRun(run') && run <= run'
    ensures Last(run') == With(base.(watcherOpen := false, timers := Debounce.Apply(base.timers, Debounce.Cancel)), n, Returned)
  {
    var shut := base.(watcherOpen := false);
    run' := WatcherClosed(run, base, n);
    run' := StopCancels(run', shut, n);
  }

  lemma WatcherClosed(run: seq<State>, base: State, n: nat) returns (run': seq<State>)
    requires IsRun(run) && n < |base.threads| && Last(run) == With(base, n, StopWait) && Calm(base.threads) && base.group == 0
    ensures IsRun(run') && run <= run' && Last(run') == With(base.(watcherOpen := false), n, StopWantMuAgain)
  {
    run' := Executes(run, base, n, StopWait, true, base, StopCloseWatcher);
    run' := Executes(run', base, n, StopCloseWatcher, true, base.(watcherOpen := false), StopWantMuAgain);
  }

  /** The timer is stopped and the setting saved. */
  lemma StopCancels(run: seq<State>, base: State, n: nat) returns (run': seq<State>)
    requires IsRun(run) && n < |base.threads| && Last(run) == With(base, n, StopWantMuAgain) && Calm(base.threads)
    ensures IsRun(run') && run <= run'
    ensures Last(run') == With(base.(timers := Debounce.Apply(base.timers, Debounce.Cancel)), n, Returned)
  {
    run' := TimerStopped(run, base, n);
    run' := StopSaves(run', base.(timers := Debounce.Apply(base.timers, Debounce.Cancel)), n);
  }

  lemma TimerStopped(run: seq<State>, base: State, n: nat) returns (run': seq<State>)
    requires IsRun(run) && n < |base.threads| && Last(run) == With(base, n, StopWantMuAgain) && Calm(base.threads)
    ensures IsRun(run') && run <= run'
    ensures Last(run') == With(base.(timers := Debounce.Apply(base.timers, Debounce.Cancel)), n, StopUnlockAgain)
  {
    var off := base.(timers := Debounce.Apply(base.timers, Debounce.Cancel));
    run' := Through(run, base, n, [StopWantMuAgain, StopCancel], true);
    run' := Executes(run', base, n, StopCancel, true, off, StopUnlockAgain);
  }

  lemma StopSaves(run: seq<State>, base: State, n: nat) returns (run': seq<State>)
    requires IsRun(run) && n < |base.threads| && Last(run) == With(base, n, StopUnlockAgain) && Calm(base.threads)
    ensures IsRun(run') && run <= run' && Last(run') == With(base, n, Returned)
  {
    run' := Through(run, base, n, [StopUnlockAgain, StopWantEngine, StopSave, Returned], true);
  }

  /** A Stop ends the loop, closes channel and watcher and disarms the timer; a later Start finds the same delay. */
  lemma StopWorks(run: seq<State>) returns (run': seq<State>, i: nat)
    requires IsRun(run) && Idle(Last(run)) && Last(run).running
    ensures IsRun(run') && run <= run' && i < |Last(run).threads| && Last(run).threads[i] == LoopSelect(Last(run).chan)
    ensures var s := Last(run);
      Last(run') == s.(threads := s.threads[i := Returned] + [Returned], group := 0, running := false,
                       closed := s.closed + {s.chan}, watcherOpen := false,
                       timers := s.timers.(armed := map[], field := None, log := s.timers.log + [Debounce.Cancelled(s.timers.now)]))
  {
    IdleIsCalm(run);
    i := IdleLoop(run);
    var waiting;
    run', waiting := StopToWait(run);
    var n := |Last(run).threads|;
    run' := LoopEnds(run', waiting, n, i);
    var base := waiting.(threads := waiting.threads[i := Returned], group := 0);
    assert base.threads == Last(run).threads[i := Returned] + [Returned];
    run' := StopAfterWait(run', base, n);
    Debounce.CancelDisarms(base.timers);
    var off := base.(watcherOpen := false, timers := Debounce.Apply(base.timers, Debounce.Cancel));
    Rests(off, n);
  }

  // ---- GetStatus and SetConfig ----

  /** GetStatus only looks. */
  lemma StatusOnlyLooks(run: seq<State>) returns (run': seq<State>)
    requires IsRun(run) && Idle(Last(run))
    ensures IsRun(run') && run <= run' && Last(run') == Last(run).(threads := Last(run).threads + [Returned])
  {
    var base;
    run', base := Calls(run, StatusWantMu);
    var n := |Last(run).threads|;
    run' := Through(run', base, n, [StatusWantMu, StatusWantEngine, StatusRead, StatusUnlock, Returned], true);
    Rests(base, n);
  }

  /** While auto-sync is off, or when saving fails, SetConfig requests no sync. */
  lemma SetConfigQuietly(run: seq<State>, saved: bool) returns (run': seq<State>)
    requires IsRun(run) && Idle(Last(run)) && (!Last(run).running || !saved)
    ensures IsRun(run') && run <= run' && Last(run') == Last(run).(threads := Last(run).threads + [Returned])
  {
    var base;
    run', base := Calls(run, SetWantEngine);
    var n := |Last(run).threads|;
    run' := Through(run', base, n, [SetWantEngine, SetSave, SetUnlock, Returned], saved);
    Rests(base, n);
  }

  /** A timer field and an armed timer for the last entry of the log, and nothing else armed. */
  ghost predicate Requests(t: Debounce.State, t': Debounce.State, delay: nat) {
    && t'.now == t.now && t'.log == t.log + [Debounce.Requested(t.now, delay)]
    && t'.field.Some? && t'.armed == map[t'.field.value := Debounce.Timer(t.now + delay, delay)]
  }

  lemma RequestRequests(t: Debounce.State, delay: nat)
    requires Debounce.ArmedForLastRequest(t)
    ensures Requests(t, Debounce.Apply(t, Debounce.Request(delay)), delay)
  {
    assert Debounce.StopField(t) == map[];
  }

  /** While auto-sync runs, a SetConfig that saves leaves exactly one timer armed, one delay from now. */
  lemma SetConfigRequests(run: seq<State>) returns (run': seq<State>)
    requires IsRun(run) && Idle(Last(run)) && Last(run).running
    ensures IsRun(run') && run <= run' && Requests(Last(run).timers, Last(run').timers, Last(run).delay)
    ensures Last(run') == Last(run).(threads := Last(run).threads + [Returned, Returned], timers := Last(run').timers)
  {
    IdleIsCalm(run);
    var base;
    run', base := Calls(run, SetWantEngine);
    var n := |Last(run).threads|;
    run' := SetConfigStarts(run', base, n);
    var with := base.(threads := base.threads + [RequestWantMu]);
    run' := RequestGoes(run', with, n + 1);
    RequestRequests(base.timers, base.delay);
    assert with.threads[n + 1 := Returned] == Last(run).threads + [Returned, Returned];
  }

  lemma SetConfigLocks(run: seq<State>, base: State, n: nat) returns (run': seq<State>)
    requires IsRun(run) && n < |base.threads| && Last(run) == With(base, n, SetWantEngine) && Calm(base.threads)
    ensures IsRun(run') && run <= run' && Last(run') == With(base, n, SetSave)
  {
    run' := Through(run, base, n, [SetWantEngine, SetSave], true);
  }

  lemma SetConfigSpawns(run: seq<State>, base: State, n: nat) returns (run': seq<State>)
    requires IsRun(run) && n < |base.threads| && Last(run) == With(base, n, SetWantEngine) && Calm(base.threads) && base.running
    ensures IsRun(run') && run <= run'
    ensures Last(run') == With(base.(threads := base.threads + [RequestWantMu]), n, SetUnlock)
  {
    run' := SetConfigLocks(run, base, n);
    run' := Spawns(run', base, n, SetSave, RequestWantMu);
  }

  /** SetConfig to its return, with the request it has started */
  lemma SetConfigStarts(run: seq<State>, base: State, n: nat) returns (run': seq<State>)
    requires IsRun(run) && n == |base.threads| - 1 && Last(run) == With(base, n, SetWantEngine) && Calm(base.threads) && base.running
    requires base.threads[n] == Returned && base.mu == 0 && base.writer == 0 && base.readers == 0
    ensures IsRun(run') && run <= run'
    ensures Last(run') == With(base.(threads := base.threads + [RequestWantMu]), n + 1, RequestWantMu)
  {
    var with := base.(threads := base.threads + [RequestWantMu]);
    run' := SetConfigSpawns(run, base, n);
    run' := SetConfigReturns(run', with, n);
    Rests(with, n);
    Rests(with, n + 1);
  }

  lemma SetConfigReturns(run: seq<State>, base: State, n: nat) returns (run': seq<State>)
    requires IsRun(run) && n < |base.threads| && Last(run) == With(base, n, SetUnlock) && Calm(base.threads)
    ensures IsRun(run') && run <= run' && Last(run') == With(base, n, Returned)
  {
    run' := Through(run, base, n, [SetUnlock, Returned], true);
  }

  /** The statement that arms the timer */
  lemma Arms(run: seq<State>, base: State, i: nat, pc: Pc, pc': Pc) returns (run': seq<State>, armed: State)
    requires IsRun(run) && i < |base.threads| && Calm(base.threads) && Last(run) == With(base, i, pc)
    requires (pc == RequestArm && pc' == RequestUnlock) || (pc == LoopArm && pc' == LoopUnlock)
    ensures armed == base.(timers := Debounce.Apply(base.timers, Debounce.Request(base.delay)))
    ensures IsRun(run') && run <= run' && Last(run') == With(armed, i, pc')
  {
    armed := Effect(base, pc, true);
    run' := Executes(run, base, i, pc, true, armed, pc');
  }

  lemma RequestGoes(run: seq<State>, base: State, i: nat) returns (run': seq<State>)
    requires IsRun(run) && i < |base.threads| && Calm(base.threads) && Last(run) == With(base, i, RequestWantMu)
    ensures IsRun(run') && run <= run'
    ensures Last(run') == With(base.(timers := Debounce.Apply(base.timers, Debounce.Request(base.delay))), i, Returned)
  {
    run' := RequestLocks(run, base, i);
    var armed;
    run', armed := Arms(run', base, i, RequestArm, RequestUnlock);
    run' := RequestReturns(run', armed, i);
  }

  lemma RequestLocks(run: seq<State>, base: State, i: nat) returns (run': seq<State>)
    requires IsRun(run) && i < |base.threads| && Last(run) == With(base, i, RequestWantMu) && Calm(base.threads)
    ensures IsRun(run') && run <= run' && Last(run') == With(base, i, RequestArm)
  {
    run' := Through(run, base, i, [RequestWantMu, RequestArm], true);
  }

  lemma RequestReturns(run: seq<State>, base: State, i: nat) returns (run': seq<State>)
    requires IsRun(run) && i < |base.threads| && Last(run) == With(base, i, RequestUnlock) && Calm(base.threads)
    ensures IsRun(run') && run <= run' && Last(run') == With(base, i, Returned)
  {
    run' := Through(run, base, i, [RequestUnlock, Returned], true);
  }

  // ---- File events and syncs ----

  /** An ignored file event leaves no trace. */
  lemma IgnoredEvent(run: seq<State>) returns (run': seq<State>)
    requires IsRun(run) && Idle(Last(run)) && Last(run).running
    ensures IsRun(run') && run < run' && Last(run') == Last(run)
  {
    IdleIsCalm(run);
    var i := IdleLoop(run);
    var base := Last(run);
    run' := Goes(run, FileEvent(i, true), base.(threads := base.threads[i := LoopEnter]));
    run' := Executes(run', base, i, LoopEnter, true, base, LoopSelect(base.chan));
    Rests(base, i);
  }

  /** Any other one leaves exactly one timer armed, one delay from now, and the loop back in its select. */
  lemma EventRequests(run: seq<State>) returns (run': seq<State>)
    requires IsRun(run) && Idle(Last(run)) && Last(run).running
    ensures IsRun(run') && run <= run' && Requests(Last(run).timers, Last(run').timers, Last(run).delay)
    ensures Last(run') == Last(run).(timers := Last(run').timers)
  {
    IdleIsCalm(run);
    var i := IdleLoop(run);
    var base := Last(run);
    run' := Goes(run, FileEvent(i, false), base.(threads := base.threads[i := LoopWantMu]));
    run' := LoopArms(run', base, i);
    run' := LoopReturns(run', base.(timers := Debounce.Apply(base.timers, Debounce.Request(base.delay))), i);
    Rests(base.(timers := Debounce.Apply(base.timers, Debounce.Request(base.delay))), i);
    RequestRequests(base.timers, base.delay);
  }

  lemma LoopArms(run: seq<State>, base: State, i: nat) returns (run': seq<State>)
    requires IsRun(run) && i < |base.threads| && Calm(base.threads) && Last(run) == With(base, i, LoopWantMu)
    ensures IsRun(run') && run <= run'
    ensures Last(run') == With(base.(timers := Debounce.Apply(base.timers, Debounce.Request(base.delay))), i, LoopUnlock)
  {
    run' := Through(run, base, i, [LoopWantMu, LoopArm], true);
    var armed;
    run', armed := Arms(run', base, i, LoopArm, LoopUnlock);
  }

  lemma LoopReturns(run: seq<State>, base: State, i: nat) returns (run': seq<State>)
    requires IsRun(run) && i < |base.threads| && Last(run) == With(base, i, LoopUnlock) && Calm(base.threads)
    ensures IsRun(run') && run <= run' && Last(run') == With(base, i, LoopSelect(base.chan))
  {
    run' := Through(run, base, i, [LoopUnlock, LoopEnter, LoopSelect(base.chan)], true);
  }

  lemma TimerFires(t: Debounce.State, id: nat)
    requires Debounce.Inv(t) && Debounce.Enabled(t, Debounce.Fire(id))
    ensures Debounce.Apply(t, Debounce.Fire(id)) == t.(armed := map[], log := t.log + [Debounce.Fired(t.now, t.armed[id].delay)])
  {
    Debounce.FireDisarms(t, id);
    assert t.armed - {id} == map[];
  }

  lemma FiringIsWith(s: State, base: State, id: nat)
    requires Enabled(s, Fire(id)) && s.mu == 0 && s.writer == 0 && s.readers == 0
    requires base == s.(threads := s.threads + [Returned], timers := Debounce.Apply(s.timers, Debounce.Fire(id)))
    ensures Apply(s, Fire(id)) == With(base, |s.threads|, SyncWantEngine)
  {
    assert (s.threads + [Returned])[|s.threads| := SyncWantEngine] == s.threads + [SyncWantEngine];
  }

  /** One performSync, started by a firing: up to the point at which the configuration is reloaded. */
  lemma SyncStarts(run: seq<State>, id: nat) returns (run': seq<State>, base: State)
    requires IsRun(run) && Idle(Last(run)) && id in Last(run).timers.armed && Last(run).timers.now >= Last(run).timers.armed[id].deadline
    ensures IsRun(run') && run <= run' && Calm(base.threads) && base.mu == 0 && base.writer == 0 && base.readers == 0
    ensures var s := Last(run);
      base == s.(threads := s.threads + [Returned],
                 timers := s.timers.(armed := map[], log := s.timers.log + [Debounce.Fired(s.timers.now, s.timers.armed[id].delay)]))
    ensures Last(run') == With(base, |Last(run).threads|, SyncWantEngine)
  {
    IdleIsCalm(run);
    var s := Last(run);
    TimerFires(s.timers, id);
    base := s.(threads := s.threads + [Returned], timers := Debounce.Apply(s.timers, Debounce.Fire(id)));
    Continue(run, Fire(id));
    run' := run + [Apply(s, Fire(id))];
    FiringIsWith(s, base, id);
  }

  /** A sync that cannot reload the configuration, or has no destination, leaves lastSync alone. */
  lemma FiringWithoutSync(run: seq<State>, id: nat, loads: bool) returns (run': seq<State>)
    requires IsRun(run) && Idle(Last(run)) && id in Last(run).timers.armed && Last(run).timers.now >= Last(run).timers.armed[id].deadline
    ensures IsRun(run') && run <= run'
    ensures var s := Last(run);
      Last(run') == s.(threads := s.threads + [Returned],
                       timers := s.timers.(armed := map[], log := s.timers.log + [Debounce.Fired(s.timers.now, s.timers.armed[id].delay)]))
  {
    var base;
    run', base := SyncStarts(run, id);
    var n := |Last(run).threads|;
    run' := SyncWithout(run', base, n, loads);
    Rests(base, n);
  }

  lemma SyncWithout(run: seq<State>, base: State, n: nat, loads: bool) returns (run': seq<State>)
    requires IsRun(run) && n < |base.threads| && Last(run) == With(base, n, SyncWantEngine) && Calm(base.threads)
    ensures IsRun(run') && run <= run' && Last(run') == With(base, n, Returned)
  {
    if loads {
      run' := SyncLists(run, base, n);
      run' := Executes(run', base, n, SyncList, false, base, Returned);
    } else {
      run' := SyncFailsToLoad(run, base, n);
    }
  }

  lemma SyncLists(run: seq<State>, base: State, n: nat) returns (run': seq<State>)
    requires IsRun(run) && n < |base.threads| && Last(run) == With(base, n, SyncWantEngine) && Calm(base.threads)
    ensures IsRun(run') && run <= run' && |run'| == |run| + 2 && Last(run') == With(base, n, SyncList)
  {
    run' := Through(run, base, n, [SyncWantEngine, SyncLoad, SyncList], true);
  }

  lemma SyncFailsToLoad(run: seq<State>, base: State, n: nat) returns (run': seq<State>)
    requires IsRun(run) && n < |base.threads| && Last(run) == With(base, n, SyncWantEngine) && Calm(base.threads)
    ensures IsRun(run') && run <= run' && Last(run') == With(base, n, Returned)
  {
    run' := Through(run, base, n, [SyncWantEngine, SyncLoad, Returned], false);
  }

  lemma SyncDestination(run: seq<State>, base: State, n: nat) returns (run': seq<State>)
    requires IsRun(run) && n < |base.threads| && Last(run) == With(base, n, SyncNext) && Calm(base.threads)
    ensures IsRun(run') && run <= run' && |run'| == |run| + 3 && Last(run') == With(base, n, SyncNext)
  {
    run' := Through(run, base, n, [SyncNext, SyncWantRead, SyncRead, SyncNext], true);
  }

  /** The loop over the destinations looks at the engine once for each. */
  lemma {:induction false} SyncDestinations(run: seq<State>, base: State, n: nat, destinations: nat) returns (run': seq<State>)
    requires IsRun(run) && n < |base.threads| && Last(run) == With(base, n, SyncNext) && Calm(base.threads)
    ensures IsRun(run') && run <= run' && Last(run') == With(base, n, SyncNext) && |run'| == |run| + 3 * destinations
    decreases destinations
  {
    if destinations == 0 {
      run' := run;
    } else {
      run' := SyncDestination(run, base, n);
      run' := SyncDestinations(run', base, n, destinations - 1);
    }
  }

  /** A sync that reloads the configuration and has destinations visits them all and sets lastSync to the current time. */
  lemma FiringSyncs(run: seq<State>, id: nat, destinations: nat) returns (run': seq<State>)
    requires IsRun(run) && Idle(Last(run)) && id in Last(run).timers.armed && Last(run).timers.now >= Last(run).timers.armed[id].deadline
    requires destinations > 0
    ensures IsRun(run') && run <= run' && |run'| > |run| + 3 * destinations
    ensures var s := Last(run);
      Last(run') == s.(threads := s.threads + [Returned], lastSync := Some(s.timers.now),
                       timers := s.timers.(armed := map[], log := s.timers.log + [Debounce.Fired(s.timers.now, s.timers.armed[id].delay)]))
  {
    var base;
    run', base := SyncStarts(run, id);
    var n := |Last(run).threads|;
    run' := SyncBegins(run', base, n);
    run' := SyncDestinations(run', base, n, destinations);
    run' := SyncEnds(run', base, n);
    Rests(base.(lastSync := Some(base.timers.now)), n);
  }

  lemma SyncBegins(run: seq<State>, base: State, n: nat) returns (run': seq<State>)
    requires IsRun(run) && n < |base.threads| && Last(run) == With(base, n, SyncWantEngine) && Calm(base.threads)
    ensures IsRun(run') && run <= run' && |run'| == |run| + 3 && Last(run') == With(base, n, SyncNext)
  {
    run' := SyncLists(run, base, n);
    run' := Executes(run', base, n, SyncList, true, base, SyncNext);
  }

  lemma SyncLeaves(run: seq<State>, base: State, n: nat) returns (run': seq<State>)
    requires IsRun(run) && n < |base.threads| && Last(run) == With(base, n, SyncNext) && Calm(base.threads)
    ensures IsRun(run') && run <= run' && |run'| == |run| + 2 && Last(run') == With(base, n, SyncStamp)
  {
    run' := Through(run, base, n, [SyncNext, SyncWantMu, SyncStamp], false);
  }

  lemma SyncEnds(run: seq<State>, base: State, n: nat) returns (run': seq<State>)
    requires IsRun(run) && n < |base.threads| && Last(run) == With(base, n, SyncNext) && Calm(base.threads)
    ensures IsRun(run') && run <= run' && |run'| == |run| + 3
    ensures Last(run') == With(base.(lastSync := Some(base.timers.now)), n, Returned)
  {
    run' := SyncLeaves(run, base, n);
    run' := Executes(run', base, n, SyncStamp, true, base.(lastSync := Some(base.timers.now)), Returned);
  }

  // ---- From a file event to a sync ----

  /** Whenever auto-sync runs and no Start or Stop is under way, a file event can lead to a sync, one delay after it. */
  lemma EventLeadsToSync(run: seq<State>) returns (run': seq<State>, at: nat)
    requires IsRun(run) && Last(run).running && Sum(Last(run).threads, Controls) == 0
    ensures IsRun(run') && run <= run' && at < |run'| && at >= |run| - 1 && run'[at].timers.now == Last(run).timers.now
    ensures var s, s' := run'[at], Last(run');
      && s'.timers.log == s.timers.log + [Debounce.Requested(s.timers.now, s.delay), Debounce.Fired(s.timers.now + s.delay, s.delay)]
      && s.delay == Last(run).delay && s'.lastSync == Some(s.timers.now + s.delay) && s'.running
  {
    var calm := EverythingCanFinish(run);
    at := |calm| - 1;
    var asked := EventRequests(calm);
    var s := Last(asked);
    var id := s.timers.field.value;
    var ticked := Goes(asked, Tick(s.timers.now + s.delay), s.(timers := s.timers.(now := s.timers.now + s.delay)));
    run' := FiringSyncs(ticked, id, 1);
    assert run'[at] == calm[at];
  }
}
