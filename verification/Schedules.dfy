/** Building runs of auto-sync. */
module Schedules {
  // From any point of any run the threads can be scheduled so that everything under way
  // finishes: a firing leads to a sync, and a watch loop that is wanted is alive.

  import opened Common
  import opened Tally
  import opened AutoSync
  import Debounce

  function Last(run: seq<State>): State
    requires run != []
  {
    run[|run| - 1]
  }

  lemma Continue(run: seq<State>, step: Step)
    requires IsRun(run) && Enabled(Last(run), step)
    ensures IsRun(run + [Apply(Last(run), step)])
  {
    var run' := run + [Apply(Last(run), step)];
    forall k | 0 <= k < |run'| - 1 ensures Next(run'[k], run'[k + 1]) {
      if k < |run| - 1 {
        assert Next(run[k], run[k + 1]);
      }
    }
  }

  lemma Goes(run: seq<State>, step: Step, s': State) returns (run': seq<State>)
    requires IsRun(run) && Enabled(Last(run), step) && s' == Apply(Last(run), step)
    ensures IsRun(run') && Last(run') == s' && run' == run + [s']
  {
    Continue(run, step);
    run' := run + [s'];
  }

  /** One statement, from one program point to the next, that starts no thread. */
  lemma Advance(run: seq<State>, i: nat, ok: bool, pc: Pc, pc': Pc) returns (s': State)
    requires IsRun(run) && i < |Last(run).threads| && Last(run).threads[i] == pc && CanRun(Last(run), pc)
    requires Spawned(Last(run), pc, ok) == [] && Following(Last(run), pc, ok) == pc'
    ensures IsRun(run + [s']) && s'.threads == Last(run).threads[i := pc']
    ensures s'.timers == Effect(Last(run), pc, ok).timers && s'.mu == Last(run).mu - HoldsMu(pc) + HoldsMu(pc')
  {
    s' := Apply(Last(run), Run(i, ok));
    Continue(run, Run(i, ok));
    assert s'.threads == Last(run).threads[i := pc'];
  }

  lemma Two(run: seq<State>, a: State, b: State)
    ensures run + [a] + [b] == run + [a, b]
  {
  }

  // ---- Every call can finish ----

  /** Between performSync's start and its end */
  predicate InSync(pc: Pc) {
    match pc
    case SyncWantEngine | SyncLoad | SyncList | SyncNext | SyncWantRead | SyncRead | SyncWantMu | SyncStamp => true
    case _ => false
  }

  /** No call and no background task under way; a loop waits in its select. */
  ghost predicate Idle(s: State) {
    forall i :: 0 <= i < |s.threads| ==> s.threads[i].Returned? || s.threads[i].LoopSelect?
  }

  /** The outcome that brings a thread to its end: everything works, and no further destination is left. */
  predicate Decide(pc: Pc) {
    !pc.SyncNext?
  }

  /** How many statements are left under `Decide`, counting those of the threads it starts. */
  function Left(pc: Pc): nat {
    match pc
    case Returned => 0
    case StartUnlock | StopSave | StopGiveUp | StatusUnlock | SetUnlock | RequestUnlock | LoopExit | SyncStamp => 1
    case StopWantEngine | StatusRead | RequestArm | LoopSelect(_) | SyncWantMu => 2
    case StopUnlockAgain | StatusWantEngine | RequestWantMu | LoopEnter | SyncNext => 3
    case StopCancel | StatusWantMu | LoopUnlock | SyncRead | SyncList => 4
    case StartSpawn | StopWantMuAgain | SetSave | LoopArm | SyncWantRead | SyncLoad => 5
    case StartWatch | StopCloseWatcher | SetWantEngine | LoopWantMu | SyncWantEngine => 6
    case StartSave | StopWait => 7
    case StartWantEngine | StopUnlock => 8
    case StartCheck(_) | StopCheck => 9
    case StartWantMu(_) | StopWantMu => 10
  }

  lemma LeftShrinks(s: State, pc: Pc)
    requires pc != Returned
    ensures var spawned := Spawned(s, pc, Decide(pc));
            Left(Following(s, pc, Decide(pc))) + (if spawned == [] then 0 else Left(spawned[0])) < Left(pc)
  {
    if !pc.StartSpawn? && !pc.SetSave? {
      SilentShrinks(s, pc);
    }
  }

  lemma SilentShrinks(s: State, pc: Pc)
    requires pc != Returned && !pc.StartSpawn? && !pc.SetSave?
    ensures Left(Following(s, pc, Decide(pc))) < Left(pc)
  {
  }

  /** What one statement does to time, to lastSync and to the thread itself, as far as syncs are concerned. */
  lemma SyncStatement(s: State, pc: Pc)
    ensures var t, pc' := Effect(s, pc, Decide(pc)), Following(s, pc, Decide(pc));
            && t.timers.now == s.timers.now
            && (t.lastSync == s.lastSync || t.lastSync == Some(s.timers.now))
            && (InSync(pc) ==> InSync(pc') || (pc' == Returned && t.lastSync == Some(s.timers.now)))
            && (pc.Returned? ==> pc'.Returned?)
  {
  }

  /** What a later state keeps of an earlier one when no time passes and nothing fails. */
  ghost predicate Served(s: State, s': State) {
    && s'.timers.now == s.timers.now && |s.threads| <= |s'.threads|
    && (s'.lastSync == s.lastSync || s'.lastSync == Some(s.timers.now))
    && (forall i :: 0 <= i < |s.threads| && s.threads[i].Returned? ==> s'.threads[i].Returned?)
    && (forall i :: 0 <= i < |s.threads| && InSync(s.threads[i]) ==>
          InSync(s'.threads[i]) || (s'.threads[i].Returned? && s'.lastSync == Some(s.timers.now)))
  }

  lemma ServedStep(s: State, j: nat, s': State)
    requires j < |s.threads| && s' == Apply(s, Run(j, Decide(s.threads[j])))
    ensures Served(s, s')
  {
    SyncStatement(s, s.threads[j]);
  }

  lemma ServedTrans(a: State, b: State, c: State)
    requires Served(a, b) && Served(b, c)
    ensures Served(a, c)
  {
  }

  /** While no Start or Stop is under way, nobody touches whether and how auto-sync runs. */
  ghost predicate Undisturbed(s: State, s': State) {
    Sum(s.threads, Controls) == 0 ==>
      Sum(s'.threads, Controls) == 0 && s'.running == s.running && s'.delay == s.delay && s'.chan == s.chan
  }

  lemma UndisturbedStep(s: State, j: nat, ok: bool)
    requires j < |s.threads|
    ensures Undisturbed(s, Apply(s, Run(j, ok)))
  {
    var pc := s.threads[j];
    if Sum(s.threads, Controls) == 0 {
      TermAtMostSum(s.threads, j, Controls);
      SumAfterRun(s.threads, j, Following(s, pc, ok), Spawned(s, pc, ok), Controls);
      UncontrolledStatement(s, pc, ok);
    }
  }

  lemma UncontrolledStatement(s: State, pc: Pc, ok: bool)
    requires Controls(pc) == 0
    ensures var t, spawned := Effect(s, pc, ok), Spawned(s, pc, ok);
            && t.running == s.running && t.delay == s.delay && t.chan == s.chan
            && Controls(Following(s, pc, ok)) == 0 && (spawned == [] || Controls(spawned[0]) == 0)
  {
  }

  /** While some call or task is unfinished, one statement of someone's brings all of them closer to their end. */
  lemma Onwards(run: seq<State>, i: nat) returns (s': State)
    requires IsRun(run) && i < |Last(run).threads| && Unfinished(Last(run).threads[i])
    ensures IsRun(run + [s']) && Sum(s'.threads, Left) < Sum(Last(run).threads, Left)
    ensures Served(Last(run), s') && Undisturbed(Last(run), s')
  {
    var s := Last(run);
    var j := UnfinishedMeansProgress(run, |run| - 1, i);
    var pc := s.threads[j];
    s' := Apply(s, Run(j, Decide(pc)));
    Continue(run, Run(j, Decide(pc)));
    LeftShrinks(s, pc);
    SumAfterRun(s.threads, j, Following(s, pc, Decide(pc)), Spawned(s, pc, Decide(pc)), Left);
    ServedStep(s, j, s');
    UndisturbedStep(s, j, Decide(pc));
  }

  /** At every point of every run, some schedule without a tick of the clock finishes everything that is under way. */
  lemma {:induction false} EverythingCanFinish(run: seq<State>) returns (run': seq<State>)
    requires IsRun(run)
    ensures IsRun(run') && run <= run' && Idle(Last(run')) && Served(Last(run), Last(run')) && Undisturbed(Last(run), Last(run'))
    decreases Sum(Last(run).threads, Left)
  {
    var s := Last(run);
    if i :| 0 <= i < |s.threads| && Unfinished(s.threads[i]) {
      var s' := Onwards(run, i);
      run' := EverythingCanFinish(run + [s']);
      ServedTrans(s, s', Last(run'));
    } else {
      run' := run;
    }
  }

  // ---- Firings and syncs ----

  /** The log grows by a firing at the current time. */
  ghost predicate Fires(s: State, s': State) {
    exists delay :: s'.timers.log == s.timers.log + [Debounce.Fired(s.timers.now, delay)]
  }

  /** A timer that fires starts one performSync, which is about to take the engine's lock; nothing else starts one. */
  lemma FiringsStartSyncs(run: seq<State>, k: nat)
    requires IsRun(run) && k + 1 < |run|
    ensures Fires(run[k], run[k + 1]) <==> run[k + 1].threads == run[k].threads + [SyncWantEngine]
    ensures forall i :: 0 <= i < |run[k + 1].threads| && InSync(run[k + 1].threads[i]) ==>
              (i < |run[k].threads| && InSync(run[k].threads[i])) || (i == |run[k].threads| && Fires(run[k], run[k + 1]))
  {
    var s, s' := run[k], run[k + 1];
    assert Next(s, s');
    var step :| Enabled(s, step) && s' == Apply(s, step);
    if step.Fire? {
      FireFires(s, step.id);
    } else {
      OtherStepsDoNotFire(s, step);
      assert InSync((s.threads + [SyncWantEngine])[|s.threads|]);
    }
  }

  lemma FireFires(s: State, id: nat)
    requires Enabled(s, Fire(id))
    ensures Fires(s, Apply(s, Fire(id)))
  {
    assert Apply(s, Fire(id)).timers.log == s.timers.log + [Debounce.Fired(s.timers.now, s.timers.armed[id].delay)];
  }

  lemma OtherStepsDoNotFire(s: State, step: Step)
    requires Enabled(s, step) && !step.Fire?
    ensures !Fires(s, Apply(s, step)) && NoNewSync(s.threads, Apply(s, step).threads)
  {
    match step
    case Call(pc) =>
    case Run(i, ok) =>
      StatementStartsNoSync(s, s.threads[i], ok);
      StatementLogs(s, s.threads[i], ok);
    case FileEvent(_, _) =>
    case Tick(_) =>
  }

  ghost predicate NoNewSync(threads: seq<Pc>, threads': seq<Pc>) {
    forall i :: 0 <= i < |threads'| && InSync(threads'[i]) ==> i < |threads| && InSync(threads[i])
  }

  lemma StatementStartsNoSync(s: State, pc: Pc, ok: bool)
    ensures InSync(Following(s, pc, ok)) ==> InSync(pc)
    ensures var spawned := Spawned(s, pc, ok); spawned == [] || (spawned == [spawned[0]] && !InSync(spawned[0]))
  {
  }

  lemma StatementLogs(s: State, pc: Pc, ok: bool)
    ensures var log, log' := s.timers.log, Effect(s, pc, ok).timers.log;
            log' == log || (|log'| == |log| + 1 && !log'[|log|].Fired?)
  {
  }

  /** From a firing on, the run can go on until the performSync it started has set lastSync and returned. */
  lemma FiringLeadsToSync(run: seq<State>) returns (run': seq<State>)
    requires IsRun(run) && |run| > 1 && Fires(run[|run| - 2], Last(run))
    ensures IsRun(run') && run <= run'
    ensures var i := |run[|run| - 2].threads|; i < |Last(run').threads| && Last(run').threads[i] == Returned
    ensures Last(run').lastSync == Some(Last(run).timers.now)
  {
    FiringsStartSyncs(run, |run| - 2);
    var i := |run[|run| - 2].threads|;
    assert Last(run).threads[i] == SyncWantEngine;
    run' := EverythingCanFinish(run);
  }

  /** lastSync changes only when a performSync stamps the time and returns, and then it does. */
  lemma OnlySyncsStamp(run: seq<State>, k: nat)
    requires IsRun(run) && k + 1 < |run|
    ensures run[k + 1].lastSync == run[k].lastSync || Stamps(run[k], run[k + 1])
    ensures (exists i :: 0 <= i < |run[k].threads| && i < |run[k + 1].threads| && run[k].threads[i] == SyncStamp != run[k + 1].threads[i])
            ==> Stamps(run[k], run[k + 1])
  {
    var s, s' := run[k], run[k + 1];
    assert Next(s, s');
    var step :| Enabled(s, step) && s' == Apply(s, step);
    if step.Run? {
      StampsExactly(s, s.threads[step.i], step.ok);
      assert s'.threads[step.i] == Following(s, s.threads[step.i], step.ok);
    }
  }

  ghost predicate Stamps(s: State, s': State) {
    && (exists i :: 0 <= i < |s.threads| && i < |s'.threads| && s.threads[i] == SyncStamp && s'.threads[i] == Returned)
    && s'.lastSync == Some(s.timers.now)
  }

  lemma StampsExactly(s: State, pc: Pc, ok: bool)
    ensures Effect(s, pc, ok).lastSync == if pc == SyncStamp then Some(s.timers.now) else s.lastSync
    ensures pc == SyncStamp ==> Following(s, pc, ok) == Returned
  {
  }

  /** An armed timer can fire once the clock has come to its deadline. */
  lemma TimerCanFire(run: seq<State>, id: nat) returns (run': seq<State>)
    requires IsRun(run) && id in Last(run).timers.armed
    ensures IsRun(run') && run <= run' && |run'| == |run| + 2
    ensures var t := Last(run).timers.armed[id]; var now := if t.deadline > Last(run).timers.now then t.deadline else Last(run).timers.now;
            && run'[|run|] == Last(run).(timers := Last(run).timers.(now := now))
            && Fires(run'[|run|], Last(run')) && Last(run').timers.now == now && id !in Last(run').timers.armed
  {
    var s := Last(run);
    var to := if s.timers.armed[id].deadline > s.timers.now then s.timers.armed[id].deadline else s.timers.now;
    var first := Goes(run, Tick(to), Apply(s, Tick(to)));
    FireFires(Last(first), id);
    run' := Goes(first, Fire(id), Apply(Last(first), Fire(id)));
  }

  // ---- A running manager watches ----

  function Leaving(pc: Pc): nat {
    if pc.LoopExit? then 1 else 0
  }

  /** Running means that the watcher is open, and that the loop is there once Start has got that far. */
  ghost predicate Watching(s: State) {
    s.running ==> s.watcherOpen && Sum(s.threads, Leaving) == 0 && (Sum(s.threads, Starting) == 0 ==> s.group == 1)
  }

  /** The statements that matter to watching beside those of the life cycle */
  predicate MattersToWatching(pc: Pc) {
    Matters(pc) || pc.LoopSelect? || pc.StopCloseWatcher?
  }

  lemma OtherStatement(s: State, pc: Pc, ok: bool)
    requires !MattersToWatching(pc)
    ensures var t, pc' := Effect(s, pc, ok), Following(s, pc, ok);
            && t.running == s.running && t.watcherOpen == s.watcherOpen && Starting(pc') == Starting(pc)
            && !pc.StartSpawn? && !pc.LoopExit? && Leaving(pc') == 0
  {
  }

  lemma LeavingAfterRun(s: State, i: nat, ok: bool)
    requires i < |s.threads|
    ensures Leaving(s.threads[i]) <= Sum(s.threads, Leaving) <= Sum(s.threads, InLoop)
    ensures var pc := s.threads[i];
            Sum(Apply(s, Run(i, ok)).threads, Leaving) + Leaving(pc) == Sum(s.threads, Leaving) + Leaving(Following(s, pc, ok))
  {
    var pc := s.threads[i];
    SumMonotone(s.threads, Leaving, InLoop);
    TermAtMostSum(s.threads, i, Leaving);
    SumAfterRun(s.threads, i, Following(s, pc, ok), Spawned(s, pc, ok), Leaving);
  }

  /** In a running manager the loop does not leave, and nobody closes the watcher. */
  lemma RunningKeepsWatching(s: State, i: nat, ok: bool)
    requires Inv(s) && Watching(s) && Enabled(s, Run(i, ok)) && s.running
    ensures Watching(Apply(s, Run(i, ok)))
  {
    var pc := s.threads[i];
    Shares(s.threads, i);
    TotalsAfterRun(s, i, ok);
    LeavingAfterRun(s, i, ok);
    if !MattersToWatching(pc) {
      OtherStatement(s, pc, ok);
    }
  }

  /** Starting begins with an open watcher and no loop. */
  lemma StartingKeepsWatching(s: State, i: nat, ok: bool)
    requires Inv(s) && Enabled(s, Run(i, ok)) && !s.running
    ensures Watching(Apply(s, Run(i, ok)))
  {
    var pc := s.threads[i];
    if pc.StartCheck? {
      Shares(s.threads, i);
      TotalsAfterRun(s, i, ok);
      LeavingAfterRun(s, i, ok);
    } else {
      OnlyStartRuns(s, pc, ok);
    }
  }

  lemma OnlyStartRuns(s: State, pc: Pc, ok: bool)
    requires !s.running && !pc.StartCheck?
    ensures !Effect(s, pc, ok).running
  {
  }

  lemma StepKeepsWatching(s: State, step: Step)
    requires Inv(s) && Watching(s) && Enabled(s, step)
    ensures Watching(Apply(s, step))
  {
    match step
    case Run(i, ok) =>
      if s.running {
        RunningKeepsWatching(s, i, ok);
      } else {
        StartingKeepsWatching(s, i, ok);
      }
    case Call(pc) => NewcomerKeepsWatching(s, Apply(s, step), pc);
    case Fire(_) => NewcomerKeepsWatching(s, Apply(s, step), SyncWantEngine);
    case FileEvent(i, ignored) =>
      SumUpdate(s.threads, i, if ignored then LoopEnter else LoopWantMu, Leaving);
      SumUpdate(s.threads, i, if ignored then LoopEnter else LoopWantMu, Starting);
    case Tick(_) =>
  }

  lemma NewcomerKeepsWatching(s: State, s': State, pc: Pc)
    requires Watching(s) && s'.threads == s.threads + [pc] && Newcomer(pc)
    requires s'.running == s.running && s'.watcherOpen == s.watcherOpen && s'.group == s.group
    ensures Watching(s')
  {
    SumAppend(s.threads, pc, Leaving);
    SumAppend(s.threads, pc, Starting);
  }

  lemma {:induction false} RunWatches(run: seq<State>, n: nat)
    requires IsRun(run) && n < |run|
    ensures Watching(run[n])
    decreases n
  {
    if n > 0 {
      RunWatches(run, n - 1);
      RunInv(run, n - 1);
      assert Next(run[n - 1], run[n]);
      var step :| Enabled(run[n - 1], step) && run[n] == Apply(run[n - 1], step);
      StepKeepsWatching(run[n - 1], step);
    }
  }

  /** While auto-sync runs, its watcher is open and, unless Start is still at work, exactly one loop is alive and not on its way out. */
  lemma RunningMeansWatching(run: seq<State>, n: nat) returns (i: nat)
    requires IsRun(run) && n < |run| && run[n].running
    requires forall k :: 0 <= k < |run[n].threads| ==> run[n].threads[k] !in {StartWantEngine, StartSave, StartWatch, StartSpawn}
    ensures run[n].watcherOpen && run[n].chan !in run[n].closed
    ensures i < |run[n].threads| && InLoop(run[n].threads[i]) == 1 && !run[n].threads[i].LoopExit?
    ensures forall j :: 0 <= j < |run[n].threads| && InLoop(run[n].threads[j]) == 1 ==> j == i
  {
    RunInv(run, n);
    RunWatches(run, n);
    SumZero(run[n].threads, Starting);
    i := PositiveTerm(run[n].threads, InLoop);
    TermAtMostSum(run[n].threads, i, Leaving);
    forall j | 0 <= j < |run[n].threads| && InLoop(run[n].threads[j]) == 1 ensures j == i {
      if j != i {
        SumUpdate(run[n].threads, i, Returned, InLoop);
        TermAtMostSum(run[n].threads[i := Returned], j, InLoop);
      }
    }
  }

  // ---- The locks do their work ----

  /** The statements that read or write the manager's fields */
  predicate TouchesManager(pc: Pc) {
    match pc
    case StartCheck(_) | StartWatch | StopCheck | StopCancel | StatusUnlock | RequestArm | LoopArm | SyncStamp => true
    case _ => false
  }

  /** Those that write the engine's configuration */
  predicate WritesEngine(pc: Pc) {
    match pc
    case StartSave | StopSave | SetSave | SyncLoad => true
    case _ => false
  }

  predicate ReadsEngine(pc: Pc) {
    match pc
    case StatusRead | SyncRead => true
    case _ => false
  }

  lemma OneHolder(s: State, i: nat, j: nat)
    requires Locks(s) && i < |s.threads| && j < |s.threads| && i != j
    ensures HoldsMu(s.threads[i]) == 1 ==> HoldsMu(s.threads[j]) == 0
    ensures Writes(s.threads[i]) == 1 ==> Writes(s.threads[j]) == 0 && Reads(s.threads[j]) == 0
  {
    SumUpdate(s.threads, i, Returned, HoldsMu);
    TermAtMostSum(s.threads[i := Returned], j, HoldsMu);
    SumUpdate(s.threads, i, Returned, Writes);
    TermAtMostSum(s.threads[i := Returned], j, Writes);
    TermAtMostSum(s.threads, i, Writes);
    TermAtMostSum(s.threads, j, Reads);
  }

  /** No two threads are ever both about to touch the manager's fields, and nobody reads or writes the engine's configuration beside a writer. */
  lemma NoRaces(run: seq<State>, n: nat, i: nat, j: nat)
    requires IsRun(run) && n < |run| && i < |run[n].threads| && j < |run[n].threads| && i != j
    ensures TouchesManager(run[n].threads[i]) ==> !TouchesManager(run[n].threads[j])
    ensures WritesEngine(run[n].threads[i]) ==> !WritesEngine(run[n].threads[j]) && !ReadsEngine(run[n].threads[j])
  {
    RunInv(run, n);
    OneHolder(run[n], i, j);
  }

  /** A reader does not get past a waiting writer. */
  lemma WritersFirst(run: seq<State>, k: nat, i: nat, j: nat)
    requires IsRun(run) && k + 1 < |run| && i < |run[k].threads| && j < |run[k].threads|
    requires run[k].threads[i] in {StartWantEngine, StopWantEngine, SetWantEngine, SyncWantEngine}
    requires run[k].threads[j] in {StatusWantEngine, SyncWantRead}
    ensures j < |run[k + 1].threads| && run[k + 1].threads[j] == run[k].threads[j]
  {
    assert Next(run[k], run[k + 1]);
    var step :| Enabled(run[k], step) && run[k + 1] == Apply(run[k], step);
    ReaderWaits(run[k], i, j);
    OthersStay(run[k], step, j);
  }

  lemma ReaderWaits(s: State, i: nat, j: nat)
    requires i < |s.threads| && j < |s.threads| && WantsWrite(s.threads[i]) == 1
    requires s.threads[j] in {StatusWantEngine, SyncWantRead}
    ensures !CanRun(s, s.threads[j])
  {
    TermAtMostSum(s.threads, i, WantsWrite);
  }

  /** A step moves the thread that it runs and no other. */
  lemma OthersStay(s: State, step: Step, j: nat)
    requires Enabled(s, step) && j < |s.threads| && !s.threads[j].LoopSelect? && !CanRun(s, s.threads[j])
    ensures j < |Apply(s, step).threads| && Apply(s, step).threads[j] == s.threads[j]
  {
    if step.Run? || step.FileEvent? {
      assert step.i != j;
    }
  }
}
