/** Auto-sync as a protocol over two locks. */
module AutoSync {
  // Any number of threads run Start, Stop, GetStatus, SetConfig, debouncedSync, performSync
  // and the watch loop, one statement at a time. Callers never overlap Start and Stop. `mu`
  // is the manager's mutex; the engine's read-write lock lets no new reader in while a
  // writer waits.

  import opened Common
  import opened Tally
  import Debounce

  /** Where a thread is; the comment says what it does next. */
  datatype Pc =
    // Start
    | StartWantMu(delay: nat)
    | StartCheck(delay: nat)   // already running, or no watcher: give up; else set the fields
    | StartWantEngine
    | StartSave                // persist the settings, unlock the engine
    | StartWatch               // add the config file to the watcher, which may fail
    | StartSpawn               // wg.Add and start the loop
    | StartUnlock
    // Stop
    | StopWantMu
    | StopCheck                // not running: give up; else close the channel
    | StopGiveUp
    | StopUnlock
    | StopWait                 // wg.Wait
    | StopCloseWatcher
    | StopWantMuAgain
    | StopCancel               // stop the debounce timer
    | StopUnlockAgain
    | StopWantEngine
    | StopSave                 // persist, unlock the engine, return
    // GetStatus
    | StatusWantMu
    | StatusWantEngine
    | StatusRead
    | StatusUnlock
    // SetConfig
    | SetWantEngine
    | SetSave                  // save; if running, start a debouncedSync
    | SetUnlock
    // debouncedSync, started by SetConfig
    | RequestWantMu
    | RequestArm
    | RequestUnlock
    // the watch loop
    | LoopEnter                // evaluate the stop channel and enter the select
    | LoopSelect(chan: nat)
    | LoopWantMu               // a file event: debouncedSync, inline
    | LoopArm
    | LoopUnlock
    | LoopExit                 // wg.Done
    // performSync, started by the timer
    | SyncWantEngine
    | SyncLoad                 // reload the configuration, which may fail; unlock the engine
    | SyncList                 // no destinations: return
    | SyncNext                 // another destination, or finish
    | SyncWantRead
    | SyncRead                 // look at the engine under the read lock
    | SyncWantMu
    | SyncStamp                // set lastSync, unlock
    | Returned

  datatype State = State(
    threads: seq<Pc>,
    mu: int,
    writer: int,
    readers: int,
    group: int,
    running: bool,
    chan: nat,
    closed: set<nat>,
    watcherOpen: bool,
    delay: nat,
    timers: Debounce.State,
    lastSync: Option<nat>)

  const INITIAL := State([], 0, 0, 0, 0, false, 0, {}, false, 0, Debounce.INITIAL, None)

  /** `Call` is a caller's doing; `Event`, `Tick` and `Fire` come from outside; `Run` is one statement of thread `i`. */
  datatype Step =
    | Call(pc: Pc)
    | Run(i: nat, ok: bool)
    | FileEvent(i: nat, ignored: bool)
    | Tick(to: nat)
    | Fire(id: nat)

  // ---- What a program point stands for ----

  function HoldsMu(pc: Pc): nat {
    match pc
    case StartCheck(_) | StartWantEngine | StartSave | StartWatch | StartSpawn | StartUnlock
       | StopCheck | StopGiveUp | StopUnlock | StopCancel | StopUnlockAgain
       | StatusWantEngine | StatusRead | StatusUnlock
       | RequestArm | RequestUnlock | LoopArm | LoopUnlock | SyncStamp => 1
    case _ => 0
  }

  function WantsMu(pc: Pc): nat {
    match pc
    case StartWantMu(_) | StopWantMu | StopWantMuAgain | StatusWantMu | RequestWantMu | LoopWantMu | SyncWantMu => 1
    case _ => 0
  }

  function Writes(pc: Pc): nat {
    match pc
    case StartSave | StopSave | SetSave | SetUnlock | SyncLoad => 1
    case _ => 0
  }

  function WantsWrite(pc: Pc): nat {
    match pc
    case StartWantEngine | StopWantEngine | SetWantEngine | SyncWantEngine => 1
    case _ => 0
  }

  function Reads(pc: Pc): nat {
    match pc
    case StatusRead | SyncRead => 1
    case _ => 0
  }

  function WantsRead(pc: Pc): nat {
    match pc
    case StatusWantEngine | SyncWantRead => 1
    case _ => 0
  }

  function InLoop(pc: Pc): nat {
    match pc
    case LoopEnter | LoopSelect(_) | LoopWantMu | LoopArm | LoopUnlock | LoopExit => 1
    case _ => 0
  }

  /** A Start or a Stop in progress */
  function Controls(pc: Pc): nat {
    match pc
    case StartWantMu(_) | StartCheck(_) | StartWantEngine | StartSave | StartWatch | StartSpawn | StartUnlock
       | StopWantMu | StopCheck | StopGiveUp | StopUnlock | StopWait | StopCloseWatcher | StopWantMuAgain
       | StopCancel | StopUnlockAgain | StopWantEngine | StopSave => 1
    case _ => 0
  }

  /** A Start that has set the fields and not yet started the loop */
  function Starting(pc: Pc): nat {
    match pc
    case StartWantEngine | StartSave | StartWatch | StartSpawn => 1
    case _ => 0
  }

  /** A Stop that has closed the channel and not yet seen the loop end */
  function Draining(pc: Pc): nat {
    match pc
    case StopUnlock | StopWait => 1
    case _ => 0
  }

  /** A Stop that has seen the loop end */
  function Stopped(pc: Pc): nat {
    match pc
    case StopCloseWatcher | StopWantMuAgain | StopCancel | StopUnlockAgain | StopWantEngine | StopSave => 1
    case _ => 0
  }

  /** A debouncedSync started by SetConfig that has not armed the timer yet */
  function InFlight(pc: Pc): nat {
    match pc
    case RequestWantMu | RequestArm => 1
    case _ => 0
  }

  // ---- Steps ----

  ghost predicate Enabled(s: State, step: Step) {
    match step
    case Call(pc) =>
      if pc.StartWantMu? || pc.StopWantMu? then Sum(s.threads, Controls) == 0
      else pc.StatusWantMu? || pc.SetWantEngine?
    case Run(i, _) => i < |s.threads| && CanRun(s, s.threads[i])
    case FileEvent(i, _) => i < |s.threads| && s.threads[i].LoopSelect? && s.watcherOpen
    case Tick(to) => Debounce.Enabled(s.timers, Debounce.Tick(to))
    case Fire(id) => Debounce.Enabled(s.timers, Debounce.Fire(id))
  }

  /** Whether a thread's next statement can be executed now. */
  ghost predicate CanRun(s: State, pc: Pc) {
    if WantsMu(pc) == 1 then s.mu == 0
    else if WantsWrite(pc) == 1 then s.writer == 0 && s.readers == 0
    else if WantsRead(pc) == 1 then s.writer == 0 && Sum(s.threads, WantsWrite) == 0
    else if pc.StopWait? then s.group == 0
    else if pc.LoopSelect? then pc.chan in s.closed || !s.watcherOpen
    else !pc.Returned?
  }

  /** The thread's next point. */
  function Following(s: State, pc: Pc, ok: bool): Pc {
    match pc
    case StartWantMu(d) => StartCheck(d)
    case StartCheck(d) => if s.running || !ok then StartUnlock else StartWantEngine
    case StartWantEngine => StartSave
    case StartSave => StartWatch
    case StartWatch => if ok then StartSpawn else StartUnlock
    case StartSpawn => StartUnlock
    case StartUnlock => Returned
    case StopWantMu => StopCheck
    case StopCheck => if s.running then StopUnlock else StopGiveUp
    case StopGiveUp => Returned
    case StopUnlock => StopWait
    case StopWait => StopCloseWatcher
    case StopCloseWatcher => StopWantMuAgain
    case StopWantMuAgain => StopCancel
    case StopCancel => StopUnlockAgain
    case StopUnlockAgain => StopWantEngine
    case StopWantEngine => StopSave
    case StopSave => Returned
    case StatusWantMu => StatusWantEngine
    case StatusWantEngine => StatusRead
    case StatusRead => StatusUnlock
    case StatusUnlock => Returned
    case SetWantEngine => SetSave
    case SetSave => SetUnlock
    case SetUnlock => Returned
    case RequestWantMu => RequestArm
    case RequestArm => RequestUnlock
    case RequestUnlock => Returned
    case LoopEnter => LoopSelect(s.chan)
    case LoopSelect(_) => LoopExit
    case LoopWantMu => LoopArm
    case LoopArm => LoopUnlock
    case LoopUnlock => LoopEnter
    case LoopExit => Returned
    case SyncWantEngine => SyncLoad
    case SyncLoad => if ok then SyncList else Returned
    case SyncList => if ok then SyncNext else Returned
    case SyncNext => if ok then SyncWantRead else SyncWantMu
    case SyncWantRead => SyncRead
    case SyncRead => SyncNext
    case SyncWantMu => SyncStamp
    case SyncStamp => Returned
    case Returned => Returned
  }

  /** The new thread that a statement starts, if any. */
  function Spawned(s: State, pc: Pc, ok: bool): seq<Pc> {
    if pc.StartSpawn? then [LoopEnter]
    else if pc.SetSave? && ok && s.running then [RequestWantMu]
    else []
  }

  /** What a statement does to the fields other than the locks and the wait group. */
  function Effect(s: State, pc: Pc, ok: bool): State {
    match pc
    case StartCheck(d) =>
      if s.running || !ok then s else s.(delay := d, watcherOpen := true, running := true, chan := s.chan + 1)
    case StartWatch => if ok then s else s.(watcherOpen := false, running := false)
    case StopCheck => if s.running then s.(closed := s.closed + {s.chan}, running := false) else s
    case StopCloseWatcher => s.(watcherOpen := false)
    case StopCancel => s.(timers := Debounce.Apply(s.timers, Debounce.Cancel))
    case RequestArm | LoopArm => s.(timers := Debounce.Apply(s.timers, Debounce.Request(s.delay)))
    case SyncStamp => s.(lastSync := Some(s.timers.now))
    case _ => s
  }

  /** Locks and wait group follow the thread from one point to the next. */
  function Apply(s: State, step: Step): State
    requires step.Tick? ==> Debounce.Enabled(s.timers, Debounce.Tick(step.to))
    requires step.Fire? ==> Debounce.Enabled(s.timers, Debounce.Fire(step.id))
    requires step.Run? || step.FileEvent? ==> step.i < |s.threads|
  {
    match step
    case Call(pc) => s.(threads := s.threads + [pc])
    case Run(i, ok) =>
      var pc := s.threads[i];
      var pc' := Following(s, pc, ok);
      var t := Effect(s, pc, ok);
      t.(threads := s.threads[i := pc'] + Spawned(s, pc, ok),
         mu := s.mu - HoldsMu(pc) + HoldsMu(pc'),
         writer := s.writer - Writes(pc) + Writes(pc'),
         readers := s.readers - Reads(pc) + Reads(pc'),
         group := if pc.StartSpawn? then s.group + 1 else if pc.LoopExit? then s.group - 1 else s.group)
    case FileEvent(i, ignored) => s.(threads := s.threads[i := if ignored then LoopEnter else LoopWantMu])
    case Tick(to) => s.(timers := Debounce.Apply(s.timers, Debounce.Tick(to)))
    case Fire(id) =>
      s.(timers := Debounce.Apply(s.timers, Debounce.Fire(id)), threads := s.threads + [SyncWantEngine])
  }

  ghost predicate Next(s: State, s': State) {
    exists step :: Enabled(s, step) && s' == Apply(s, step)
  }

  // ---- The invariant ----

  ghost predicate Locks(s: State) {
    && s.mu == Sum(s.threads, HoldsMu) <= 1
    && s.writer == Sum(s.threads, Writes) <= 1
    && s.readers == Sum(s.threads, Reads)
    && (s.writer == 1 ==> s.readers == 0)
  }

  ghost predicate LoopsKnowChannel(s: State) {
    forall i :: 0 <= i < |s.threads| && s.threads[i].LoopSelect? ==> s.threads[i].chan == s.chan
  }

  ghost predicate Inv(s: State) {
    Locks(s) && LifecycleOf(s) && LoopsKnowChannel(s) && Debounce.Inv(s.timers)
  }

  // ---- Counting across one step ----

  lemma SumAfterRun(threads: seq<Pc>, i: nat, pc': Pc, spawned: seq<Pc>, f: Pc -> nat)
    requires i < |threads| && |spawned| <= 1
    ensures Sum(threads[i := pc'] + spawned, f) + f(threads[i]) ==
            Sum(threads, f) + f(pc') + if spawned == [] then 0 else f(spawned[0])
  {
    SumUpdate(threads, i, pc', f);
    if spawned == [] {
      assert threads[i := pc'] + spawned == threads[i := pc'];
    } else {
      assert spawned == [spawned[0]];
      SumAppend(threads[i := pc'], spawned[0], f);
    }
  }

  lemma RunKeepsLocks(s: State, i: nat, ok: bool)
    requires Locks(s) && Enabled(s, Run(i, ok))
    ensures Locks(Apply(s, Run(i, ok)))
  {
    var pc := s.threads[i];
    var pc', spawned := Following(s, pc, ok), Spawned(s, pc, ok);
    SumAfterRun(s.threads, i, pc', spawned, HoldsMu);
    SumAfterRun(s.threads, i, pc', spawned, Writes);
    SumAfterRun(s.threads, i, pc', spawned, Reads);
    EnteringMu(s, pc, ok);
    EnteringWrite(s, pc, ok);
    EnteringRead(s, pc, ok);
    SpawnedHoldNothing(s, pc, ok);
  }

  /** A lock is only ever entered from a point that waits for it. */
  lemma EnteringMu(s: State, pc: Pc, ok: bool)
    ensures HoldsMu(Following(s, pc, ok)) > HoldsMu(pc) ==> WantsMu(pc) == 1
  {
  }

  lemma EnteringWrite(s: State, pc: Pc, ok: bool)
    ensures Writes(Following(s, pc, ok)) > Writes(pc) ==> WantsWrite(pc) == 1 && WantsMu(pc) == 0
  {
  }

  lemma EnteringRead(s: State, pc: Pc, ok: bool)
    ensures Reads(Following(s, pc, ok)) > Reads(pc) ==> WantsRead(pc) == 1 && WantsMu(pc) == 0 && WantsWrite(pc) == 0
  {
  }

  lemma SpawnedHoldNothing(s: State, pc: Pc, ok: bool)
    ensures var spawned := Spawned(s, pc, ok);
            spawned == [] || (spawned == [spawned[0]] && HoldsMu(spawned[0]) == 0 && Writes(spawned[0]) == 0 && Reads(spawned[0]) == 0)
  {
  }

  // ---- The life of the watch loop ----

  datatype Totals = Totals(controls: nat, loops: nat, starting: nat, draining: nat, stopped: nat)

  function TotalsOf(threads: seq<Pc>): Totals {
    Totals(Sum(threads, Controls), Sum(threads, InLoop), Sum(threads, Starting), Sum(threads, Draining), Sum(threads, Stopped))
  }

  /** The life-cycle conditions, in terms of how many threads are where. */
  ghost predicate Consistent(t: Totals, group: int, running: bool, chan: nat, closed: set<nat>) {
    && t.controls <= 1
    && group == t.loops <= 1
    && (running ==> chan !in closed)
    && (t.starting > 0 ==> running && group == 0)
    && (t.draining > 0 ==> !running && chan in closed)
    && (t.stopped > 0 ==> !running && group == 0)
    && (!running && t.draining == 0 ==> group == 0)
    && (forall c :: c in closed ==> c <= chan)
  }

  /** A thread's own share of the totals, and what the others can have beside a Start or Stop. */
  lemma Shares(threads: seq<Pc>, i: nat)
    requires i < |threads|
    ensures var t, pc := TotalsOf(threads), threads[i];
            && Controls(pc) <= t.controls && InLoop(pc) <= t.loops
            && Starting(pc) <= t.starting && Draining(pc) <= t.draining && Stopped(pc) <= t.stopped
            && t.starting + Controls(pc) <= t.controls + Starting(pc)
            && t.draining + Controls(pc) <= t.controls + Draining(pc)
            && t.stopped + Controls(pc) <= t.controls + Stopped(pc)
  {
    TermAtMostSum(threads, i, Controls);
    TermAtMostSum(threads, i, InLoop);
    TermAtMostSum(threads, i, Starting);
    TermAtMostSum(threads, i, Draining);
    TermAtMostSum(threads, i, Stopped);
    SumGap(threads, i, Stopped, Controls);
    SumGap(threads, i, Starting, Controls);
    SumGap(threads, i, Draining, Controls);
  }

  lemma TotalsAfterRun(s: State, i: nat, ok: bool)
    requires i < |s.threads|
    ensures var pc, t, t' := s.threads[i], TotalsOf(s.threads), TotalsOf(Apply(s, Run(i, ok)).threads);
            var pc' := Following(s, pc, ok);
            && t'.controls + Controls(pc) == t.controls + Controls(pc')
            && t'.loops + InLoop(pc) == t.loops + InLoop(pc') + (if pc.StartSpawn? then 1 else 0)
            && t'.starting + Starting(pc) == t.starting + Starting(pc')
            && t'.draining + Draining(pc) == t.draining + Draining(pc')
            && t'.stopped + Stopped(pc) == t.stopped + Stopped(pc')
  {
    var pc := s.threads[i];
    var pc', spawned := Following(s, pc, ok), Spawned(s, pc, ok);
    assert Apply(s, Run(i, ok)).threads == s.threads[i := pc'] + spawned;
    TotalsAfterMove(s.threads, i, pc', spawned);
  }

  /** The newcomers of this protocol are a fresh loop or a fresh request. */
  lemma TotalsAfterMove(threads: seq<Pc>, i: nat, pc': Pc, spawned: seq<Pc>)
    requires i < |threads| && (spawned == [] || spawned == [LoopEnter] || spawned == [RequestWantMu])
    ensures var pc, t, t' := threads[i], TotalsOf(threads), TotalsOf(threads[i := pc'] + spawned);
            && t'.controls + Controls(pc) == t.controls + Controls(pc')
            && t'.loops + InLoop(pc) == t.loops + InLoop(pc') + (if spawned == [LoopEnter] then 1 else 0)
            && t'.starting + Starting(pc) == t.starting + Starting(pc')
            && t'.draining + Draining(pc) == t.draining + Draining(pc')
            && t'.stopped + Stopped(pc) == t.stopped + Stopped(pc')
  {
    NewcomerShares(threads, i, pc', spawned, Controls, 0);
    NewcomerShares(threads, i, pc', spawned, InLoop, 1);
    NewcomerShares(threads, i, pc', spawned, Starting, 0);
    NewcomerShares(threads, i, pc', spawned, Draining, 0);
    NewcomerShares(threads, i, pc', spawned, Stopped, 0);
  }

  lemma NewcomerShares(threads: seq<Pc>, i: nat, pc': Pc, spawned: seq<Pc>, f: Pc -> nat, ofLoop: nat)
    requires i < |threads| && (spawned == [] || spawned == [LoopEnter] || spawned == [RequestWantMu])
    requires f(LoopEnter) == ofLoop && f(RequestWantMu) == 0
    ensures Sum(threads[i := pc'] + spawned, f) + f(threads[i]) ==
            Sum(threads, f) + f(pc') + if spawned == [LoopEnter] then ofLoop else 0
  {
    SumAfterRun(threads, i, pc', spawned, f);
  }

  ghost predicate LifecycleOf(s: State) {
    Consistent(TotalsOf(s.threads), s.group, s.running, s.chan, s.closed)
  }

  /** The statements that matter to the life cycle; all others keep every share and every field. */
  predicate Matters(pc: Pc) {
    pc.StartCheck? || pc.StartWatch? || pc.StartSpawn? || pc.StopCheck? || pc.StopWait? || pc.LoopExit?
  }

  lemma QuietShares(s: State, pc: Pc, ok: bool)
    requires !Matters(pc)
    ensures var pc' := Following(s, pc, ok);
            && Controls(pc') <= Controls(pc) && InLoop(pc') == InLoop(pc) && Starting(pc') == Starting(pc)
            && Draining(pc') == Draining(pc) && Stopped(pc') <= Stopped(pc)
  {
  }

  lemma QuietFields(s: State, pc: Pc, ok: bool)
    requires !Matters(pc)
    ensures var t := Effect(s, pc, ok); t.running == s.running && t.chan == s.chan && t.closed == s.closed
  {
  }

  lemma MatteringKeepsLifecycle(s: State, i: nat, ok: bool)
    requires LifecycleOf(s) && Enabled(s, Run(i, ok)) && Matters(s.threads[i])
    ensures LifecycleOf(Apply(s, Run(i, ok)))
  {
    TotalsAfterRun(s, i, ok);
    Shares(s.threads, i);
  }

  lemma RunKeepsLifecycle(s: State, i: nat, ok: bool)
    requires LifecycleOf(s) && Enabled(s, Run(i, ok))
    ensures LifecycleOf(Apply(s, Run(i, ok)))
  {
    TotalsAfterRun(s, i, ok);
    Shares(s.threads, i);
    if Matters(s.threads[i]) {
      MatteringKeepsLifecycle(s, i, ok);
    } else {
      QuietShares(s, s.threads[i], ok);
      QuietFields(s, s.threads[i], ok);
    }
  }

  lemma RunKeepsChannels(s: State, i: nat, ok: bool)
    requires LifecycleOf(s) && LoopsKnowChannel(s) && Enabled(s, Run(i, ok))
    ensures LoopsKnowChannel(Apply(s, Run(i, ok)))
  {
    var s' := Apply(s, Run(i, ok));
    Shares(s.threads, i);
    forall j | 0 <= j < |s'.threads| && s'.threads[j].LoopSelect? ensures s'.threads[j].chan == s'.chan {
      if j < |s.threads| && j != i {
        Shares(s.threads, j);
      }
    }
  }

  // ---- Every step ----

  lemma NewcomerKeepsLocks(s: State, s': State, pc: Pc)
    requires Locks(s) && s'.threads == s.threads + [pc] && HoldsMu(pc) == 0 && Writes(pc) == 0 && Reads(pc) == 0
    requires s'.mu == s.mu && s'.writer == s.writer && s'.readers == s.readers
    ensures Locks(s')
  {
    SumAppend(s.threads, pc, HoldsMu);
    SumAppend(s.threads, pc, Writes);
    SumAppend(s.threads, pc, Reads);
  }

  predicate Newcomer(pc: Pc) {
    pc.StartWantMu? || pc.StopWantMu? || pc.StatusWantMu? || pc.SetWantEngine? || pc.SyncWantEngine?
  }

  lemma NewcomerTotals(threads: seq<Pc>, pc: Pc)
    requires Newcomer(pc)
    ensures var t := TotalsOf(threads); TotalsOf(threads + [pc]) == t.(controls := t.controls + Controls(pc))
  {
    SumAppend(threads, pc, Controls);
    SumAppend(threads, pc, InLoop);
    SumAppend(threads, pc, Starting);
    SumAppend(threads, pc, Draining);
    SumAppend(threads, pc, Stopped);
  }

  /** A new thread holds nothing and is neither a loop nor past the first statement of Start or Stop. */
  lemma NewcomerKeepsInv(s: State, s': State, pc: Pc)
    requires Inv(s) && s'.threads == s.threads + [pc] && Newcomer(pc)
    requires Controls(pc) == 0 || Sum(s.threads, Controls) == 0
    requires s'.mu == s.mu && s'.writer == s.writer && s'.readers == s.readers && s'.group == s.group
    requires s'.running == s.running && s'.chan == s.chan && s'.closed == s.closed
    ensures Locks(s') && LifecycleOf(s') && LoopsKnowChannel(s')
  {
    NewcomerKeepsLocks(s, s', pc);
    NewcomerTotals(s.threads, pc);
  }

  lemma FileEventKeepsInv(s: State, i: nat, ignored: bool)
    requires Inv(s) && Enabled(s, FileEvent(i, ignored))
    ensures Inv(Apply(s, FileEvent(i, ignored)))
  {
    var pc' := if ignored then LoopEnter else LoopWantMu;
    FileEventKeepsLocks(s, i, ignored);
    LoopMoveTotals(s.threads, i, pc');
  }

  lemma LoopMoveTotals(threads: seq<Pc>, i: nat, pc': Pc)
    requires i < |threads| && threads[i].LoopSelect? && (pc'.LoopEnter? || pc'.LoopWantMu?)
    ensures TotalsOf(threads[i := pc']) == TotalsOf(threads)
  {
    TotalsAfterMove(threads, i, pc', []);
    assert threads[i := pc'] + [] == threads[i := pc'];
  }

  lemma FileEventKeepsLocks(s: State, i: nat, ignored: bool)
    requires Locks(s) && Enabled(s, FileEvent(i, ignored))
    ensures Locks(Apply(s, FileEvent(i, ignored)))
  {
    var pc' := if ignored then LoopEnter else LoopWantMu;
    SumUpdate(s.threads, i, pc', HoldsMu);
    SumUpdate(s.threads, i, pc', Writes);
    SumUpdate(s.threads, i, pc', Reads);
  }

  /** The timers only ever take steps of the debounce machine. */
  lemma TimersStep(s: State, step: Step)
    requires Enabled(s, step)
    ensures var t, t' := s.timers, Apply(s, step).timers; t' == t || Debounce.Next(t, t')
  {
    var t, t' := s.timers, Apply(s, step).timers;
    match step
    case Run(i, ok) =>
      var pc := s.threads[i];
      if pc.StopCancel? {
        assert Debounce.Enabled(t, Debounce.Cancel) && t' == Debounce.Apply(t, Debounce.Cancel);
      } else if pc.RequestArm? || pc.LoopArm? {
        assert Debounce.Enabled(t, Debounce.Request(s.delay)) && t' == Debounce.Apply(t, Debounce.Request(s.delay));
      }
    case Tick(to) => assert Debounce.Enabled(t, Debounce.Tick(to)) && t' == Debounce.Apply(t, Debounce.Tick(to));
    case Fire(id) => assert Debounce.Enabled(t, Debounce.Fire(id)) && t' == Debounce.Apply(t, Debounce.Fire(id));
    case Call(_) =>
    case FileEvent(_, _) =>
  }

  lemma TimersKeepInv(s: State, step: Step)
    requires Debounce.Inv(s.timers) && Enabled(s, step)
    ensures Debounce.Inv(Apply(s, step).timers)
  {
    TimersStep(s, step);
    var t, t' := s.timers, Apply(s, step).timers;
    if t' != t {
      var d :| Debounce.Enabled(t, d) && t' == Debounce.Apply(t, d);
      Debounce.StepKeepsInv(t, d);
    }
  }

  lemma CallKeepsInv(s: State, pc: Pc)
    requires Inv(s) && Enabled(s, Call(pc))
    ensures Inv(Apply(s, Call(pc)))
  {
    NewcomerKeepsInv(s, Apply(s, Call(pc)), pc);
  }

  lemma RunKeepsInv(s: State, i: nat, ok: bool)
    requires Inv(s) && Enabled(s, Run(i, ok))
    ensures Inv(Apply(s, Run(i, ok)))
  {
    TimersKeepInv(s, Run(i, ok));
    RunKeepsLocks(s, i, ok);
    RunKeepsLifecycle(s, i, ok);
    RunKeepsChannels(s, i, ok);
  }

  lemma FireKeepsInv(s: State, id: nat)
    requires Inv(s) && Enabled(s, Fire(id))
    ensures Inv(Apply(s, Fire(id)))
  {
    TimersKeepInv(s, Fire(id));
    NewcomerKeepsInv(s, Apply(s, Fire(id)), SyncWantEngine);
  }

  lemma StepKeepsInv(s: State, step: Step)
    requires Inv(s) && Enabled(s, step)
    ensures Inv(Apply(s, step))
  {
    match step
    case Call(pc) => CallKeepsInv(s, pc);
    case Run(i, ok) => RunKeepsInv(s, i, ok);
    case FileEvent(i, ignored) => FileEventKeepsInv(s, i, ignored);
    case Tick(_) => TimersKeepInv(s, step);
    case Fire(id) => FireKeepsInv(s, id);
  }

  ghost predicate IsRun(run: seq<State>) {
    && run != [] && run[0] == INITIAL
    && forall k :: 0 <= k < |run| - 1 ==> Next(run[k], run[k + 1])
  }

  lemma {:induction false} RunInv(run: seq<State>, n: nat)
    requires IsRun(run) && n < |run|
    ensures Inv(run[n])
    decreases n
  {
    if n > 0 {
      RunInv(run, n - 1);
      assert Next(run[n - 1], run[n]);
      var step :| Enabled(run[n - 1], step) && run[n] == Apply(run[n - 1], step);
      StepKeepsInv(run[n - 1], step);
    }
  }

  /** So everything proved about debouncing holds of auto-sync, interleavings included. */
  lemma DebouncingHolds(run: seq<State>, n: nat)
    requires IsRun(run) && n < |run|
    ensures Debounce.Inv(run[n].timers)
  {
    RunInv(run, n);
  }

  // ---- One loop, one close ----

  /** At most one watch loop is alive, and the manager's mutex and the engine's lock each have at most one (writing) owner. */
  lemma AtMostOneLoop(run: seq<State>, n: nat)
    requires IsRun(run) && n < |run|
    ensures Sum(run[n].threads, InLoop) <= 1 && Sum(run[n].threads, HoldsMu) <= 1 && Sum(run[n].threads, Writes) <= 1
    ensures Sum(run[n].threads, Writes) == 1 ==> Sum(run[n].threads, Reads) == 0
  {
    RunInv(run, n);
  }

  /** Closing the stop channel never hits a channel that is closed already, which would panic. */
  lemma CloseOnlyOnce(run: seq<State>, n: nat, i: nat)
    requires IsRun(run) && n < |run| && i < |run[n].threads| && run[n].threads[i].StopCheck? && run[n].running
    ensures run[n].chan !in run[n].closed
    ensures Sum(run[n].threads, Starting) == 0
  {
    RunInv(run, n);
    Shares(run[n].threads, i);
  }

  /** When a Start opens a new channel, no loop of an earlier one is left. */
  lemma NewChannelNoLoop(run: seq<State>, n: nat, i: nat)
    requires IsRun(run) && n < |run| && i < |run[n].threads| && run[n].threads[i].StartCheck? && !run[n].running
    ensures Sum(run[n].threads, InLoop) == 0 && run[n].chan + 1 !in run[n].closed
  {
    RunInv(run, n);
    Shares(run[n].threads, i);
  }

  // ---- Progress ----

  /** A call or a background task that has not finished; an idle loop in its select is not one. */
  predicate Unfinished(pc: Pc) {
    !pc.Returned? && !pc.LoopSelect?
  }

  /** Who holds the engine's lock never waits for the manager's: that one is always taken first. */
  lemma LockOrder(pc: Pc)
    requires Writes(pc) == 1 || Reads(pc) == 1
    ensures WantsMu(pc) == 0 && WantsWrite(pc) == 0 && WantsRead(pc) == 0 && !pc.StopWait? && Unfinished(pc)
  {
  }

  lemma EngineHolderRuns(s: State, i: nat)
    requires i < |s.threads| && (Writes(s.threads[i]) == 1 || Reads(s.threads[i]) == 1)
    ensures Enabled(s, Run(i, true))
  {
    LockOrder(s.threads[i]);
  }

  /** If some thread wants the engine's lock, then its holder, a waiting writer or that thread can run. */
  lemma EngineProgress(s: State, i: nat) returns (j: nat)
    requires Locks(s) && i < |s.threads| && (WantsWrite(s.threads[i]) == 1 || WantsRead(s.threads[i]) == 1)
    ensures Enabled(s, Run(j, true)) && Unfinished(s.threads[j])
  {
    if s.writer > 0 {
      j := PositiveTerm(s.threads, Writes);
      EngineHolderRuns(s, j);
    } else if s.readers > 0 {
      j := PositiveTerm(s.threads, Reads);
      EngineHolderRuns(s, j);
    } else if Sum(s.threads, WantsWrite) > 0 {
      j := PositiveTerm(s.threads, WantsWrite);
    } else {
      TermAtMostSum(s.threads, i, WantsWrite);
      j := i;
    }
  }

  /** If some thread wants the manager's mutex, it can run, or its holder can, or the engine's lock moves on. */
  lemma MuProgress(s: State, i: nat) returns (j: nat)
    requires Locks(s) && i < |s.threads| && WantsMu(s.threads[i]) == 1
    ensures Enabled(s, Run(j, true)) && Unfinished(s.threads[j])
  {
    if s.mu == 0 {
      j := i;
    } else {
      var h := PositiveTerm(s.threads, HoldsMu);
      if WantsWrite(s.threads[h]) == 1 || WantsRead(s.threads[h]) == 1 {
        j := EngineProgress(s, h);
      } else {
        j := h;
      }
    }
  }

  /** A Stop waiting for the loop: the loop can leave its select, or is on its way there. */
  lemma DrainProgress(s: State, i: nat) returns (j: nat)
    requires Inv(s) && i < |s.threads| && s.threads[i].StopWait?
    ensures Enabled(s, Run(j, true)) && (Unfinished(s.threads[j]) || s.threads[j].LoopSelect?)
  {
    Shares(s.threads, i);
    if s.group == 0 {
      j := i;
    } else {
      j := PositiveTerm(s.threads, InLoop);
      if WantsMu(s.threads[j]) == 1 {
        j := MuProgress(s, j);
      }
    }
  }

  /** No deadlock: in every reachable state, an unfinished call leaves some thread able to run. */
  lemma UnfinishedMeansProgress(run: seq<State>, n: nat, i: nat) returns (j: nat)
    requires IsRun(run) && n < |run| && i < |run[n].threads| && Unfinished(run[n].threads[i])
    ensures Enabled(run[n], Run(j, true))
  {
    RunInv(run, n);
    var s := run[n];
    var pc := s.threads[i];
    if WantsMu(pc) == 1 {
      j := MuProgress(s, i);
    } else if WantsWrite(pc) == 1 || WantsRead(pc) == 1 {
      j := EngineProgress(s, i);
    } else if pc.StopWait? {
      j := DrainProgress(s, i);
    } else {
      j := i;
    }
  }

  // ---- After Stop ----

  /** Stopped for good: no loop, no Start past its check, no request under way, and nothing armed. */
  ghost predicate Quiet(s: State) {
    && !s.running && s.group == 0
    && Sum(s.threads, InFlight) == 0
    && s.timers.armed == map[]
  }

  /** The cancellation in Stop leaves nothing armed; with no request in flight, nothing to come either. */
  lemma CancelMakesQuiet(s: State, i: nat, ok: bool)
    requires Inv(s) && i < |s.threads| && s.threads[i].StopCancel? && Sum(s.threads, InFlight) == 0
    ensures Quiet(Apply(s, Run(i, ok)))
  {
    Shares(s.threads, i);
    SumAfterRun(s.threads, i, StopUnlockAgain, [], InFlight);
    Debounce.CancelDisarms(s.timers);
  }

  lemma QuietAfterRun(s: State, i: nat, ok: bool)
    requires Inv(s) && Quiet(s) && Enabled(s, Run(i, ok)) && !Apply(s, Run(i, ok)).running
    ensures Quiet(Apply(s, Run(i, ok)))
  {
    var pc := s.threads[i];
    SumAfterRun(s.threads, i, Following(s, pc, ok), Spawned(s, pc, ok), InFlight);
    TermAtMostSum(s.threads, i, InFlight);
    Shares(s.threads, i);
    StillStatement(s, pc, ok);
  }

  /** With auto-sync off, no loop and no Start past its check, a statement outside a request starts and arms nothing. */
  lemma StillStatement(s: State, pc: Pc, ok: bool)
    requires !s.running && InLoop(pc) == 0 && InFlight(pc) == 0 && Starting(pc) == 0 && s.timers.armed == map[]
    ensures var t := Effect(s, pc, ok);
            && InFlight(Following(s, pc, ok)) == 0 && Spawned(s, pc, ok) == []
            && (t.running || t.timers.armed == map[])
  {
  }

  /** Quiet lasts until a Start sets `running` again, whatever else the threads do. */
  lemma QuietLasts(s: State, step: Step)
    requires Inv(s) && Quiet(s) && Enabled(s, step) && !Apply(s, step).running
    ensures Quiet(Apply(s, step))
  {
    match step
    case Call(pc) => SumAppend(s.threads, pc, InFlight);
    case Run(i, ok) => QuietAfterRun(s, i, ok);
    case FileEvent(i, ignored) => Shares(s.threads, i);
    case Tick(_) =>
    case Fire(_) =>
  }

  /** From the moment Stop has seen the loop end until it returns, `running` stays false: callers do not overlap it with a Start. */
  lemma StopStaysStopped(s: State, i: nat, step: Step)
    requires Inv(s) && i < |s.threads| && Stopped(s.threads[i]) == 1 && Enabled(s, step)
    ensures !Apply(s, step).running
    ensures i < |Apply(s, step).threads|
  {
    Shares(s.threads, i);
    if step.Run? {
      Shares(s.threads, step.i);
    }
  }

  /**
   If no request started by SetConfig is in flight when Stop cancels the timer, then nothing
   is armed at any later moment up to and including the one at which Stop has returned.
   */
  lemma NothingArmedAfterStop(run: seq<State>, n: nat, m: nat, i: nat, ok: bool)
    requires IsRun(run) && n < m < |run|
    requires i < |run[n].threads| && run[n].threads[i].StopCancel? && Sum(run[n].threads, InFlight) == 0
    requires run[n + 1] == Apply(run[n], Run(i, ok))
    requires forall k :: n < k < m ==> i < |run[k].threads| && Stopped(run[k].threads[i]) == 1
    ensures Quiet(run[m])
  {
    assert Quiet(run[n + 1]) by {
      RunInv(run, n);
      CancelMakesQuiet(run[n], i, ok);
    }
    QuietContinues(run, n + 1, m, i);
  }

  lemma {:induction false} QuietContinues(run: seq<State>, n: nat, m: nat, i: nat)
    requires IsRun(run) && n <= m < |run| && Quiet(run[n])
    requires forall k :: n <= k < m ==> i < |run[k].threads| && Stopped(run[k].threads[i]) == 1
    ensures Quiet(run[m])
    decreases m - n
  {
    if n < m {
      QuietNext(run, n, i);
      QuietContinues(run, n + 1, m, i);
    }
  }

  lemma QuietNext(run: seq<State>, k: nat, i: nat)
    requires IsRun(run) && k + 1 < |run| && Quiet(run[k]) && i < |run[k].threads| && Stopped(run[k].threads[i]) == 1
    ensures Quiet(run[k + 1])
  {
    RunInv(run, k);
    assert Next(run[k], run[k + 1]);
    QuietThroughStop(run[k], run[k + 1], i);
  }

  lemma QuietThroughStop(s: State, s': State, i: nat)
    requires Inv(s) && Quiet(s) && Next(s, s') && i < |s.threads| && Stopped(s.threads[i]) == 1
    ensures Quiet(s')
  {
    var step :| Enabled(s, step) && s' == Apply(s, step);
    StopStaysStopped(s, i, step);
    QuietLasts(s, step);
  }
}
