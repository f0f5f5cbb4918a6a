/** The debounce timer as a machine of its own. */
module Debounce {
  // A request stops the timer in the field, if any, and arms a new one; stopping auto-sync
  // stops it too; an armed timer may fire at any moment from its deadline on. Time is a
  // number that never decreases. `log` is the history of what happened.

  import opened Common

  datatype Event =
    | Requested(time: nat, delay: nat)
    | Cancelled(time: nat)
    | Fired(time: nat, delay: nat)

  datatype Timer = Timer(deadline: nat, delay: nat)

  /** `field` is the debounceTimer field: it keeps pointing at a timer that has fired. */
  datatype State = State(now: nat, armed: map<nat, Timer>, field: Option<nat>, nextId: nat, log: seq<Event>)

  const INITIAL := State(0, map[], None, 0, [])

  datatype Step = Tick(to: nat) | Request(delay: nat) | Cancel | Fire(id: nat)

  predicate Enabled(s: State, step: Step) {
    match step
    case Tick(to) => to >= s.now
    case Request(_) => true
    case Cancel => true
    case Fire(id) => id in s.armed && s.now >= s.armed[id].deadline
  }

  /** time.Timer.Stop on the timer in the field; without effect if it has fired already. */
  function StopField(s: State): map<nat, Timer> {
    if s.field.Some? then s.armed - {s.field.value} else s.armed
  }

  function Apply(s: State, step: Step): State
    requires Enabled(s, step)
  {
    match step
    case Tick(to) => s.(now := to)
    case Request(delay) =>
      s.(armed := StopField(s)[s.nextId := Timer(s.now + delay, delay)], field := Some(s.nextId), nextId := s.nextId + 1,
         log := s.log + [Requested(s.now, delay)])
    case Cancel => s.(armed := StopField(s), field := None, log := s.log + [Cancelled(s.now)])
    case Fire(id) => s.(armed := s.armed - {id}, log := s.log + [Fired(s.now, s.armed[id].delay)])
  }

  // ---- The invariant ----

  /** A timer is armed exactly when the last thing that happened was a request, and it is that request's. */
  ghost predicate ArmedForLastRequest(s: State) {
    if s.log != [] && s.log[|s.log| - 1].Requested? then
      var last := s.log[|s.log| - 1];
      s.field.Some? && s.armed == map[s.field.value := Timer(last.time + last.delay, last.delay)]
    else s.armed == map[]
  }

  ghost predicate TimesGrow(log: seq<Event>, now: nat) {
    && (forall i, j :: 0 <= i < j < |log| ==> log[i].time <= log[j].time)
    && (forall i :: 0 <= i < |log| ==> log[i].time <= now)
  }

  /** Every firing answers the request right before it, no sooner than that request's delay. */
  ghost predicate FiringsAnswerRequests(log: seq<Event>) {
    forall j :: 0 <= j < |log| && log[j].Fired? ==>
      j > 0 && log[j - 1].Requested? && log[j].delay == log[j - 1].delay && log[j].time >= log[j - 1].time + log[j - 1].delay
  }

  ghost predicate Inv(s: State) {
    ArmedForLastRequest(s) && TimesGrow(s.log, s.now) && FiringsAnswerRequests(s.log)
  }

  lemma TimesStillGrow(log: seq<Event>, now: nat, e: Event)
    requires TimesGrow(log, now) && e.time == now
    ensures TimesGrow(log + [e], now)
  {
    var log' := log + [e];
    forall i | 0 <= i < |log'| ensures log'[i].time <= now {
    }
    forall i, j | 0 <= i < j < |log'| ensures log'[i].time <= log'[j].time {
      if j < |log| {
        assert log'[i] == log[i] && log'[j] == log[j];
      }
    }
  }

  /** One more entry, at the current time; a firing needs the request it answers to be the last entry. */
  lemma LogGrows(log: seq<Event>, now: nat, e: Event)
    requires TimesGrow(log, now) && FiringsAnswerRequests(log) && e.time == now
    requires e.Fired? ==> log != [] && var last := log[|log| - 1];
      last.Requested? && e.delay == last.delay && now >= last.time + last.delay
    ensures TimesGrow(log + [e], now) && FiringsAnswerRequests(log + [e])
  {
    TimesStillGrow(log, now, e);
    var log' := log + [e];
    forall j | 0 <= j < |log'| && log'[j].Fired?
      ensures j > 0 && log'[j - 1].Requested? && log'[j].delay == log'[j - 1].delay && log'[j].time >= log'[j - 1].time + log'[j - 1].delay
    {
      if j < |log| {
        assert log'[j] == log[j] && log'[j - 1] == log[j - 1];
      }
    }
  }

  lemma RequestArms(s: State, delay: nat)
    requires ArmedForLastRequest(s)
    ensures ArmedForLastRequest(Apply(s, Request(delay))) && Apply(s, Request(delay)).armed != map[]
  {
    assert StopField(s) == map[];
    assert s.nextId in Apply(s, Request(delay)).armed;
  }

  lemma CancelDisarms(s: State)
    requires ArmedForLastRequest(s)
    ensures ArmedForLastRequest(Apply(s, Cancel)) && Apply(s, Cancel).armed == map[]
  {
    assert StopField(s) == map[];
  }

  lemma FireDisarms(s: State, id: nat)
    requires ArmedForLastRequest(s) && Enabled(s, Fire(id))
    ensures ArmedForLastRequest(Apply(s, Fire(id)))
    ensures s.log != [] && var last := s.log[|s.log| - 1];
      last.Requested? && s.armed[id] == Timer(last.time + last.delay, last.delay)
  {
    assert s.armed - {id} == map[];
  }

  lemma StepKeepsInv(s: State, step: Step)
    requires Inv(s) && Enabled(s, step)
    ensures Inv(Apply(s, step))
  {
    match step
    case Tick(_) =>
    case Request(delay) =>
      RequestArms(s, delay);
      LogGrows(s.log, s.now, Requested(s.now, delay));
    case Cancel =>
      CancelDisarms(s);
      LogGrows(s.log, s.now, Cancelled(s.now));
    case Fire(id) =>
      FireDisarms(s, id);
      LogGrows(s.log, s.now, Fired(s.now, s.armed[id].delay));
  }

  // ---- Whole runs ----

  ghost predicate Next(s: State, s': State) {
    exists step :: Enabled(s, step) && s' == Apply(s, step)
  }

  ghost predicate IsRun(run: seq<State>) {
    && run != [] && run[0] == INITIAL
    && forall k :: 0 <= k < |run| - 1 ==> Next(run[k], run[k + 1])
  }

  lemma {:induction false} RunInv(run: seq<State>, n: nat)
    requires IsRun(run) && n < |run|
    ensures Inv(run[n])
    decreases n
  {
    if n > 0 {
      RunInv(run, n - 1);
      var step :| Enabled(run[n - 1], step) && run[n] == Apply(run[n - 1], step);
      StepKeepsInv(run[n - 1], step);
    }
  }

  /** At most one timer is armed, at every point of every run. */
  lemma AtMostOneArmed(s: State)
    requires Inv(s)
    ensures |s.armed| <= 1
  {
    if s.log != [] && s.log[|s.log| - 1].Requested? {
      assert s.armed.Keys == {s.field.value};
      assert |s.armed| == |s.armed.Keys|;
    }
  }

  /** A request that nothing has followed is pending: its timer is armed, for its time plus its delay. */
  lemma PendingRequestIsArmed(s: State)
    requires Inv(s) && s.log != [] && s.log[|s.log| - 1].Requested?
    ensures s.field.Some? && s.armed.Keys == {s.field.value}
    ensures s.armed[s.field.value].deadline == s.log[|s.log| - 1].time + s.log[|s.log| - 1].delay
  {
    assert s.armed.Keys == {s.field.value};
  }

  /** Two firings are at least the later one's delay apart. */
  lemma FiringsAreApart(s: State, i: nat, j: nat)
    requires Inv(s) && i < j < |s.log| && s.log[i].Fired? && s.log[j].Fired?
    ensures s.log[j].time >= s.log[i].time + s.log[j].delay
  {
    assert s.log[j - 1].Requested? && i < j - 1;
  }

  // ---- Bursts ----

  /** From entry `a` on: requests, each before its predecessor's deadline, and firings; no cancellation. */
  ghost predicate Burst(log: seq<Event>, a: nat) {
    && a < |log| && log[a].Requested?
    && (forall i :: a <= i < |log| ==> !log[i].Cancelled?)
    && (forall i, j :: a <= i < j < |log| && log[i].Requested? && log[j].Requested? && NoRequestBetween(log, i, j) ==>
          log[j].time < log[i].time + log[i].delay)
  }

  ghost predicate NoRequestBetween(log: seq<Event>, i: int, j: int) {
    forall k :: i < k < j && 0 <= k < |log| ==> !log[k].Requested?
  }

  function Firings(log: seq<Event>): nat {
    if log == [] then 0 else Firings(log[..|log| - 1]) + if log[|log| - 1].Fired? then 1 else 0
  }

  /** Inside a burst nothing fires: only its very last entry can be a firing. */
  lemma BurstIsQuiet(s: State, a: nat, k: nat)
    requires Inv(s) && Burst(s.log, a) && a <= k < |s.log| - 1
    ensures s.log[k].Requested?
  {
    if s.log[k].Fired? {
      assert s.log[k - 1].Requested? && a <= k - 1;
      assert !s.log[k + 1].Cancelled?;
      assert s.log[k + 1].Requested?;
      assert NoRequestBetween(s.log, k - 1, k + 1);
      assert false;
    }
  }

  /** A burst causes exactly one firing: either it has happened, or its timer is still armed. */
  lemma BurstFiresOnce(s: State, a: nat)
    requires Inv(s) && Burst(s.log, a)
    ensures Firings(s.log[a..]) + |s.armed| == 1
  {
    var n := |s.log|;
    var tail := s.log[a..];
    forall k | 0 <= k < |tail| - 1 ensures tail[k].Requested? {
      BurstIsQuiet(s, a, a + k);
    }
    RequestsDoNotFire(tail[..|tail| - 1]);
    assert tail[|tail| - 1] == s.log[n - 1];
    if s.log[n - 1].Requested? {
      assert s.armed.Keys == {s.field.value};
      assert |s.armed| == |s.armed.Keys|;
    }
  }

  lemma {:induction false} RequestsDoNotFire(log: seq<Event>)
    requires forall k :: 0 <= k < |log| ==> log[k].Requested?
    ensures Firings(log) == 0
    decreases |log|
  {
    if log != [] {
      RequestsDoNotFire(log[..|log| - 1]);
    }
  }
}
