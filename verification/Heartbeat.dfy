/**
  The protocol between the callers and the worker thread of source/Utility/Heartbeat.cpp.

  Every shared field is touched under the mutex, so each stretch of code between two points where the mutex is
  free is one step, and the steps of the callers and the worker interleave in any order.  Waking from a wait may
  be a notification, a timeout or spurious.
 */
module Heartbeat {
  import opened ValueTree

  datatype Vigilance = Terminated | Active | Running | Resetting

  /** Where the worker is while it does not hold the mutex. */
  datatype Worker =
    | Idle                      // waiting to leave the active state
    | Pulsing                   // waiting out one period
    | Fetched(fn: Option<nat>)  // holding a copy of the callback, not yet called
    | Calling(fn: Option<nat>)
    | Exited

  datatype State = State(vigilance: Vigilance, callback: Option<nat>, worker: Worker)

  datatype Step =
    | Stop
    | Start
    | SetCallback(fn: Option<nat>)   // the first half of the other `Start`
    | Restart
    | Terminate                      // the destructor, up to the join
    | Wake                           // the worker leaves a wait
    | BeginCall
    | EndCall

  predicate CanStart(s: State) { s.callback.Some? && s.vigilance == Active }

  predicate CanRestart(s: State) { (s.vigilance == Running || s.vigilance == Resetting) && s.callback.Some? }

  /** The worker with the mutex, at the head of the outer loop. */
  function Outer(s: State): State {
    match s.vigilance
    case Terminated => s.(worker := Exited)
    case Active => s.(worker := Idle)
    case _ => s.(vigilance := Running, worker := Pulsing)
  }

  /** The worker with the mutex, at the head of the inner loop. */
  function Inner(s: State): State {
    if s.vigilance == Resetting || s.vigilance == Running then s.(vigilance := Running, worker := Pulsing) else Outer(s)
  }

  function Woken(s: State): State {
    match s.worker
    case Idle => Outer(s)
    case Pulsing =>
      if s.vigilance == Resetting then Inner(s)
      else if s.vigilance == Running then s.(worker := Fetched(s.callback))
      else Outer(s)
    case _ => s
  }

  function Next(s: State, a: Step): State {
    match a
    case Stop => if s.vigilance == Running || s.vigilance == Resetting then s.(vigilance := Active) else s
    case Start => if CanStart(s) then s.(vigilance := Running) else s
    case SetCallback(fn) => s.(callback := fn)
    case Restart => if CanRestart(s) then s.(vigilance := Resetting) else s
    case Terminate => s.(vigilance := Terminated)
    case Wake => Woken(s)
    case BeginCall => if s.worker.Fetched? then s.(worker := Calling(s.worker.fn)) else s
    case EndCall => if s.worker.Calling? then Inner(s) else s
  }

  function Run(s: State, steps: seq<Step>): State {
    if steps == [] then s else Next(Run(s, steps[..|steps| - 1]), steps[|steps| - 1])
  }

  /** How many callbacks the worker begins in a run. */
  function Begun(s: State, steps: seq<Step>): nat {
    if steps == [] then 0
    else
      var before := Run(s, steps[..|steps| - 1]);
      Begun(s, steps[..|steps| - 1]) + (if steps[|steps| - 1] == BeginCall && before.worker.Fetched? then 1 else 0)
  }

  /** Whether some `Start` of the run returns true. */
  ghost predicate Starts(s: State, steps: seq<Step>) {
    exists i :: 0 <= i < |steps| && steps[i] == Start && CanStart(Run(s, steps[..i]))
  }

  predicate IsStopped(s: State) { s.vigilance == Active || s.vigilance == Terminated }

  lemma StopStops(s: State)
    ensures IsStopped(Next(s, Stop)) && Next(s, Stop).worker == s.worker
  {}

  /**
    After `Stop`, and until a `Start` succeeds, the worker begins at most one more callback: none at all unless it
    had already copied it when `Stop` took the mutex.
   */
  lemma {:induction false} AtMostOneMoreCall(s: State, steps: seq<Step>)
    requires IsStopped(s) && !Starts(s, steps)
    ensures var r := Run(s, steps);
      && IsStopped(r)
      && Begun(s, steps) + (if r.worker.Fetched? then 1 else 0) <= if s.worker.Fetched? then 1 else 0
    decreases |steps|
  {
    if steps != [] {
      var before, last := steps[..|steps| - 1], steps[|steps| - 1];
      assert forall i | 0 <= i < |before| :: before[..i] == steps[..i];
      AtMostOneMoreCall(s, before);
      assert last == Start ==> !CanStart(Run(s, before));
    }
  }

  /** The same, counted from the call of `Stop` in any state. */
  lemma StopIsPrompt(s: State, steps: seq<Step>)
    requires !Starts(Next(s, Stop), steps)
    ensures Begun(Next(s, Stop), steps) <= 1
    ensures !s.worker.Fetched? ==> Begun(Next(s, Stop), steps) == 0
  {
    StopStops(s);
    AtMostOneMoreCall(Next(s, Stop), steps);
  }

  /** The bound is attained: the copy is made before `Stop` and called after it. */
  lemma OneCallAfterStop(fn: nat)
    ensures var s := Run(State(Running, Some(fn), Pulsing), [Wake, Stop]);
      s.vigilance == Active && Begun(s, [BeginCall]) == 1
  {
    var s0 := State(Running, Some(fn), Pulsing);
    assert [Wake, Stop][..1] == [Wake] && [Wake][..0] == [];
    assert Run(s0, [Wake]) == Next(s0, Wake);
    var s := Run(s0, [Wake, Stop]);
    assert [BeginCall][..0] == [];
    assert Begun(s, [BeginCall]) == Begun(s, []) + 1;
  }

  // ------------------------------------------------------------ termination

  lemma {:induction false} TerminatedIsForever(s: State, steps: seq<Step>)
    requires s.vigilance == Terminated
    ensures Run(s, steps).vigilance == Terminated && !Starts(s, steps)
    decreases |steps|
  {
    if steps != [] {
      var before := steps[..|steps| - 1];
      TerminatedIsForever(s, before);
      forall i | 0 <= i < |steps| ensures !(steps[i] == Start && CanStart(Run(s, steps[..i]))) {
        if i < |before| {
          assert steps[..i] == before[..i] && steps[i] == before[i];
        }
      }
    }
  }

  /** A step of the worker that is due, as opposed to one that has nothing to do. */
  predicate IsWorkers(s: State, a: Step) {
    match a
    case Wake => s.worker.Idle? || s.worker.Pulsing?
    case BeginCall => s.worker.Fetched?
    case EndCall => s.worker.Calling?
    case _ => false
  }

  function WorkerSteps(s: State, steps: seq<Step>): nat {
    if steps == [] then 0
    else WorkerSteps(s, steps[..|steps| - 1]) + (if IsWorkers(Run(s, steps[..|steps| - 1]), steps[|steps| - 1]) then 1 else 0)
  }

  /** How far the worker of a terminated heartbeat is from its exit. */
  function Distance(w: Worker): nat { match w case Exited => 0 case Fetched(_) => 2 case _ => 1 }

  /** Once terminated, the worker is out after two steps of its own, whatever the callers do meanwhile. */
  lemma {:induction false} TerminatedWorkerExits(s: State, steps: seq<Step>)
    requires s.vigilance == Terminated
    ensures WorkerSteps(s, steps) + Distance(Run(s, steps).worker) == Distance(s.worker)
    ensures WorkerSteps(s, steps) <= 2
    ensures WorkerSteps(s, steps) == 2 ==> Run(s, steps).worker == Exited
    decreases |steps|
  {
    if steps != [] {
      TerminatedWorkerExits(s, steps[..|steps| - 1]);
      TerminatedIsForever(s, steps[..|steps| - 1]);
    }
  }

  /**
    The destructor's step terminates in any state, so whatever else is done, its join returns: the worker is out exactly when
    it has made the two steps, or one, or none, that were left to it.
   */
  lemma DestructorJoins(s: State, steps: seq<Step>)
    ensures var t := Next(s, Terminate);
      && t.vigilance == Terminated && t.worker == s.worker && t.callback == s.callback
      && WorkerSteps(t, steps) <= 2
      && (Run(t, steps).worker == Exited <==> WorkerSteps(t, steps) == if s.worker.Exited? then 0 else if s.worker.Fetched? then 2 else 1)
      && Begun(t, steps) <= if s.worker.Fetched? then 1 else 0
  {
    var t := Next(s, Terminate);
    TerminatedWorkerExits(t, steps);
    TerminatedIsForever(t, steps);
    AtMostOneMoreCall(t, steps);
  }

  /** Only what is due moves it, and something is due until it is out, so it is never stuck. */
  lemma WorkerIsNeverStuck(s: State)
    ensures s.worker != Exited <==> exists a :: IsWorkers(s, a)
  {
    assert s.worker != Exited ==> IsWorkers(s, Wake) || IsWorkers(s, BeginCall) || IsWorkers(s, EndCall);
  }

  // --------------------------------------------------------- start and beat

  /** A stopped heartbeat with a callback starts, and a started one cannot be started again. */
  lemma StopThenStart(s: State)
    requires s.vigilance != Terminated && s.callback.Some?
    ensures CanStart(Next(s, Stop)) && Next(Next(s, Stop), Start) == s.(vigilance := Running)
    ensures !CanStart(Next(Next(s, Stop), Start))
  {}

  /** Until it is stopped or terminated a running heartbeat goes on running, and no start succeeds. */
  lemma {:induction false} RunningGoesOn(s: State, steps: seq<Step>)
    requires !IsStopped(s) && Stop !in steps && Terminate !in steps
    ensures !IsStopped(Run(s, steps)) && !Starts(s, steps)
    decreases |steps|
  {
    if steps != [] {
      var before := steps[..|steps| - 1];
      RunningGoesOn(s, before);
      forall i | 0 <= i < |steps| ensures !(steps[i] == Start && CanStart(Run(s, steps[..i]))) {
        if i < |before| {
          assert steps[..i] == before[..i] && steps[i] == before[i];
        }
      }
    }
  }

  function Beats(n: nat): seq<Step> { if n == 0 then [] else Beats(n - 1) + [Wake, BeginCall, EndCall] }

  lemma RunOfOneMore(s: State, steps: seq<Step>, a: Step)
    ensures Run(s, steps + [a]) == Next(Run(s, steps), a)
    ensures Begun(s, steps + [a]) == Begun(s, steps) + if a == BeginCall && Run(s, steps).worker.Fetched? then 1 else 0
  {
    assert (steps + [a])[..|steps|] == steps;
  }

  lemma RunOfTwoMore(s: State, steps: seq<Step>, a: Step, b: Step)
    ensures Run(s, steps + [a, b]) == Next(Next(Run(s, steps), a), b)
    ensures Begun(s, steps + [a, b]) == Begun(s, steps + [a]) + if b == BeginCall && Next(Run(s, steps), a).worker.Fetched? then 1 else 0
  {
    RunOfOneMore(s, steps, a);
    RunOfOneMore(s, steps + [a], b);
    assert steps + [a] + [b] == steps + [a, b];
  }

  lemma RunOfThreeMore(s: State, steps: seq<Step>, a: Step, b: Step, c: Step)
    ensures Run(s, steps + [a, b, c]) == Next(Next(Next(Run(s, steps), a), b), c)
    ensures c != BeginCall ==> Begun(s, steps + [a, b, c]) == Begun(s, steps + [a, b])
    ensures Begun(s, steps + [a, b]) == Begun(s, steps + [a]) + if b == BeginCall && Next(Run(s, steps), a).worker.Fetched? then 1 else 0
    ensures a != BeginCall ==> Begun(s, steps + [a]) == Begun(s, steps)
  {
    RunOfOneMore(s, steps, a);
    RunOfTwoMore(s, steps, a, b);
    RunOfOneMore(s, steps + [a, b], c);
    assert steps + [a, b] + [c] == steps + [a, b, c];
  }

  /** Left alone, a running heartbeat calls the stored callback once a period, for any number of periods. */
  lemma {:induction false} BeatsOncePerPeriod(fn: nat, n: nat)
    ensures var s := State(Running, Some(fn), Pulsing); Run(s, Beats(n)) == s && Begun(s, Beats(n)) == n
    ensures var s := State(Running, Some(fn), Pulsing); Run(s, Beats(n) + [Wake, BeginCall]).worker == Calling(Some(fn))
    decreases n
  {
    var s := State(Running, Some(fn), Pulsing);
    if n != 0 {
      var b := Beats(n - 1);
      BeatsOncePerPeriod(fn, n - 1);
      RunOfThreeMore(s, b, Wake, BeginCall, EndCall);
    }
    RunOfTwoMore(s, Beats(n), Wake, BeginCall);
  }

  // ---------------------------------------------------------------- restart

  /** A heartbeat with a callback can be restarted exactly while it runs, and then again. */
  lemma RestartWhileRunning(s: State)
    requires s.callback.Some?
    ensures CanRestart(s) <==> !IsStopped(s)
    ensures CanRestart(s) ==> CanRestart(Next(s, Restart)) && !CanStart(Next(s, Restart))
  {}

  /** `Restart` is documented to invoke the callback at once; it only makes the worker wait out another period. */
  lemma RestartOnlyPostpones(s: State)
    requires s.worker.Pulsing? && CanRestart(s)
    ensures Next(Next(s, Restart), Wake) == State(Running, s.callback, Pulsing)
    ensures Begun(Next(s, Restart), [Wake]) == 0
  {
    assert [Wake][..0] == [];
  }

  /** While it only restarts it never beats. */
  lemma {:induction false} RestartingNeverBeats(s: State, n: nat)
    requires s.worker.Pulsing? && s.vigilance == Running && s.callback.Some?
    ensures Run(s, Restarts(n)) == s && Begun(s, Restarts(n)) == 0
    decreases n
  {
    if n != 0 {
      RestartingNeverBeats(s, n - 1);
      var r := Restarts(n);
      assert r[..|r| - 1] == Restarts(n - 1) + [Restart];
      assert r[..|r| - 1][..|r| - 2] == Restarts(n - 1);
    }
  }

  function Restarts(n: nat): seq<Step> { if n == 0 then [] else Restarts(n - 1) + [Restart, Wake] }

  // ------------------------------------------------------- empty callbacks

  function Fresh(fn: Option<nat>): State { State(Active, fn, Idle) }

  predicate NothingHeld(s: State) {
    (s.worker.Fetched? || s.worker.Calling? ==> s.worker.fn.Some?) && (!IsStopped(s) ==> s.callback.Some?)
  }

  /** An empty callback is only ever stored while stopped. */
  ghost predicate Careful(s: State, steps: seq<Step>) {
    steps == [] ||
    var before, last := steps[..|steps| - 1], steps[|steps| - 1];
    Careful(s, before) && (last == SetCallback(None) ==> IsStopped(Run(s, before)))
  }

  lemma {:induction false} CarefulHoldsNothing(s: State, steps: seq<Step>)
    requires NothingHeld(s) && Careful(s, steps)
    ensures NothingHeld(Run(s, steps))
    decreases |steps|
  {
    if steps != [] { CarefulHoldsNothing(s, steps[..|steps| - 1]); }
  }

  lemma {:induction false} RealCallbacksAreCareful(s: State, steps: seq<Step>)
    requires SetCallback(None) !in steps
    ensures Careful(s, steps)
    decreases |steps|
  {
    if steps != [] { RealCallbacksAreCareful(s, steps[..|steps| - 1]); }
  }

  /** As long as callers pass real callbacks the worker never calls an empty one, even if it was built without one. */
  lemma NoEmptyCall(fn: Option<nat>, steps: seq<Step>)
    requires SetCallback(None) !in steps
    ensures NothingHeld(Run(Fresh(fn), steps))
  {
    RealCallbacksAreCareful(Fresh(fn), steps);
    CarefulHoldsNothing(Fresh(fn), steps);
  }

  ghost predicate SetsNothing(steps: seq<Step>) { forall i | 0 <= i < |steps| :: !steps[i].SetCallback? }

  /** With an empty callback stored while stopped, nothing starts, so nothing empty is fetched. */
  lemma {:induction false} StoppedStaysHarmless(s: State, steps: seq<Step>)
    requires IsStopped(s) && s.callback.None? && NothingHeld(s) && SetsNothing(steps)
    ensures var r := Run(s, steps); IsStopped(r) && r.callback.None? && NothingHeld(r)
    decreases |steps|
  {
    if steps != [] { StoppedStaysHarmless(s, steps[..|steps| - 1]); }
  }

  lemma RunOfOne(s: State, a: Step)
    ensures Run(s, [a]) == Next(s, a)
  {
    assert [a][..0] == [];
  }

  lemma RunOfTwo(s: State, a: Step, b: Step)
    ensures Run(s, [a, b]) == Next(Next(s, a), b)
  {
    assert [a, b][..1] == [a];
    RunOfOne(s, a);
  }

  lemma RunOfThree(s: State, a: Step, b: Step, c: Step)
    ensures Run(s, [a, b, c]) == Next(Next(Next(s, a), b), c)
  {
    assert [a, b, c][..2] == [a, b];
    RunOfTwo(s, a, b);
  }

  /** The worker of a running heartbeat, left to itself, fetches whatever callback is stored. */
  lemma RunningFetches(s: State) returns (steps: seq<Step>)
    requires !IsStopped(s) && s.worker != Exited
    ensures SetsNothing(steps) && Run(s, steps).worker == Fetched(s.callback)
  {
    match s.worker
    case Idle =>
      steps := [Wake, Wake];
      RunOfTwo(s, Wake, Wake);
    case Pulsing =>
      if s.vigilance == Running {
        steps := [Wake];
        RunOfOne(s, Wake);
      } else {
        steps := [Wake, Wake];
        RunOfTwo(s, Wake, Wake);
      }
    case Fetched(_) =>
      steps := [BeginCall, EndCall, Wake];
      RunOfThree(s, BeginCall, EndCall, Wake);
    case Calling(_) =>
      steps := [EndCall, Wake];
      RunOfTwo(s, EndCall, Wake);
  }

  /** The worker fetches an empty callback in some continuation that stores no other. */
  ghost predicate MayFetchNothing(s: State) { exists steps :: SetsNothing(steps) && Run(s, steps).worker == Fetched(None) }

  /** An empty callback reaches a worker that is still there exactly when it is stored while running. */
  lemma EmptyCallbackReachesIff(s: State)
    requires NothingHeld(s) && s.worker != Exited
    ensures MayFetchNothing(Next(s, SetCallback(None))) <==> !IsStopped(s)
  {
    var s1 := Next(s, SetCallback(None));
    if IsStopped(s) {
      forall steps | SetsNothing(steps) ensures Run(s1, steps).worker != Fetched(None) {
        StoppedStaysHarmless(s1, steps);
      }
    } else {
      var steps := RunningFetches(s1);
    }
  }

  lemma {:induction false} ExitedIsTerminated(fn: Option<nat>, steps: seq<Step>)
    ensures Run(Fresh(fn), steps).worker == Exited ==> Run(Fresh(fn), steps).vigilance == Terminated
    decreases |steps|
  {
    if steps != [] { ExitedIsTerminated(fn, steps[..|steps| - 1]); }
  }

  /** After no part of the run may an empty callback be fetched. */
  ghost predicate IsSafe(fn: Option<nat>, steps: seq<Step>) {
    forall k | 0 <= k <= |steps| :: !MayFetchNothing(Run(Fresh(fn), steps[..k]))
  }

  lemma {:induction false} CarefulPrefix(s: State, steps: seq<Step>, k: nat)
    requires Careful(s, steps) && k <= |steps|
    ensures Careful(s, steps[..k])
    decreases |steps|
  {
    if k == |steps| {
      assert steps[..k] == steps;
    } else {
      CarefulPrefix(s, steps[..|steps| - 1], k);
      assert steps[..|steps| - 1][..k] == steps[..k];
    }
  }

  lemma CarefulMayNotFetchNothing(fn: Option<nat>, steps: seq<Step>)
    requires Careful(Fresh(fn), steps)
    ensures !MayFetchNothing(Run(Fresh(fn), steps))
  {
    var s := Run(Fresh(fn), steps);
    CarefulHoldsNothing(Fresh(fn), steps);
    forall more | SetsNothing(more) ensures Run(s, more).worker != Fetched(None) {
      RealCallbacksAreCareful(s, more);
      CarefulHoldsNothing(s, more);
    }
  }

  lemma {:induction false} CarelessIsNotSafe(fn: Option<nat>, steps: seq<Step>)
    requires !Careful(Fresh(fn), steps)
    ensures !IsSafe(fn, steps)
    decreases |steps|
  {
    var before := steps[..|steps| - 1];
    if Careful(Fresh(fn), before) {
      CarefulHoldsNothing(Fresh(fn), before);
      ExitedIsTerminated(fn, before);
      EmptyCallbackReachesIff(Run(Fresh(fn), before));
      assert steps[..|steps|] == steps;
    } else {
      CarelessIsNotSafe(fn, before);
      var k :| 0 <= k <= |before| && MayFetchNothing(Run(Fresh(fn), before[..k]));
      assert before[..k] == steps[..k];
    }
  }

  /** A run is safe from empty callbacks exactly when none is ever stored while running. */
  lemma SafeIffCareful(fn: Option<nat>, steps: seq<Step>)
    ensures IsSafe(fn, steps) <==> Careful(Fresh(fn), steps)
  {
    if Careful(Fresh(fn), steps) {
      forall k | 0 <= k <= |steps| ensures !MayFetchNothing(Run(Fresh(fn), steps[..k])) {
        CarefulPrefix(Fresh(fn), steps, k);
        CarefulMayNotFetchNothing(fn, steps[..k]);
      }
    } else {
      CarelessIsNotSafe(fn, steps);
    }
  }

  /** The failing schedule itself. */
  lemma EmptyCallHappens(fn: nat)
    ensures Run(Fresh(Some(fn)), [Start, Wake, SetCallback(None), Wake]).worker == Fetched(None)
  {
    var steps := [Start, Wake, SetCallback(None), Wake];
    assert steps[..3] == [Start, Wake, SetCallback(None)];
    RunOfThree(Fresh(Some(fn)), Start, Wake, SetCallback(None));
  }

  // -------------------------------------------------------------- the class

  class Heartbeat {
    var callback: Option<nat>
    var vigilance: Vigilance
    ghost var worker: Worker

    ghost function Now(): State
      reads this
    {
      State(vigilance, callback, worker)
    }

    /** The worker is started and goes to its first wait. */
    constructor (fn: Option<nat>)
      ensures Now() == State(Active, fn, Idle)
    {
      callback, vigilance, worker := fn, Active, Idle;
    }

    method StopBeating()
      modifies this
      ensures Now() == Next(old(Now()), Stop)
    {
      if vigilance == Running || vigilance == Resetting {
        vigilance := Active;
      }
    }

    method StartBeating() returns (ok: bool)
      modifies this
      ensures Now() == Next(old(Now()), Start) && ok == CanStart(old(Now()))
    {
      if callback.None? || vigilance != Active {
        return false;
      }
      vigilance := Running;
      return true;
    }

    method ChangeCallback(fn: Option<nat>)
      modifies this
      ensures Now() == Next(old(Now()), SetCallback(fn))
    {
      callback := fn;
    }

    method RestartBeating() returns (ok: bool)
      modifies this
      ensures Now() == Next(old(Now()), Restart) && ok == CanRestart(old(Now()))
    {
      if vigilance == Terminated || vigilance == Active || callback.None? {
        return false;
      }
      vigilance := Resetting;
      return true;
    }

    method Signal()
      modifies this
      ensures Now() == Next(old(Now()), Terminate)
    {
      vigilance := Terminated;
    }

    /** The outer condition, entered with the mutex; `wait` keeps it waiting while active. */
    method OuterCondition()
      modifies this
      ensures Now() == Outer(old(Now()))
    {
      if vigilance == Active {
        worker := Idle;
      } else if vigilance == Terminated {
        worker := Exited;
      } else {
        InnerCondition();
      }
    }

    /** The inner condition from its head: up to the timed wait, or out of the loop. */
    method InnerCondition()
      modifies this
      ensures Now() == Inner(old(Now()))
    {
      if vigilance == Resetting {
        vigilance := Running;
      }
      if vigilance == Running {
        worker := Pulsing;
      } else if vigilance == Active {
        worker := Idle;
      } else {
        worker := Exited;
      }
    }

    /** The timed wait returns: round again when resetting, else fetch the callback or leave the loop. */
    method PeriodOver()
      requires worker.Pulsing?
      modifies this
      ensures Now() == Next(old(Now()), Wake)
    {
      if vigilance == Resetting {
        InnerCondition();
      } else if vigilance == Running {
        worker := Fetched(callback);
      } else {
        OuterCondition();
      }
    }

    method IdleOver()
      requires worker.Idle?
      modifies this
      ensures Now() == Next(old(Now()), Wake)
    {
      OuterCondition();
    }

    method CallbackReturns()
      requires worker.Calling?
      modifies this
      ensures Now() == Next(old(Now()), EndCall)
    {
      InnerCondition();
    }
  }
}
