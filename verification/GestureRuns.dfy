/**
  The three gesture modes driving the gesture object: in every run every begin and end call succeeds
  (source/GestureInteraction/GestureInteractionManager.cpp:287-317, source/OSInteraction/LPGesture.cpp:67-197).
 */
module GestureRuns {
  import opened ValueTree
  import opened GestureTrace
  import opened GesturePhases
  import opened MachineInputs
  import FingerMouse = FingerMouseChart
  import BasicMode = BasicModeChart
  import GestureOnly = GestureOnlyChart

  /** Every call of the mode is accepted, but for a scroll of almost nothing, and no gesture is left open. */
  ghost predicate AllSucceed(p: Platform, calls: seq<Call>) {
    && Run(p, FRESH, calls).s.kind.None?
    && forall i | 0 <= i < |calls| && calls[i].FromMode? ::
         Serve(p, Run(p, FRESH, calls[..i]).s, calls[i]).ok || (calls[i].e == ApplyScroll && IsTiny(calls[i].d))
  }

  /** A run of the finger mouse, with its shutdown and with heartbeats anywhere in between. */
  lemma FingerMouseCallsSucceed(p: Platform, calls: seq<Call>, m: FingerMouse.Memory, f: FingerMouse.Frame, steps: seq<FingerMouse.Step>)
    requires 0 <= m.clickNumber <= 3
    requires forall i | 0 <= i < |steps| :: steps[i].input == ProcessFrame || steps[i].input == LostFocus
    requires var r := FingerMouse.Play(m, f, steps); EventsOf(calls) == r.out + FingerMouse.ExitOut(r.s, r.m)
    ensures AllSucceed(p, calls)
  {
    FingerMouse.EveryRunIsDisciplined(m, f, steps);
    DisciplinedCallsSucceed(p, calls);
  }

  lemma BasicModeCallsSucceed(p: Platform, calls: seq<Call>, m: BasicMode.Memory, f: BasicMode.Frame, steps: seq<BasicMode.Step>)
    requires 0 <= m.clickNumber <= 3 && !m.clickDown
    requires !BasicMode.Spins(f) && BasicMode.Acceptable(steps)
    requires var r := BasicMode.Play(m, f, steps); EventsOf(calls) == r.out + BasicMode.OnExit(r.s, r.m).out
    ensures AllSucceed(p, calls)
  {
    BasicMode.EveryRunIsDisciplined(m, f, steps);
    DisciplinedCallsSucceed(p, calls);
  }

  lemma GestureOnlyCallsSucceed(p: Platform, calls: seq<Call>, m: GestureOnly.Memory, steps: seq<GestureOnly.Step>, f: GestureOnly.Frame)
    requires GestureOnly.ValidSteps(steps)
    requires var r := GestureOnly.Play(m, steps); EventsOf(calls) == r.out + GestureOnly.OnExit(r.s, r.m, f).out
    ensures AllSucceed(p, calls)
  {
    GestureOnly.EveryRunIsDisciplined(m, steps, f);
    DisciplinedCallsSucceed(p, calls);
  }
}
