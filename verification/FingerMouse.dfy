/**
  `FingerMouse` with its `StateMachine` (source/Utility/StateMachine.h:127-257) as an object: handlers that update fields,
  fall through from entry to the frame case, and ask for a next state, proved to implement the statechart.
 */
module FingerMouse {
  import opened ValueTree
  import opened GestureTrace
  import opened MachineInputs
  import opened Observations
  import opened FingerMouseChart

  class FingerMouse {
    // the state machine's fields; `None` is its NULL
    var current: Option<State>
    var next: Option<State>
    // the owner's fields
    var clickNumber: int
    var deferClickUpForDrag: bool
    var clickEligibleForDrag: bool
    var lastClickTime: int
    var gestureStart: int
    // the calls made so far
    var calls: seq<Event>

    constructor ()
      ensures current == None && next == None && calls == [] && clickNumber == 0
    {
      current := None;
      next := None;
      clickNumber := 0;
      deferClickUpForDrag := false;
      clickEligibleForDrag := false;
      lastClickTime := 0;
      gestureStart := 0;
      calls := [];
    }

    function Fields(): Memory
      reads this
    {
      Memory(clickNumber, deferClickUpForDrag, clickEligibleForDrag, lastClickTime, gestureStart)
    }

    /** The handler of state `s` did what the statechart says. */
    twostate predicate Reacted(s: State, input: Input, f: Frame)
      reads this
    {
      var r := React(s, input, old(Fields()), f);
      Fields() == r.m && next == r.next && calls == old(calls) + r.out && current == old(current)
    }

    method Emit(e: Event)
      modifies this`calls
      ensures calls == old(calls) + [e]
    {
      calls := calls + [e];
    }

    method TransitionToNFingersNoInteraction(f: Frame)
      modifies this`next
      ensures next == Some(Home(f))
    {
      if f.use3PlusFingerGestures && InPalmMode(f) {
        next := Some(PalmRecognition);
        return;
      }
      var fingerCount := 0;
      if f.unambiguous {
        fingerCount := f.count;
      }
      match fingerCount {
        case 0 => next := Some(ZeroFingers);
        case 1 => next := Some(OneHovering);
        case 2 => next := Some(TwoHovering);
        case _ =>
          if f.use3PlusFingerGestures {
            next := Some(ThreeNoInteraction);
          } else {
            next := Some(TwoHovering);
          }
      }
    }

    method StateZeroFingers(input: Input, f: Frame) returns (handled: bool)
      requires next == None
      modifies this
      ensures Reacted(ZeroFingers, input, f)
      ensures input == ProcessFrame || input == LostFocus ==> handled
    {
      if input == LostFocus {
        return true;
      }
      if input == Enter || input == ProcessFrame {
        if (f.unambiguous && f.count > 0) || InPalmMode(f) {
          TransitionToNFingersNoInteraction(f);
        }
        return true;
      }
      return false;
    }

    method StateOneHovering(input: Input, f: Frame) returns (handled: bool)
      requires next == None
      modifies this
      ensures Reacted(OneHovering, input, f)
      ensures input == ProcessFrame || input == LostFocus ==> handled
    {
      if input == LostFocus {
        next := Some(ZeroFingers);
        return true;
      }
      if input == Enter || input == ProcessFrame {
        if (f.unambiguous && f.count != 1) || InPalmMode(f) {
          TransitionToNFingersNoInteraction(f);
          return true;
        }
        if f.zone == ZoneTouching {
          next := Some(OneClicking);
        }
        return true;
      }
      return false;
    }

    method StateOneClicking(input: Input, f: Frame) returns (handled: bool)
      requires next == None
      modifies this
      ensures Reacted(OneClicking, input, f)
      ensures input == ProcessFrame || input == LostFocus ==> handled
    {
      match input {
        case LostFocus =>
          next := Some(ZeroFingers);
          return true;
        case Enter =>
          if (f.unambiguous && f.count == 0) || InPalmMode(f) {
            TransitionToNFingersNoInteraction(f); // and goes on to click all the same
          }
          if f.now - lastClickTime > 3 * SECONDS || f.farFromLastClick || clickNumber == 3 {
            clickNumber := 0;
          }
          clickNumber := clickNumber + 1;
          Emit(ClickDown(clickNumber));
          deferClickUpForDrag := false;
          clickEligibleForDrag := true;
          lastClickTime := f.now;
          return true;
        case Exit =>
          if !deferClickUpForDrag {
            Emit(ClickUp(clickNumber));
          }
          return true;
        case ProcessFrame =>
          if (f.unambiguous && f.count != 1) || InPalmMode(f) {
            TransitionToNFingersNoInteraction(f);
            return true;
          }
          if f.zone != ZoneTouching {
            next := Some(OneHovering);
            return true;
          }
          var clickDuration := f.now - lastClickTime;
          if f.movedFromClick {
            clickEligibleForDrag := false;
          }
          if clickEligibleForDrag && clickDuration > 500 * MILLISECONDS {
            deferClickUpForDrag := true;
            clickNumber := 0;
            next := Some(OneDragging);
          }
          return true;
      }
    }

    method StateOneDragging(input: Input, f: Frame) returns (handled: bool)
      requires next == None
      modifies this
      ensures Reacted(OneDragging, input, f)
      ensures input == ProcessFrame || input == LostFocus ==> handled
    {
      if input == LostFocus {
        next := Some(ZeroFingers);
        return true;
      }
      if input == Enter || input == ProcessFrame {
        if (f.unambiguous && f.count != 1) || InPalmMode(f) {
          TransitionToNFingersNoInteraction(f);
          return true;
        }
        if f.zone != ZoneTouching {
          next := Some(OneHovering);
        }
        return true;
      }
      Emit(ClickUp(clickNumber));
      return true;
    }

    method StateTwoHovering(input: Input, f: Frame) returns (handled: bool)
      requires next == None
      modifies this
      ensures Reacted(TwoHovering, input, f)
      ensures input == ProcessFrame || input == LostFocus ==> handled
    {
      if input == LostFocus {
        next := Some(ZeroFingers);
        return true;
      }
      if input == Enter || input == ProcessFrame {
        if InPalmMode(f) || (f.unambiguous && f.count != 2 && (f.use3PlusFingerGestures || f.count < 3)) {
          TransitionToNFingersNoInteraction(f);
          return true;
        }
        if f.zone == ZoneTouching {
          if f.useRotateAndZoom {
            next := Some(TwoRecognition);
          } else {
            next := Some(TwoScrolling);
          }
        }
        return true;
      }
      return false;
    }

    method StateTwoRecognition(input: Input, f: Frame) returns (handled: bool)
      requires next == None
      modifies this
      ensures Reacted(TwoRecognition, input, f)
      ensures input == ProcessFrame || input == LostFocus ==> handled
    {
      if input == LostFocus {
        next := Some(ZeroFingers);
        return true;
      }
      if input == Enter {
        gestureStart := f.now;
      }
      if input == Enter || input == ProcessFrame {
        if (f.unambiguous && f.count == 0) || InPalmMode(f) {
          TransitionToNFingersNoInteraction(f);
          return true;
        }
        if f.noTouching {
          if f.zone != ZoneTouching {
            next := Some(TwoHovering);
            return true;
          }
        }
        if f.recent == Rotating {
          next := Some(TwoRotating);
        } else if f.recent == Scaling {
          next := Some(TwoZooming);
        } else if f.recent == Translating {
          next := Some(TwoScrolling);
        }
        return true;
      }
      return false;
    }

    /** The three two-finger gestures share one shape: `s` is the state, `g` what it begins. */
    method StateTwoGesture(s: State, g: Gesture, input: Input, f: Frame) returns (handled: bool)
      requires next == None
      requires (s, g) in {(TwoRotating, Rotate), (TwoScrolling, Scroll), (TwoZooming, Zoom)}
      modifies this
      ensures Reacted(s, input, f)
      ensures input == ProcessFrame || input == LostFocus ==> handled
    {
      match input {
        case LostFocus =>
          next := Some(ZeroFingers);
        case Enter =>
          Emit(Begin(g));
          Emit(ApplyOf(g));
          assert calls == old(calls) + [Begin(g), ApplyOf(g)];
        case Exit =>
          Emit(End);
        case ProcessFrame =>
          if (f.unambiguous && f.count == 0) || InPalmMode(f) {
            TransitionToNFingersNoInteraction(f);
            return true;
          }
          if f.noTouching {
            if f.zone != ZoneTouching {
              next := Some(TwoHovering);
              return true;
            }
          }
          Emit(ApplyOf(g));
      }
      return true;
    }

    method StateThreeNoInteraction(input: Input, f: Frame) returns (handled: bool)
      requires next == None
      modifies this
      ensures Reacted(ThreeNoInteraction, input, f)
      ensures input == ProcessFrame || input == LostFocus ==> handled
    {
      if input == LostFocus {
        next := Some(ZeroFingers);
        return true;
      }
      if input == Enter || input == ProcessFrame {
        if (f.unambiguous && f.count < 3) || InPalmMode(f) {
          TransitionToNFingersNoInteraction(f);
          return true;
        }
        if f.zone == ZoneHovering {
          next := Some(ThreeHovering);
        } else if f.zone == ZoneTouching {
          next := Some(ThreeRecognition);
        }
        return true;
      }
      return false;
    }

    /** This handler has no entry case at all. */
    method StateThreeHovering(input: Input, f: Frame) returns (handled: bool)
      requires next == None
      modifies this
      ensures Reacted(ThreeHovering, input, f)
      ensures input == ProcessFrame || input == LostFocus ==> handled
    {
      if input == LostFocus {
        next := Some(ZeroFingers);
        return true;
      }
      if input == ProcessFrame {
        if (f.unambiguous && f.count < 3) || InPalmMode(f) {
          TransitionToNFingersNoInteraction(f);
          return true;
        }
        if f.zone == ZoneNone {
          next := Some(ThreeNoInteraction);
        } else if f.zone == ZoneTouching {
          next := Some(ThreeRecognition);
        }
        return true;
      }
      return false;
    }

    method StateThreeRecognition(input: Input, f: Frame) returns (handled: bool)
      requires next == None
      modifies this
      ensures Reacted(ThreeRecognition, input, f)
      ensures input == ProcessFrame || input == LostFocus ==> handled
    {
      if input == LostFocus {
        next := Some(ZeroFingers);
        return true;
      }
      if input == Enter {
        gestureStart := f.now;
      }
      if input == Enter || input == ProcessFrame {
        if (f.unambiguous && f.count < 3) || InPalmMode(f) {
          TransitionToNFingersNoInteraction(f);
          return true;
        }
        if f.zone == ZoneNone {
          next := Some(ThreeNoInteraction);
          return true;
        } else if f.zone == ZoneHovering {
          next := Some(ThreeHovering);
          return true;
        }
        if f.now - gestureStart >= 10 * MILLISECONDS && f.filtered == Translating {
          if f.sinceStart == Horizontal {
            next := Some(ThreeSwipeHorizontal);
          } else if f.sinceStart == Vertical {
            next := Some(ThreeSwipeVertical);
          }
        }
        return true;
      }
      return false;
    }

    method StateThreeSwipeVertical(input: Input, f: Frame) returns (handled: bool)
      requires next == None
      modifies this
      ensures Reacted(ThreeSwipeVertical, input, f)
      ensures input == ProcessFrame || input == LostFocus ==> handled
    {
      match input {
        case LostFocus =>
          next := Some(ZeroFingers);
        case Enter =>
          Emit(Begin(DesktopSwipeVertical));
        case Exit =>
          Emit(End);
        case ProcessFrame =>
          if (f.unambiguous && f.count == 0) || InPalmMode(f) {
            TransitionToNFingersNoInteraction(f);
            return true;
          }
          if f.noTouching {
            if f.zone == ZoneNone || f.zone == ZoneHovering {
              next := Some(ThreeNoInteraction);
              return true;
            } else if f.turnedHorizontal {
              next := Some(ThreeSwipeHorizontal); // and swipes on in this state
            }
          }
          Emit(ApplyDesktopSwipe);
      }
      return true;
    }

    method StateThreeSwipeHorizontal(input: Input, f: Frame) returns (handled: bool)
      requires next == None
      modifies this
      ensures Reacted(ThreeSwipeHorizontal, input, f)
      ensures input == ProcessFrame || input == LostFocus ==> handled
    {
      match input {
        case LostFocus =>
          next := Some(ZeroFingers);
        case Enter =>
          Emit(Begin(DesktopSwipeHorizontal));
        case Exit =>
          Emit(End);
        case ProcessFrame =>
          if (f.unambiguous && f.count == 0) || InPalmMode(f) {
            TransitionToNFingersNoInteraction(f);
            return true;
          }
          if f.noTouching {
            if f.zone == ZoneNone || f.zone == ZoneHovering {
              next := Some(ThreeNoInteraction);
              return true;
            }
          }
          Emit(ApplyDesktopSwipe);
      }
      return true;
    }

    method StatePalmRecognition(input: Input, f: Frame) returns (handled: bool)
      requires next == None
      modifies this
      ensures Reacted(PalmRecognition, input, f)
      ensures input == ProcessFrame || input == LostFocus ==> handled
    {
      if input == LostFocus {
        next := Some(ZeroFingers);
        return true;
      }
      if input == Enter {
        gestureStart := f.now;
      }
      if input == Enter || input == ProcessFrame {
        if !InPalmMode(f) || (!f.foremostValid && f.hands == 0) || !f.handValid {
          TransitionToNFingersNoInteraction(f);
          return true;
        }
        if f.now - gestureStart >= 100 * MILLISECONDS && f.filtered == Translating && f.palmNear {
          next := Some(PalmSwipe);
        }
      }
      return true;
    }

    method StatePalmSwipe(input: Input, f: Frame) returns (handled: bool)
      requires next == None
      modifies this
      ensures Reacted(PalmSwipe, input, f)
      ensures input == ProcessFrame || input == LostFocus ==> handled
    {
      match input {
        case LostFocus =>
          next := Some(ZeroFingers);
        case Enter =>
          Emit(Begin(DesktopSwipeHorizontal));
        case Exit =>
          Emit(End);
        case ProcessFrame =>
          if !InPalmMode(f) {
            TransitionToNFingersNoInteraction(f);
            return true;
          }
          Emit(ApplyDesktopSwipe);
      }
      return true;
    }

    /** The call through the member pointer `m_current_state`. */
    method CallCurrentState(input: Input, f: Frame) returns (handled: bool)
      requires current.Some? && next == None
      modifies this
      ensures Reacted(old(current).value, input, f)
      ensures input == ProcessFrame || input == LostFocus ==> handled
    {
      match current.value
      case ZeroFingers => handled := StateZeroFingers(input, f);
      case OneHovering => handled := StateOneHovering(input, f);
      case OneClicking => handled := StateOneClicking(input, f);
      case OneDragging => handled := StateOneDragging(input, f);
      case TwoHovering => handled := StateTwoHovering(input, f);
      case TwoRecognition => handled := StateTwoRecognition(input, f);
      case TwoRotating => handled := StateTwoGesture(TwoRotating, Rotate, input, f);
      case TwoScrolling => handled := StateTwoGesture(TwoScrolling, Scroll, input, f);
      case TwoZooming => handled := StateTwoGesture(TwoZooming, Zoom, input, f);
      case ThreeNoInteraction => handled := StateThreeNoInteraction(input, f);
      case ThreeHovering => handled := StateThreeHovering(input, f);
      case ThreeRecognition => handled := StateThreeRecognition(input, f);
      case ThreeSwipeVertical => handled := StateThreeSwipeVertical(input, f);
      case ThreeSwipeHorizontal => handled := StateThreeSwipeHorizontal(input, f);
      case PalmRecognition => handled := StatePalmRecognition(input, f);
      case PalmSwipe => handled := StatePalmSwipe(input, f);
    }

    /** The exit/enter loop of `RunCurrentStatePrivate` (source/Utility/StateMachine.h:228-253). */
    method PerformTransitions(f: Frame)
      requires current.Some?
      modifies this
      ensures var r := Settle(old(current).value, old(Fields()), old(next), f);
        current == Some(r.s) && Fields() == r.m && calls == old(calls) + r.out
      ensures next == None
    {
      ghost var target := Settle(current.value, Fields(), next, f);
      while next.Some?
        invariant current.Some?
        invariant var r := Settle(current.value, Fields(), next, f);
          r.s == target.s && r.m == target.m && calls + r.out == old(calls) + target.out
        decreases if next.None? then 0 else 1 + Rank(next.value, f)
      {
        ghost var s, m, t, before := current.value, Fields(), next.value, calls;
        var realNextState := next;
        next := None;
        var _ := CallCurrentState(Exit, f);
        assert next == None; // "You must not transition while exiting a state"
        current := realNextState;
        var _ := CallCurrentState(Enter, f);
        if next.Some? { EnteringDescends(t, f); }
        Assoc(before, ExitOut(s, m), EnterOut(t, m, f));
        Assoc(before, ExitOut(s, m) + EnterOut(t, m, f), Settle(t, Fields(), next, f).out);
      }
    }

    /** `Initialize`: the first state is entered. */
    method Initialize(f: Frame)
      requires current == None
      modifies this
      ensures var r := Start(old(Fields()), f);
        current == Some(r.s) && Fields() == r.m && calls == old(calls) + r.out
      ensures next == None
    {
      current := Some(ZeroFingers);
      next := None;
      var _ := CallCurrentState(Enter, f);
      Assoc(old(calls), EnterOut(ZeroFingers, old(Fields()), f), Settle(ZeroFingers, Fields(), next, f).out);
      PerformTransitions(f);
    }

    method RunCurrentState(input: Input, f: Frame)
      requires current.Some?
      requires input == ProcessFrame || input == LostFocus
      modifies this
      ensures var r := Run(old(current).value, old(Fields()), input, f);
        current == Some(r.s) && Fields() == r.m && calls == old(calls) + r.out
      ensures next == None
    {
      next := None;
      var handled := CallCurrentState(input, f);
      assert handled; // "All user-defined state machine input must be handled"
      ghost var r := React(old(current).value, input, old(Fields()), f);
      Assoc(old(calls), r.out, Settle(current.value, r.m, r.next, f).out);
      PerformTransitions(f);
    }

    method Shutdown(f: Frame)
      modifies this
      ensures current == None
      ensures calls == old(calls) + if old(current).None? then [] else ExitOut(old(current).value, old(Fields()))
    {
      if current.Some? {
        next := None;
        var _ := CallCurrentState(Exit, f);
        assert next == None; // "You must not transition while exiting a state"
        current := None;
      }
    }

    /** `processFrameInternal`. */
    method ProcessFrameInternal(f: Frame)
      modifies this
      ensures var p := if old(current).None? then Start(old(Fields()), f) else Outcome(old(current).value, old(Fields()), [], 0);
        var r := Run(p.s, p.m, ProcessFrame, f);
        current == Some(r.s) && Fields() == r.m && calls == old(calls) + (p.out + r.out)
    {
      ghost var p := if current.None? then Start(Fields(), f) else Outcome(current.value, Fields(), [], 0);
      if current.None? {
        Initialize(f);
      }
      assert calls == old(calls) + p.out;
      Assoc(old(calls), p.out, Run(p.s, p.m, ProcessFrame, f).out);
      RunCurrentState(ProcessFrame, f);
    }

    /** `stopActiveEvents`. */
    method StopActiveEvents(f: Frame)
      requires current.Some?
      modifies this
      ensures var r := Run(old(current).value, old(Fields()), LostFocus, f);
        current == Some(r.s) && Fields() == r.m && calls == old(calls) + r.out
    {
      RunCurrentState(LostFocus, f);
    }
  }
}
