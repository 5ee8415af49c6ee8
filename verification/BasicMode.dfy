/**
  `BasicMode` with its `StateMachine` (source/Utility/StateMachine.h:127-257) as an object, in the mouse-output
  configuration: handlers as the source writes them, proved to implement the statechart.
 */
module BasicMode {
  import opened ValueTree
  import opened GestureTrace
  import opened MachineInputs
  import opened Observations
  import opened BasicModeChart

  class BasicMode {
    // the state machine's fields; `None` is its NULL
    var current: Option<State>
    var next: Option<State>
    // the owner's fields
    var clickNumber: int
    var clickDown: bool
    var lastClickTime: int
    var gestureStart: int
    var favoritePointable: int
    var favoriteHandId: int
    // the calls made so far
    var calls: seq<Event>

    constructor ()
      ensures current == None && next == None && calls == [] && clickNumber == 0 && !clickDown
    {
      current := None;
      next := None;
      clickNumber := 0;
      clickDown := false;
      lastClickTime := 0;
      gestureStart := 0;
      favoritePointable := -1;
      favoriteHandId := -1;
      calls := [];
    }

    function Fields(): Memory
      reads this
    {
      Memory(clickNumber, clickDown, lastClickTime, gestureStart, favoritePointable, favoriteHandId)
    }

    /** The handler of state `s` did what the statechart says. */
    twostate predicate Reacted(s: State, input: Input, f: Frame)
      reads this
    {
      var r := React(s, input, old(Fields()), f);
      Fields() == r.m && next == r.next && calls == old(calls) + r.out && current == old(current)
    }

    method Emit(e: Event)
      modifies this`calls
      ensures calls == old(calls) + [e]
    {
      calls := calls + [e];
    }

    method FavoritePointableId(f: Frame) returns (id: int)
      modifies this`favoritePointable
      ensures id == favoritePointable == Favorite(old(Fields()), f)
    {
      if favoritePointable < 0 || favoritePointable !in f.pointables {
        favoritePointable := f.foremost;
      }
      id := favoritePointable;
    }

    method TransitionToNPointablesNoInteraction(f: Frame)
      modifies this`next
      ensures next == Some(Home(f))
    {
      if f.multiHand {
        next := Some(HandsHovering);
      } else if InPalmMode(f) {
        next := Some(PalmRecognition);
      } else {
        var pointableCount := 0;
        if f.unambiguous {
          pointableCount := f.count;
        }
        match pointableCount {
          case 0 => next := Some(NoPointables);
          case 1 =>
            if f.disableClicking {
              next := Some(TwoPlusHovering);
            } else {
              next := Some(OneHovering);
            }
          case _ => next := Some(TwoPlusHovering);
        }
      }
    }

    method StateNoPointables(input: Input, f: Frame) returns (handled: bool)
      requires next == None
      modifies this
      ensures Reacted(NoPointables, input, f)
      ensures input == ProcessFrame || input == LostFocus ==> handled
    {
      if input == Enter || input == ProcessFrame {
        if (f.unambiguous && f.count > 0) || f.multiHand || InPalmMode(f) {
          TransitionToNPointablesNoInteraction(f);
        }
        return true;
      }
      return input == LostFocus;
    }

    method StateOneHovering(input: Input, f: Frame) returns (handled: bool)
      requires next == None
      modifies this
      ensures Reacted(OneHovering, input, f)
      ensures input == ProcessFrame || input == LostFocus ==> handled
    {
      if input == LostFocus {
        next := Some(NoPointables);
        return true;
      }
      if input == Enter {
        favoritePointable := f.foremost;
      }
      if input == Enter || input == ProcessFrame {
        var _ := FavoritePointableId(f);
        if (f.unambiguous && f.count != 1) || f.multiHand || InPalmMode(f) {
          TransitionToNPointablesNoInteraction(f);
          return true;
        }
        if f.zone == ZoneTouching {
          if f.now - lastClickTime > 3 * SECONDS || f.farFromLastClick || clickNumber == 3 {
            clickNumber := 0;
          }
          clickNumber := clickNumber + 1;
          Emit(ClickDown(clickNumber));
          clickDown := true;
          lastClickTime := f.now;
          next := Some(OneClickCooldown);
        }
        return true;
      }
      return false;
    }

    method StateOneClickCooldown(input: Input, f: Frame) returns (handled: bool)
      requires next == None
      modifies this
      ensures Reacted(OneClickCooldown, input, f)
      ensures input == ProcessFrame || input == LostFocus ==> handled
    {
      match input {
        case LostFocus =>
          next := Some(NoPointables);
          return true;
        case Exit =>
          if clickDown {
            clickDown := false;
            Emit(ClickUp(clickNumber));
          }
          return true;
        case _ =>
          if (f.unambiguous && f.count != 1) || f.multiHand || InPalmMode(f) {
            TransitionToNPointablesNoInteraction(f);
            return true;
          }
          if f.zone != ZoneTouching {
            next := Some(OneHovering);
            return true;
          }
          var clickDuration := f.now - lastClickTime;
          var _ := FavoritePointableId(f);
          if clickDuration > 150 * MILLISECONDS {
            if clickDown {
              clickDown := false;
              Emit(ClickUp(clickNumber));
            }
          }
          return true;
      }
    }

    method StateTwoPlusHovering(input: Input, f: Frame) returns (handled: bool)
      requires next == None
      modifies this
      ensures Reacted(TwoPlusHovering, input, f)
      ensures input == ProcessFrame || input == LostFocus ==> handled
    {
      if input == LostFocus {
        next := Some(NoPointables);
        return true;
      }
      if input == Enter {
        favoritePointable := f.foremost;
        favoriteHandId := -1;
        var id := FavoritePointableId(f);
        if id == -1 {
          return true;
        }
      }
      if input == Enter || input == ProcessFrame {
        if (f.unambiguous && ((f.disableClicking && f.count == 0) || (!f.disableClicking && f.count < 2))) || f.multiHand || InPalmMode(f) {
          TransitionToNPointablesNoInteraction(f);
          return true;
        }
        var id := FavoritePointableId(f);
        if favoriteHandId < 0 {
          if id !in f.pointables {
            return true;
          }
          favoriteHandId := f.pointables[id];
        }
        if favoriteHandId >= 0 {
          if favoriteHandId !in f.hands {
            TransitionToNPointablesNoInteraction(f);
            return true;
          }
          if f.hands[favoriteHandId] {
            next := Some(TwoPlusScrolling);
          }
        }
        return true;
      }
      return false;
    }

    /** The source asserts on entry that the followed hand is valid; the transition loop guarantees it. */
    method StateTwoPlusScrolling(input: Input, f: Frame) returns (handled: bool)
      requires next == None
      requires input == Enter ==> favoriteHandId in f.hands
      modifies this
      ensures Reacted(TwoPlusScrolling, input, f)
      ensures input == ProcessFrame || input == LostFocus ==> handled
    {
      match input {
        case LostFocus =>
          next := Some(NoPointables);
        case Enter =>
          Emit(Begin(Scroll));
        case Exit =>
          Emit(End);
        case ProcessFrame =>
          if (f.unambiguous && f.count == 0) || f.multiHand || InPalmMode(f) {
            TransitionToNPointablesNoInteraction(f);
            return true;
          }
          if favoriteHandId !in f.hands {
            TransitionToNPointablesNoInteraction(f);
            return true;
          }
          if !f.hands[favoriteHandId] {
            TransitionToNPointablesNoInteraction(f);
            return true;
          }
          Emit(ApplyScroll);
      }
      return true;
    }

    method StateHandsHovering(input: Input, f: Frame) returns (handled: bool)
      requires next == None
      modifies this
      ensures Reacted(HandsHovering, input, f)
      ensures input == ProcessFrame || input == LostFocus ==> handled
    {
      if input == LostFocus {
        next := Some(NoPointables);
        return true;
      }
      if input == Enter {
        favoritePointable := f.foremost;
      }
      if input == Enter || input == ProcessFrame {
        if !f.multiHand {
          TransitionToNPointablesNoInteraction(f);
          return true;
        }
        if f.zone == ZoneTouching {
          next := Some(HandsRecognition);
        }
        return true;
      }
      return false;
    }

    method StateHandsRecognition(input: Input, f: Frame) returns (handled: bool)
      requires next == None
      modifies this
      ensures Reacted(HandsRecognition, input, f)
      ensures input == ProcessFrame || input == LostFocus ==> handled
    {
      if input == LostFocus {
        next := Some(NoPointables);
        return true;
      }
      if input == Enter {
        gestureStart := f.now;
      }
      if input == Enter || input == ProcessFrame {
        if !f.multiHand {
          TransitionToNPointablesNoInteraction(f);
          return true;
        }
        if f.noTouching {
          if f.zone != ZoneTouching {
            next := Some(HandsHovering);
            return true;
          }
        }
        if f.now - gestureStart >= 20 * MILLISECONDS && f.filtered != Undecided {
          if f.filtered == Rotating {
            next := Some(HandsRotating);
          } else if f.filtered == Scaling {
            next := Some(HandsZooming);
          }
        }
        return true;
      }
      return false;
    }

    /** Rotating and zooming share one shape. */
    method StateHandsGesture(s: State, g: Gesture, input: Input, f: Frame) returns (handled: bool)
      requires next == None
      requires (s, g) in {(HandsRotating, Rotate), (HandsZooming, Zoom)}
      modifies this
      ensures Reacted(s, input, f)
      ensures input == ProcessFrame || input == LostFocus ==> handled
    {
      match input {
        case LostFocus =>
          next := Some(NoPointables);
        case Enter =>
          Emit(Begin(g));
          Emit(ApplyOf(g));
          assert calls == old(calls) + [Begin(g), ApplyOf(g)];
        case Exit =>
          Emit(End);
        case ProcessFrame =>
          if !f.multiHand {
            TransitionToNPointablesNoInteraction(f);
            return true;
          }
          if f.noTouching {
            if f.zone != ZoneTouching {
              next := Some(HandsHovering);
              return true;
            }
          }
          Emit(ApplyOf(g));
      }
      return true;
    }

    method StatePalmRecognition(input: Input, f: Frame) returns (handled: bool)
      requires next == None
      modifies this
      ensures Reacted(PalmRecognition, input, f)
      ensures input == ProcessFrame || input == LostFocus ==> handled
    {
      if input == LostFocus {
        next := Some(NoPointables);
        return true;
      }
      if input == Enter {
        gestureStart := f.now;
      }
      if input == Enter || input == ProcessFrame {
        if !InPalmMode(f) {
          TransitionToNPointablesNoInteraction(f); // and goes on: the next test may override it
        }
        if f.now - gestureStart >= 100 * MILLISECONDS && f.filtered == Translating {
          next := Some(PalmSwipe);
        }
      }
      return true;
    }

    method StatePalmSwipe(input: Input, f: Frame) returns (handled: bool)
      requires next == None
      modifies this
      ensures Reacted(PalmSwipe, input, f)
      ensures input == ProcessFrame || input == LostFocus ==> handled
    {
      match input {
        case LostFocus =>
          next := Some(NoPointables);
        case Enter =>
          Emit(Begin(DesktopSwipeHorizontal));
        case Exit =>
          Emit(End);
        case ProcessFrame =>
          if !InPalmMode(f) {
            TransitionToNPointablesNoInteraction(f); // and swipes all the same
          }
          Emit(ApplyDesktopSwipe);
      }
      return true;
    }

    /** The call through the member pointer `m_current_state`. */
    method CallCurrentState(input: Input, f: Frame) returns (handled: bool)
      requires current.Some? && next == None
      requires input == Enter && current.value == TwoPlusScrolling ==> favoriteHandId in f.hands
      modifies this
      ensures Reacted(old(current).value, input, f)
      ensures input == ProcessFrame || input == LostFocus ==> handled
    {
      match current.value
      case NoPointables => handled := StateNoPointables(input, f);
      case OneHovering => handled := StateOneHovering(input, f);
      case OneClickCooldown => handled := StateOneClickCooldown(input, f);
      case TwoPlusHovering => handled := StateTwoPlusHovering(input, f);
      case TwoPlusScrolling => handled := StateTwoPlusScrolling(input, f);
      case HandsHovering => handled := StateHandsHovering(input, f);
      case HandsRecognition => handled := StateHandsRecognition(input, f);
      case HandsRotating => handled := StateHandsGesture(HandsRotating, Rotate, input, f);
      case HandsZooming => handled := StateHandsGesture(HandsZooming, Zoom, input, f);
      case PalmRecognition => handled := StatePalmRecognition(input, f);
      case PalmSwipe => handled := StatePalmSwipe(input, f);
    }

    /** Scrolling is only asked for with a followed hand that the frame has. */
    lemma ScrollingHasItsHand(s: State, input: Input, m: Memory, f: Frame)
      requires React(s, input, m, f).next == Some(TwoPlusScrolling)
      ensures React(s, input, m, f).m.favoriteHand in f.hands
    {}

    /** The exit/enter loop of `RunCurrentStatePrivate` (source/Utility/StateMachine.h:228-253). */
    method PerformTransitions(f: Frame)
      requires current.Some? && !Spins(f)
      requires next == Some(TwoPlusScrolling) ==> favoriteHandId in f.hands
      modifies this
      ensures var r := Settle(old(current).value, old(Fields()), old(next), f);
        current == Some(r.s) && Fields() == r.m && calls == old(calls) + r.out
      ensures next == None
    {
      ghost var target := Settle(current.value, Fields(), next, f);
      while next.Some?
        invariant current.Some?
        invariant next == Some(TwoPlusScrolling) ==> favoriteHandId in f.hands
        invariant var r := Settle(current.value, Fields(), next, f);
          r.s == target.s && r.m == target.m && calls + r.out == old(calls) + target.out
        decreases if next.None? then 0 else 1 + Rank(next.value, f)
      {
        ghost var s, m, t, before := current.value, Fields(), next.value, calls;
        ghost var x := OnExit(s, m);
        ghost var e := OnEnter(t, x.m, f);
        EnterTargetIgnoresMemory(t, x.m, f);
        if e.next.Some? { EnteringDescends(t, f); }
        if e.next == Some(TwoPlusScrolling) { ScrollingHasItsHand(t, Enter, x.m, f); }
        var realNextState := next;
        next := None;
        var _ := CallCurrentState(Exit, f);
        assert next == None; // "You must not transition while exiting a state"
        current := realNextState;
        var _ := CallCurrentState(Enter, f);
        Assoc(before, x.out, e.out);
        Assoc(before, x.out + e.out, Settle(t, e.m, e.next, f).out);
      }
    }

    method Initialize(f: Frame)
      requires current == None && !Spins(f)
      modifies this
      ensures var r := Start(old(Fields()), f);
        current == Some(r.s) && Fields() == r.m && calls == old(calls) + r.out
      ensures next == None
    {
      current := Some(NoPointables);
      next := None;
      ghost var e := OnEnter(NoPointables, Fields(), f);
      var _ := CallCurrentState(Enter, f);
      Assoc(old(calls), e.out, Settle(NoPointables, e.m, e.next, f).out);
      PerformTransitions(f);
    }

    method RunCurrentState(input: Input, f: Frame)
      requires current.Some? && !Spins(f)
      requires input == ProcessFrame || input == LostFocus
      modifies this
      ensures var r := Run(old(current).value, old(Fields()), input, f);
        current == Some(r.s) && Fields() == r.m && calls == old(calls) + r.out
      ensures next == None
    {
      next := None;
      ghost var s, r := current.value, React(current.value, input, Fields(), f);
      var handled := CallCurrentState(input, f);
      assert handled; // "All user-defined state machine input must be handled"
      if next == Some(TwoPlusScrolling) { ScrollingHasItsHand(s, input, old(Fields()), f); }
      Assoc(old(calls), r.out, Settle(s, r.m, r.next, f).out);
      PerformTransitions(f);
    }

    method Shutdown(f: Frame)
      modifies this
      ensures current == None
      ensures calls == old(calls) + if old(current).None? then [] else OnExit(old(current).value, old(Fields())).out
    {
      if current.Some? {
        next := None;
        var _ := CallCurrentState(Exit, f);
        assert next == None; // "You must not transition while exiting a state"
        current := None;
      }
    }

    /** `processFrameInternal`. */
    method ProcessFrameInternal(f: Frame)
      requires !Spins(f)
      modifies this
      ensures var p := if old(current).None? then Start(old(Fields()), f) else Outcome(old(current).value, old(Fields()), [], 0);
        var r := Run(p.s, p.m, ProcessFrame, f);
        current == Some(r.s) && Fields() == r.m && calls == old(calls) + (p.out + r.out)
    {
      ghost var p := if current.None? then Start(Fields(), f) else Outcome(current.value, Fields(), [], 0);
      if current.None? {
        Initialize(f);
      }
      assert calls == old(calls) + p.out;
      Assoc(old(calls), p.out, Run(p.s, p.m, ProcessFrame, f).out);
      RunCurrentState(ProcessFrame, f);
    }

    /** `stopActiveEvents`. */
    method StopActiveEvents(f: Frame)
      requires current.Some? && !Spins(f)
      modifies this
      ensures var r := Run(old(current).value, old(Fields()), LostFocus, f);
        current == Some(r.s) && Fields() == r.m && calls == old(calls) + r.out
    {
      RunCurrentState(LostFocus, f);
    }
  }
}
