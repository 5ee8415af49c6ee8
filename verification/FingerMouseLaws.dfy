/**
  What the statechart of FingerMouseChart means to the person using it: over which frames each state is kept, which
  observation opens which gesture, how long recognition takes, and how presses are numbered.

  The laws speak of frames, calls and resting states only; the table of moves is what they are proved of.
 */
module FingerMouseLaws {
  import opened ValueTree
  import opened GestureTrace
  import opened MachineInputs
  import opened Observations
  import opened Presses
  import opened FingerMouseChart

  /** A gesture of the fingers goes on: no palm, not clearly no finger, and not lifted. */
  predicate HandGoesOn(f: Frame) {
    !InPalmMode(f) && (f.unambiguous ==> f.count > 0) && (f.noTouching ==> f.zone == ZoneTouching)
  }

  // ------------------------------------------------------ where it comes to rest

  /** The frames over which the machine comes to rest in a state. */
  predicate RestsOver(s: State, f: Frame) {
    match s
    case ZeroFingers => !InPalmMode(f) && (f.unambiguous ==> f.count == 0)
    case OneHovering => !InPalmMode(f) && (f.unambiguous ==> f.count == 1) && f.zone != ZoneTouching
    case OneClicking | OneDragging => !InPalmMode(f) && (f.unambiguous ==> f.count == 1) && f.zone == ZoneTouching
    case TwoHovering =>
      !InPalmMode(f) && (f.unambiguous ==> f.count == 2 || (f.count > 2 && !f.use3PlusFingerGestures)) && f.zone != ZoneTouching
    case TwoRecognition => HandGoesOn(f) && f.recent == Undecided
    case TwoRotating | TwoScrolling | TwoZooming | ThreeSwipeVertical | ThreeSwipeHorizontal => HandGoesOn(f)
    case ThreeNoInteraction => !InPalmMode(f) && (f.unambiguous ==> f.count >= 3) && f.zone == ZoneNone
    case ThreeHovering => !InPalmMode(f) && (f.unambiguous ==> f.count >= 3) && f.zone == ZoneHovering
    case ThreeRecognition => !InPalmMode(f) && (f.unambiguous ==> f.count >= 3) && f.zone == ZoneTouching
    case PalmRecognition | PalmSwipe => f.use3PlusFingerGestures && f.sideways && f.handValid && (f.foremostValid || f.hands > 0)
  }

  /** A frame that calls for a call: `e` may be made in its step. */
  predicate Warrants(f: Frame, e: Event) {
    match e
    case ClickDown(_) => f.zone == ZoneTouching && !InPalmMode(f) && (f.unambiguous ==> f.count == 1)
    case Begin(Rotate) => HandGoesOn(f) && f.recent == Rotating
    case Begin(Zoom) => HandGoesOn(f) && f.recent == Scaling
    case Begin(Scroll) => HandGoesOn(f) && (f.recent == Translating || (!f.useRotateAndZoom && f.zone == ZoneTouching))
    case Begin(DesktopSwipeVertical) => f.zone == ZoneTouching && !InPalmMode(f) && f.filtered == Translating && f.sinceStart == Vertical
    case Begin(DesktopSwipeHorizontal) =>
      if InPalmMode(f) then f.filtered == Translating && f.palmNear
      else f.zone == ZoneTouching && ((f.filtered == Translating && f.sinceStart == Horizontal) || (f.noTouching && f.turnedHorizontal))
    case _ => true
  }

  predicate AllWarranted(f: Frame, out: seq<Event>) { forall e | e in out :: Warrants(f, e) }

  /** What is known of a state asked for: where entering it looks at nothing, the frame already fits. */
  predicate MayEnter(t: State, f: Frame) {
    && (!FallsThrough(t) || t == OneDragging ==> RestsOver(t, f))
    && (GestureOf(t).Some? ==> Warrants(f, Begin(GestureOf(t).value)))
  }

  lemma HomeMayBeEntered(f: Frame)
    ensures MayEnter(Home(f), f)
  {}

  lemma MoveMayBeEntered(s: State, m: Memory, f: Frame)
    requires !Misfit(s, f) && Move(s, m, f).Some?
    ensures MayEnter(Move(s, m, f).value, f)
  {}

  lemma AskedForMayBeEntered(s: State, m: Memory, f: Frame)
    ensures FrameTarget(s, m, f).Some? ==> MayEnter(FrameTarget(s, m, f).value, f)
  {
    if Misfit(s, f) { HomeMayBeEntered(f); } else if Move(s, m, f).Some? { MoveMayBeEntered(s, m, f); }
  }

  lemma EnteringMayGoOn(t: State, f: Frame)
    requires MayEnter(t, f)
    ensures if EnterTarget(t, f).Some? then MayEnter(EnterTarget(t, f).value, f) else RestsOver(t, f)
  {
    if FallsThrough(t) { AskedForMayBeEntered(t, Memory(0, false, false, 0, f.now), f); }
  }

  lemma TransitionIsWarranted(s: State, m: Memory, t: State, f: Frame)
    requires MayEnter(t, f)
    ensures AllWarranted(f, ExitOut(s, m) + EnterOut(t, m, f))
  {}

  lemma {:induction false} SettlingRests(s: State, m: Memory, t: State, f: Frame)
    requires MayEnter(t, f)
    ensures var r := Settle(s, m, Some(t), f); RestsOver(r.s, f) && AllWarranted(f, r.out)
    decreases Rank(t, f)
  {
    EnteringMayGoOn(t, f);
    TransitionIsWarranted(s, m, t, f);
    if EnterTarget(t, f).Some? {
      EnteringDescends(t, f);
      SettlingRests(t, EnterMemory(t, m, f), EnterTarget(t, f).value, f);
    }
  }

  /** Whatever state it was in, after a processed frame the machine rests in a state that the frame fits. */
  lemma ProcessedFrameRests(s: State, m: Memory, f: Frame)
    ensures RestsOver(Run(s, m, ProcessFrame, f).s, f)
  {
    AskedForMayBeEntered(s, m, f);
    if FrameTarget(s, m, f).Some? { SettlingRests(s, FrameMemory(s, m, f), FrameTarget(s, m, f).value, f); }
  }

  lemma FrameIsWarranted(s: State, m: Memory, f: Frame)
    ensures AllWarranted(f, FrameOut(s, m, f))
  {}

  lemma RunOfFrame(s: State, m: Memory, f: Frame)
    ensures var t := Settle(s, FrameMemory(s, m, f), FrameTarget(s, m, f), f);
      Run(s, m, ProcessFrame, f) == Outcome(t.s, t.m, FrameOut(s, m, f) + t.out, t.moves)
  {}

  lemma RunOfLoss(s: State, m: Memory, f: Frame)
    ensures Run(s, m, LostFocus, f) == if s == ZeroFingers then Outcome(s, m, [], 0) else Settle(s, m, Some(ZeroFingers), f)
  {
    var r := Settle(s, m, React(s, LostFocus, m, f).next, f);
    assert [] + r.out == r.out;
  }

  /** Every gesture begun and every press made in a step is called for by the frame of that step. */
  lemma OpeningsAreWarranted(s: State, m: Memory, input: Input, f: Frame)
    requires IsUsers(input)
    ensures AllWarranted(f, Run(s, m, input, f).out)
  {
    if input == LostFocus {
      RunOfLoss(s, m, f);
      if s != ZeroFingers { SettlingRests(s, m, ZeroFingers, f); }
    } else {
      RunOfFrame(s, m, f);
      FrameIsWarranted(s, m, f);
      AskedForMayBeEntered(s, m, f);
      if FrameTarget(s, m, f).Some? { SettlingRests(s, FrameMemory(s, m, f), FrameTarget(s, m, f).value, f); }
    }
  }

  // ------------------------------------------------- when a state is kept

  /** The time or the motion that a state waits for over frames that fit it. */
  predicate IsDue(s: State, m: Memory, f: Frame) {
    match s
    case OneClicking => m.eligible && !f.movedFromClick && f.now - m.lastClickTime > 500 * MILLISECONDS
    case ThreeRecognition => f.now - m.gestureStart >= 10 * MILLISECONDS && f.filtered == Translating && f.sinceStart != NoDirection
    case ThreeSwipeVertical => f.noTouching && f.turnedHorizontal
    case PalmRecognition => f.now - m.gestureStart >= 100 * MILLISECONDS && f.filtered == Translating && f.palmNear
    case _ => false
  }

  lemma SettlingMoves(s: State, m: Memory, t: State, f: Frame)
    ensures Settle(s, m, Some(t), f).moves > 0
  {}

  lemma StaysIff(s: State, m: Memory, f: Frame)
    ensures FrameTarget(s, m, f).None? <==> RestsOver(s, f) && !IsDue(s, m, f)
  {}

  /** A frame leaves the state alone exactly when it fits and nothing is due; an open gesture then moves on by one call. */
  lemma KeptIff(s: State, m: Memory, f: Frame)
    ensures var r := Run(s, m, ProcessFrame, f);
      && (r.moves == 0 <==> RestsOver(s, f) && !IsDue(s, m, f))
      && (r.moves == 0 ==> r.s == s && r.out == if GestureOf(s).Some? then [ApplyOf(GestureOf(s).value)] else [])
  {
    var t := FrameTarget(s, m, f);
    RunOfFrame(s, m, f);
    StaysIff(s, m, f);
    if t.Some? { SettlingMoves(s, FrameMemory(s, m, f), t.value, f); }
    assert FrameOut(s, m, f) + [] == FrameOut(s, m, f);
  }

  // ----------------------------------------- what recognition leads to, and when

  /** The transition to a state that stays. */
  lemma OneMove(s: State, m: Memory, t: State, f: Frame)
    requires EnterTarget(t, f).None?
    ensures Settle(s, m, Some(t), f) == Outcome(t, EnterMemory(t, m, f), ExitOut(s, m) + EnterOut(t, m, f), 1)
  {}

  lemma Nothing(a: seq<Event>, b: seq<Event>)
    ensures (a + []) + ([] + b) == a + b
  {}

  lemma PassingIsSilent(t: State, m: Memory, f: Frame)
    requires MayEnter(t, f) && EnterTarget(t, f).Some?
    ensures ExitOut(t, EnterMemory(t, m, f)) == [] && EnterOut(t, m, f) == []
    ensures forall s :: EnterOut(s, EnterMemory(t, m, f), f) == EnterOut(s, m, f)
  {}

  /** However many states a frame passes through, the calls are those that close the first and open the last. */
  lemma {:induction false} SettlingCalls(s: State, m: Memory, t: State, f: Frame)
    requires MayEnter(t, f)
    ensures var r := Settle(s, m, Some(t), f); r.out == ExitOut(s, m) + EnterOut(r.s, m, f)
    decreases Rank(t, f)
  {
    EnteringMayGoOn(t, f);
    if EnterTarget(t, f).Some? {
      EnteringDescends(t, f);
      var m1 := EnterMemory(t, m, f);
      SettlingCalls(t, m1, EnterTarget(t, f).value, f);
      PassingIsSilent(t, m, f);
      Nothing(ExitOut(s, m), EnterOut(Settle(s, m, Some(t), f).s, m, f));
    }
  }

  /** All that two fingers in recognition can lead to in a frame. */
  lemma TwoFingersAreRecognised(m: Memory, f: Frame)
    ensures Run(TwoRecognition, m, ProcessFrame, f).out ==
      if !HandGoesOn(f) then []
      else match f.recent
        case Rotating => [Begin(Rotate), ApplyRotation]
        case Scaling => [Begin(Zoom), ApplyZoom]
        case Translating => [Begin(Scroll), ApplyScroll]
        case Undecided => []
  {
    AskedForMayBeEntered(TwoRecognition, m, f);
    if FrameTarget(TwoRecognition, m, f).Some? {
      var t := FrameTarget(TwoRecognition, m, f).value;
      if HandGoesOn(f) || InPalmMode(f) {
        OneMove(TwoRecognition, m, t, f);
      } else {
        SettlingRests(TwoRecognition, m, t, f);
        SettlingCalls(TwoRecognition, m, t, f);
      }
    }
  }

  lemma TouchLeadsToRecognition(m: Memory, f: Frame)
    requires !InPalmMode(f) && (f.unambiguous ==> f.count == 2) && f.zone == ZoneTouching && f.useRotateAndZoom
    ensures Settle(TwoHovering, m, Some(TwoRecognition), f).out == Settle(TwoRecognition, m, FrameTarget(TwoRecognition, m, f), f).out
  {
    var m1 := EnterMemory(TwoRecognition, m, f);
    if f.recent == Undecided {
      OneMove(TwoHovering, m, TwoRecognition, f);
    } else {
      OneMove(TwoRecognition, m1, EnterTarget(TwoRecognition, f).value, f);
      OneMove(TwoRecognition, m, EnterTarget(TwoRecognition, f).value, f);
    }
  }

  /** Two fingers that touch are recognised in the same frame, or scroll where rotating and zooming are off. */
  lemma TwoFingersTouch(m: Memory, f: Frame)
    requires !InPalmMode(f) && (f.unambiguous ==> f.count == 2) && f.zone == ZoneTouching
    ensures var r := Run(TwoHovering, m, ProcessFrame, f);
      if !f.useRotateAndZoom then r.out == [Begin(Scroll), ApplyScroll] && r.s == TwoScrolling
      else r.out == Run(TwoRecognition, m, ProcessFrame, f).out
  {
    RunOfFrame(TwoHovering, m, f);
    if !f.useRotateAndZoom {
      OneMove(TwoHovering, m, TwoScrolling, f);
    } else {
      RunOfFrame(TwoRecognition, m, f);
      TouchLeadsToRecognition(m, f);
    }
  }

  /** Three fingers that still touch. */
  predicate ThreeTouch(f: Frame) { !InPalmMode(f) && (f.unambiguous ==> f.count >= 3) && f.zone == ZoneTouching }

  /** Three fingers that touch swipe along the axis that won, once they have translated for 10 ms. */
  lemma ThreeFingersAreRecognised(m: Memory, f: Frame)
    requires ThreeTouch(f)
    ensures var r := Run(ThreeRecognition, m, ProcessFrame, f);
      r.out == if f.now - m.gestureStart < 10 * MILLISECONDS || f.filtered != Translating then []
               else match f.sinceStart
                 case Horizontal => [Begin(DesktopSwipeHorizontal)]
                 case Vertical => [Begin(DesktopSwipeVertical)]
                 case NoDirection => []
  {
    if FrameTarget(ThreeRecognition, m, f).Some? {
      OneMove(ThreeRecognition, m, FrameTarget(ThreeRecognition, m, f).value, f);
    }
  }

  /** A vertical swipe that is lifted and turns is moved on once more and followed by a horizontal one. */
  lemma VerticalSwipeTurns(m: Memory, f: Frame)
    requires HandGoesOn(f) && f.noTouching && f.turnedHorizontal
    ensures Run(ThreeSwipeVertical, m, ProcessFrame, f).out == [ApplyDesktopSwipe, End, Begin(DesktopSwipeHorizontal)]
  {
    OneMove(ThreeSwipeVertical, m, ThreeSwipeHorizontal, f);
  }

  /** Every other gesture that ends makes no further move in the frame that ends it. */
  lemma GestureEnds(s: State, m: Memory, f: Frame)
    requires GestureOf(s).Some? && Run(s, m, ProcessFrame, f).moves > 0
    requires !(s == ThreeSwipeVertical && HandGoesOn(f))
    ensures var out := Run(s, m, ProcessFrame, f).out; out != [] && out[0] == End
  {
    assert FrameOut(s, m, f) == [];
  }

  /** A palm swipes once it has translated near the screen for 100 ms. */
  lemma PalmIsRecognised(m: Memory, f: Frame)
    requires InPalmMode(f)
    ensures Run(PalmRecognition, m, ProcessFrame, f).out ==
      if f.now - m.gestureStart >= 100 * MILLISECONDS && f.filtered == Translating && f.palmNear
      then [Begin(DesktopSwipeHorizontal)] else []
  {
    if FrameTarget(PalmRecognition, m, f).Some? { OneMove(PalmRecognition, m, PalmSwipe, f); }
  }

  /** One finger that touches presses at once. */
  lemma OneFingerPresses(m: Memory, f: Frame)
    requires !InPalmMode(f) && (f.unambiguous ==> f.count == 1) && f.zone == ZoneTouching
    ensures var r := Run(OneHovering, m, ProcessFrame, f); r.s == OneClicking && |r.out| == 1 && r.out[0].ClickDown?
  {
    OneMove(OneHovering, m, OneClicking, f);
  }

  /** A drag takes the button over: nothing is called when it begins, and the release comes when it ends. */
  lemma DragTakesOver(m: Memory, f: Frame)
    requires RestsOver(OneClicking, f)
    ensures var r := Run(OneClicking, m, ProcessFrame, f);
      && r.out == []
      && r.s == if m.eligible && !f.movedFromClick && f.now - m.lastClickTime > 500 * MILLISECONDS then OneDragging else OneClicking
  {
    if DragDue(m, f) { OneMove(OneClicking, FrameMemory(OneClicking, m, f), OneDragging, f); }
  }

  // --------------------------------------------------- times, over a whole run

  ghost predicate AllUsers(steps: seq<Step>) { forall i | 0 <= i < |steps| :: IsUsers(steps[i].input) }

  /** The last step of a run, from where the steps before it have led; a run without steps is its start. */
  function Last(m: Memory, f: Frame, steps: seq<Step>): Outcome {
    if steps == [] then Start(m, f)
    else
      var p, last := Play(m, f, steps[..|steps| - 1]), steps[|steps| - 1];
      Run(p.s, p.m, last.input, last.frame)
  }

  function Now(f: Frame, steps: seq<Step>): int { if steps == [] then f.now else steps[|steps| - 1].frame.now }

  /** The time at which the machine came to the state it is in. */
  function RestingSince(m: Memory, f: Frame, steps: seq<Step>): int {
    if steps == [] || Last(m, f, steps).moves > 0 then Now(f, steps) else RestingSince(m, f, steps[..|steps| - 1])
  }

  lemma SettleGoesOn(s: State, m: Memory, t: State, f: Frame)
    requires EnterTarget(t, f).Some?
    ensures var r, n := Settle(s, m, Some(t), f), Settle(t, EnterMemory(t, m, f), EnterTarget(t, f), f);
      r.s == n.s && r.m == n.m && r.out == ExitOut(s, m) + EnterOut(t, m, f) + n.out
  {}

  /** Recognition starts its clock when it is entered. */
  lemma {:induction false} SettlingStartsClock(s: State, m: Memory, t: State, f: Frame)
    ensures var r := Settle(s, m, Some(t), f); RecordsStart(r.s) ==> r.m.gestureStart == f.now
    decreases Rank(t, f)
  {
    if EnterTarget(t, f).Some? {
      EnteringDescends(t, f);
      SettleGoesOn(s, m, t, f);
      SettlingStartsClock(t, EnterMemory(t, m, f), EnterTarget(t, f).value, f);
    } else {
      OneMove(s, m, t, f);
    }
  }

  /** What entering a state that is passed through does to the fields. */
  lemma PassingKeepsClick(t: State, m: Memory, f: Frame, u: State, start: int)
    requires MayEnter(t, f) && EnterTarget(t, f).Some?
    ensures EnterMemory(u, EnterMemory(t, m, f), f).(gestureStart := start) == EnterMemory(u, m, f).(gestureStart := start)
  {}

  /** Entering leaves the click alone unless it presses. */
  lemma {:induction false} SettlingRemembers(s: State, m: Memory, t: State, f: Frame)
    requires MayEnter(t, f)
    ensures var r := Settle(s, m, Some(t), f); r.m == EnterMemory(r.s, m, f).(gestureStart := r.m.gestureStart)
    decreases Rank(t, f)
  {
    if EnterTarget(t, f).Some? {
      var m1 := EnterMemory(t, m, f);
      EnteringMayGoOn(t, f);
      EnteringDescends(t, f);
      SettleGoesOn(s, m, t, f);
      SettlingRemembers(t, m1, EnterTarget(t, f).value, f);
      var r := Settle(s, m, Some(t), f);
      PassingKeepsClick(t, m, f, r.s, r.m.gestureStart);
    } else {
      OneMove(s, m, t, f);
    }
  }

  lemma RunRemembers(s: State, m: Memory, input: Input, f: Frame)
    requires IsUsers(input)
    ensures var r := Run(s, m, input, f);
      RecordsStart(r.s) ==> if r.moves > 0 then r.m.gestureStart == f.now else r.s == s && r.m.gestureStart == m.gestureStart
  {
    var r := React(s, input, m, f);
    AskedForMayBeEntered(s, m, f);
    if r.next.Some? {
      SettlingStartsClock(s, r.m, r.next.value, f);
      SettlingMoves(s, r.m, r.next.value, f);
    }
  }

  lemma StartRemembers(m: Memory, f: Frame)
    ensures var r := Start(m, f); RecordsStart(r.s) ==> r.m.gestureStart == f.now
  {
    var m1 := EnterMemory(ZeroFingers, m, f);
    if EnterTarget(ZeroFingers, f).Some? { SettlingStartsClock(ZeroFingers, m1, EnterTarget(ZeroFingers, f).value, f); }
  }

  lemma PlayedLast(m: Memory, f: Frame, steps: seq<Step>)
    ensures Play(m, f, steps).s == Last(m, f, steps).s && Play(m, f, steps).m == Last(m, f, steps).m
  {}

  /** The clock of a recognition shows the time at which the machine came to it. */
  lemma {:induction false} ClockShowsRest(m: Memory, f: Frame, steps: seq<Step>)
    requires AllUsers(steps)
    ensures var p := Last(m, f, steps); RecordsStart(p.s) ==> p.m.gestureStart == RestingSince(m, f, steps)
    decreases |steps|
  {
    if steps == [] {
      StartRemembers(m, f);
    } else {
      var before, last := steps[..|steps| - 1], steps[|steps| - 1];
      ClockShowsRest(m, f, before);
      PlayedLast(m, f, before);
      RunRemembers(Play(m, f, before).s, Play(m, f, before).m, last.input, last.frame);
    }
  }

  predicate IsDesktopSwipe(s: State) { s == ThreeSwipeVertical || s == ThreeSwipeHorizontal || s == PalmSwipe }

  lemma EnteringNeverSwipes(t: State, f: Frame)
    requires !IsDesktopSwipe(t) && EnterTarget(t, f).Some?
    ensures !IsDesktopSwipe(EnterTarget(t, f).value)
  {}

  /** No frame both starts a recognition and ends it in a swipe. */
  lemma {:induction false} SettlingNeverSwipes(s: State, m: Memory, t: State, f: Frame)
    requires !IsDesktopSwipe(t)
    ensures !IsDesktopSwipe(Settle(s, m, Some(t), f).s)
    decreases Rank(t, f)
  {
    if EnterTarget(t, f).Some? {
      EnteringDescends(t, f);
      EnteringNeverSwipes(t, f);
      SettleGoesOn(s, m, t, f);
      SettlingNeverSwipes(t, EnterMemory(t, m, f), EnterTarget(t, f).value, f);
    } else {
      OneMove(s, m, t, f);
    }
  }

  /** What asks for a desktop swipe. */
  predicate AsksForSwipe(s: State, m: Memory, g: Gesture, f: Frame) {
    match s
    case ThreeRecognition => f.now - m.gestureStart >= 10 * MILLISECONDS
    case PalmRecognition => f.now - m.gestureStart >= 100 * MILLISECONDS && g == DesktopSwipeHorizontal
    case ThreeSwipeVertical => g == DesktopSwipeHorizontal
    case _ => false
  }

  lemma SwipeIsAskedFor(s: State, m: Memory, f: Frame)
    ensures var t := FrameTarget(s, m, f); t.Some? && IsDesktopSwipe(t.value) ==> AsksForSwipe(s, m, GestureOf(t.value).value, f)
  {}

  lemma BeginNamesState(s: State, m: Memory, t: State, g: Gesture, f: Frame)
    requires Begin(g) in ExitOut(s, m) + EnterOut(t, m, f)
    ensures GestureOf(t) == Some(g)
  {}

  lemma SettlingBegins(s: State, m: Memory, t: State, g: Gesture, f: Frame)
    requires MayEnter(t, f) && Begin(g) in Settle(s, m, Some(t), f).out
    ensures GestureOf(Settle(s, m, Some(t), f).s) == Some(g)
  {
    SettlingCalls(s, m, t, f);
    BeginNamesState(s, m, Settle(s, m, Some(t), f).s, g, f);
  }

  lemma SettlingSwipes(s: State, m: Memory, t: State, g: Gesture, f: Frame)
    requires MayEnter(t, f) && IsSwipe(Some(g)) && Begin(g) in Settle(s, m, Some(t), f).out
    ensures IsDesktopSwipe(t) && GestureOf(t) == Some(g)
  {
    SettlingBegins(s, m, t, g, f);
    if IsDesktopSwipe(t) { OneMove(s, m, t, f); } else { SettlingNeverSwipes(s, m, t, f); }
  }

  /** A desktop swipe begins in a state that asks for it, in a processed frame. */
  lemma SwipeComesFrom(s: State, m: Memory, input: Input, g: Gesture, f: Frame)
    requires IsUsers(input) && IsSwipe(Some(g)) && Begin(g) in Run(s, m, input, f).out
    ensures AsksForSwipe(s, m, g, f)
  {
    var r := React(s, input, m, f);
    assert Begin(g) !in r.out;
    if r.next.Some? {
      AskedForMayBeEntered(s, m, f);
      assert MayEnter(r.next.value, f);
      SettlingSwipes(s, r.m, r.next.value, g, f);
      SwipeIsAskedFor(s, m, f);
    }
  }

  /**
    In every run a desktop swipe of the fingers begins no sooner than 10 ms after they came to rest in recognition,
    unless a vertical one turns; one of the palm no sooner than 100 ms after the palm did.
   */
  lemma SwipesTakeTime(m: Memory, f: Frame, steps: seq<Step>, g: Gesture)
    requires AllUsers(steps) && steps != [] && IsSwipe(Some(g))
    ensures Begin(g) in Last(m, f, steps).out ==>
      var before := steps[..|steps| - 1];
      var rested := Now(f, steps) - RestingSince(m, f, before);
      match Play(m, f, before).s
      case ThreeRecognition => rested >= 10 * MILLISECONDS
      case PalmRecognition => rested >= 100 * MILLISECONDS && g == DesktopSwipeHorizontal
      case ThreeSwipeVertical => g == DesktopSwipeHorizontal
      case _ => false
  {
    var before, last := steps[..|steps| - 1], steps[|steps| - 1];
    var p := Play(m, f, before);
    ClockShowsRest(m, f, before);
    PlayedLast(m, f, before);
    if Begin(g) in Last(m, f, steps).out { SwipeComesFrom(p.s, p.m, last.input, g, last.frame); }
  }

  // ----------------------------------------------- presses, over a whole run

  /** What the person did with the button last: pressed it as a click of this number, and what came of it since. */
  datatype Press = Press(number: int, time: int, still: bool, dragged: bool)

  /** A new press counts on from a close one in the last three seconds, up to three, but not across a drag. */
  function NumberAfter(last: Option<Press>, f: Frame): int {
    if last.None? || f.now - last.value.time > 3 * SECONDS || f.farFromLastClick || last.value.dragged || last.value.number == 3 then 1
    else last.value.number + 1
  }

  function ReleaseOf(p: Press): Event { ClickUp(if p.dragged then 0 else p.number) }

  function Follow(p: Option<Press>, s: State, out: seq<Event>, input: Input, f: Frame): Option<Press> {
    if DownIn(out).Some? then Some(Press(DownIn(out).value, f.now, true, false))
    else if p.None? then None
    else if s == OneDragging then Some(p.value.(dragged := true))
    else if input == ProcessFrame && f.movedFromClick then Some(p.value.(still := false))
    else p
  }

  /** The last press of a run; `still` as long as no frame since has shown it moved, `dragged` once a drag began. */
  function LastPress(m: Memory, f: Frame, steps: seq<Step>): Option<Press> {
    var r := Last(m, f, steps);
    if steps == [] then Follow(None, r.s, r.out, Enter, f)
    else
      var last := steps[|steps| - 1];
      Follow(LastPress(m, f, steps[..|steps| - 1]), r.s, r.out, last.input, last.frame)
  }

  /** The fields of the machine agree with the last press. */
  ghost predicate Agrees(p: Option<Press>, s: State, m: Memory) {
    match p
    case None => m.clickNumber == 0 && !ButtonDownIn(s)
    case Some(q) =>
      && m.lastClickTime == q.time && m.clickNumber == (if q.dragged then 0 else q.number)
      && (s == OneClicking ==> m.eligible == q.still && !q.dragged && !m.deferClickUp)
      && (s == OneDragging ==> q.dragged)
  }

  lemma PressOfEntry(s: State, m: Memory, t: State, f: Frame)
    ensures DownIn(ExitOut(s, m) + EnterOut(t, m, f)) == if t == OneClicking then Some(NextClickNumber(m, f)) else None
  {
    DownInTwo(ExitOut(s, m), EnterOut(t, m, f));
  }

  lemma UpOfEntry(s: State, m: Memory, t: State, f: Frame)
    ensures forall e | e in ExitOut(s, m) + EnterOut(t, m, f) && e.ClickUp? :: e in ExitOut(s, m)
  {}

  /** A chain of transitions presses when it ends in a click, with the number that is due. */
  lemma SettlingPresses(s: State, m: Memory, t: State, f: Frame)
    requires MayEnter(t, f)
    ensures var r := Settle(s, m, Some(t), f);
      && DownIn(r.out) == (if r.s == OneClicking then Some(NextClickNumber(m, f)) else None)
      && (forall e | e in r.out && e.ClickUp? :: e in ExitOut(s, m))
  {
    SettlingCalls(s, m, t, f);
    var r := Settle(s, m, Some(t), f);
    PressOfEntry(s, m, r.s, f);
    UpOfEntry(s, m, r.s, f);
  }

  /** The fields of a click, after a chain of transitions. */
  ghost predicate ClickFields(s: State, m: Memory, m1: Memory, f: Frame) {
    if s == OneClicking then m1.clickNumber == NextClickNumber(m, f) && m1.eligible && !m1.deferClickUp && m1.lastClickTime == f.now
    else m1.clickNumber == m.clickNumber && m1.lastClickTime == m.lastClickTime
  }

  lemma SettlingKeepsClick(s: State, m: Memory, t: State, f: Frame)
    requires MayEnter(t, f)
    ensures var r := Settle(s, m, Some(t), f); ClickFields(r.s, m, r.m, f) && (r.s == OneDragging <==> t == OneDragging)
  {
    SettlingRemembers(s, m, t, f);
    NothingPassesToDragging(s, m, t, f);
    if t == OneDragging { OneMove(s, m, t, f); }
  }

  lemma {:induction false} NothingPassesToDragging(s: State, m: Memory, t: State, f: Frame)
    ensures Settle(s, m, Some(t), f).s == OneDragging ==> t == OneDragging
    decreases Rank(t, f)
  {
    if EnterTarget(t, f).Some? {
      EnteringDescends(t, f);
      NothingPassesToDragging(t, EnterMemory(t, m, f), EnterTarget(t, f).value, f);
    }
  }

  /** A drag begins over a press that was held still for more than half a second. */
  predicate DragBegins(p: Option<Press>, s: State, input: Input, f: Frame) {
    && s == OneClicking && input == ProcessFrame && RestsOver(OneClicking, f)
    && p.Some? && p.value.still && !f.movedFromClick && f.now - p.value.time > 500 * MILLISECONDS
  }

  /** One step: the number pressed, the number released, when a drag begins. */
  ghost predicate Counts(p: Option<Press>, s: State, r: Outcome, input: Input, f: Frame) {
    && (DownIn(r.out).Some? ==> DownIn(r.out).value == NumberAfter(p, f))
    && (forall e | e in r.out && e.ClickUp? :: p.Some? && e == ReleaseOf(p.value))
    && (s != OneDragging && r.s == OneDragging <==> DragBegins(p, s, input, f))
  }

  lemma FramePresses(p: Option<Press>, s: State, m: Memory, f: Frame)
    requires Agrees(p, s, m)
    ensures var t, m1 := FrameTarget(s, m, f), FrameMemory(s, m, f);
      && (t == Some(OneDragging) <==> DragBegins(p, s, ProcessFrame, f))
      && (t.None? ==> Agrees(Follow(p, s, [], ProcessFrame, f), s, m1))
      && m1.lastClickTime == m.lastClickTime && m1.clickNumber == (if t == Some(OneDragging) then 0 else m.clickNumber)
      && (forall e | e in ExitOut(s, m1) && e.ClickUp? :: p.Some? && e == ReleaseOf(p.value))
  {}

  lemma NoPressInFrame(s: State, m: Memory, f: Frame)
    ensures DownIn(FrameOut(s, m, f)) == None && forall e | e in FrameOut(s, m, f) :: !e.ClickUp?
  {
    DownInTwo([], FrameOut(s, m, f));
    assert [] + FrameOut(s, m, f) == FrameOut(s, m, f);
  }

  /** The fields that the handler of a step leaves, before a transition to `t`. */
  ghost predicate LeavesFields(p: Option<Press>, s: State, m: Memory, t: State) {
    if p.None? then m.clickNumber == 0 && !ButtonDownIn(s) && t != OneDragging
    else m.lastClickTime == p.value.time && m.clickNumber == if p.value.dragged || t == OneDragging then 0 else p.value.number
  }

  /** What the transitions of a step do to the button. */
  ghost predicate MayPress(m: Memory, t: State, r: Outcome, f: Frame) {
    && DownIn(r.out) == (if r.s == OneClicking then Some(NextClickNumber(m, f)) else None)
    && ClickFields(r.s, m, r.m, f) && (r.s == OneDragging <==> t == OneDragging)
  }

  lemma PressesCount(p: Option<Press>, s: State, m: Memory, t: State, r: Outcome, input: Input, f: Frame)
    requires LeavesFields(p, s, m, t) && MayPress(m, t, r, f)
    ensures DownIn(r.out).Some? ==> DownIn(r.out).value == NumberAfter(p, f)
    ensures Agrees(Follow(p, r.s, r.out, input, f), r.s, r.m)
  {}

  /** The transitions of a step, from the fields the handler left. */
  lemma SettlingCounts(p: Option<Press>, s: State, m: Memory, t: State, input: Input, f: Frame)
    requires MayEnter(t, f) && LeavesFields(p, s, m, t)
    ensures var r := Settle(s, m, Some(t), f);
      && (DownIn(r.out).Some? ==> DownIn(r.out).value == NumberAfter(p, f))
      && Agrees(Follow(p, r.s, r.out, input, f), r.s, r.m)
  {
    SettlingPresses(s, m, t, f);
    SettlingKeepsClick(s, m, t, f);
    PressesCount(p, s, m, t, Settle(s, m, Some(t), f), input, f);
  }

  lemma FollowIgnores(p: Option<Press>, s: State, a: seq<Event>, b: seq<Event>, input: Input, f: Frame)
    requires DownIn(a) == None
    ensures Follow(p, s, a + b, input, f) == Follow(p, s, b, input, f)
  {
    DownInConcat(a, b);
  }

  lemma FrameCounts(p: Option<Press>, s: State, m: Memory, f: Frame)
    requires Agrees(p, s, m)
    ensures var r := Run(s, m, ProcessFrame, f); Counts(p, s, r, ProcessFrame, f) && Agrees(Follow(p, r.s, r.out, ProcessFrame, f), r.s, r.m)
  {
    var t, m1, out := FrameTarget(s, m, f), FrameMemory(s, m, f), FrameOut(s, m, f);
    FramePresses(p, s, m, f);
    NoPressInFrame(s, m, f);
    RunOfFrame(s, m, f);
    var r := Settle(s, m1, t, f);
    DownInConcat(out, r.out);
    FollowIgnores(p, r.s, out, r.out, ProcessFrame, f);
    if t.Some? {
      AskedForMayBeEntered(s, m, f);
      SettlingPresses(s, m1, t.value, f);
      SettlingKeepsClick(s, m1, t.value, f);
      SettlingCounts(p, s, m1, t.value, ProcessFrame, f);
    }
  }

  lemma ReleaseIsOfPress(p: Option<Press>, s: State, m: Memory)
    requires Agrees(p, s, m)
    ensures forall e | e in ExitOut(s, m) && e.ClickUp? :: p.Some? && e == ReleaseOf(p.value)
  {}

  /** The releases of a chain of transitions are of the press that it ends. */
  lemma SettlingReleases(p: Option<Press>, s: State, m: Memory, t: State, f: Frame)
    requires MayEnter(t, f) && Agrees(p, s, m)
    ensures forall e | e in Settle(s, m, Some(t), f).out && e.ClickUp? :: p.Some? && e == ReleaseOf(p.value)
  {
    ReleaseIsOfPress(p, s, m);
    SettlingPresses(s, m, t, f);
  }

  lemma LossSettles(p: Option<Press>, s: State, m: Memory, f: Frame)
    requires Agrees(p, s, m)
    ensures var r := Settle(s, m, Some(ZeroFingers), f);
      Counts(p, s, r, LostFocus, f) && Agrees(Follow(p, r.s, r.out, LostFocus, f), r.s, r.m)
  {
    SettlingReleases(p, s, m, ZeroFingers, f);
    SettlingKeepsClick(s, m, ZeroFingers, f);
    SettlingCounts(p, s, m, ZeroFingers, LostFocus, f);
  }

  lemma LossCounts(p: Option<Press>, s: State, m: Memory, f: Frame)
    requires Agrees(p, s, m)
    ensures var r := Run(s, m, LostFocus, f); Counts(p, s, r, LostFocus, f) && Agrees(Follow(p, r.s, r.out, LostFocus, f), r.s, r.m)
  {
    RunOfLoss(s, m, f);
    if s != ZeroFingers { LossSettles(p, s, m, f); }
  }

  lemma StartAgrees(m: Memory, f: Frame)
    requires m.clickNumber == 0
    ensures var r := Start(m, f);
      && (DownIn(r.out).Some? ==> DownIn(r.out).value == 1)
      && Agrees(Follow(None, r.s, r.out, Enter, f), r.s, r.m)
  {
    var m1 := EnterMemory(ZeroFingers, m, f);
    var next := EnterTarget(ZeroFingers, f);
    var r := Settle(ZeroFingers, m1, next, f);
    assert [] + r.out == r.out;
    if next.Some? {
      AskedForMayBeEntered(ZeroFingers, Memory(0, false, false, 0, f.now), f);
      SettlingKeepsClick(ZeroFingers, m1, next.value, f);
      SettlingCounts(None, ZeroFingers, m1, next.value, Enter, f);
    }
  }

  /**
    In every run from construction: a press is numbered by the press before it, a release by the press it ends, and a drag
    begins exactly when a press has been held still over a fitting finger for more than half a second.
   */
  lemma {:induction false} PressesAreCounted(m: Memory, f: Frame, steps: seq<Step>)
    requires m.clickNumber == 0 && AllUsers(steps)
    ensures steps != [] ==>
      var before, last := steps[..|steps| - 1], steps[|steps| - 1];
      Counts(LastPress(m, f, before), Play(m, f, before).s, Last(m, f, steps), last.input, last.frame)
    ensures Agrees(LastPress(m, f, steps), Last(m, f, steps).s, Last(m, f, steps).m)
    decreases |steps|
  {
    if steps == [] {
      StartAgrees(m, f);
    } else {
      var before, last := steps[..|steps| - 1], steps[|steps| - 1];
      PressesAreCounted(m, f, before);
      PlayedLast(m, f, before);
      var p := Play(m, f, before);
      if last.input == ProcessFrame {
        FrameCounts(LastPress(m, f, before), p.s, p.m, last.frame);
      } else {
        LossCounts(LastPress(m, f, before), p.s, p.m, last.frame);
      }
    }
  }
}
