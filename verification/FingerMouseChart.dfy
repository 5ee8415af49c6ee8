/**
  The state machine of source/GestureInteraction/FingerMouse.cpp:470-1325, as a statechart: entry and exit
  actions, guarded moves, and what a processed frame emits.

  Drawing, cursor placement and the favourite pointable do not influence transitions and are not modelled.
 */
module FingerMouseChart {
  import opened ValueTree
  import opened GestureTrace
  import opened MachineInputs
  import opened Observations

  datatype State =
    | ZeroFingers
    | OneHovering | OneClicking | OneDragging
    | TwoHovering | TwoRecognition | TwoRotating | TwoScrolling | TwoZooming
    | ThreeNoInteraction | ThreeHovering | ThreeRecognition | ThreeSwipeVertical | ThreeSwipeHorizontal
    | PalmRecognition | PalmSwipe

  /** Everything the handlers read from a frame, and the two static switches. */
  datatype Frame = Frame(
    use3PlusFingerGestures: bool,
    useRotateAndZoom: bool,
    now: int,                   // timestamp, in microseconds
    unambiguous: bool,          // the filtered pointable count is unambiguous ...
    count: nat,                 // ... and this is it
    zone: Zone,                 // collectiveZone()
    noTouching: bool,           // no relevant pointable is touching
    foremostValid: bool,        // the foremost pointable exists in the frame
    hands: nat,                 // number of hands
    handValid: bool,            // the hand taken from that pointable, or else the first hand, is valid
    sideways: bool,             // that hand's palm normal is close to the x axis
    palmNear: bool,             // that hand's palm has z at most 150
    farFromLastClick: bool,     // over 50 pixels between the cursor and the last click
    movedFromClick: bool,       // 50 pixels or more between the tracked position and the last click
    recent: Motion,             // what won against the frame of 100 ms ago
    filtered: Motion,           // rts(), Undecided when it is ambiguous
    sinceStart: Direction,      // what wins in the translation since the gesture start
    turnedHorizontal: bool)     // horizontal wins in the translation since the previous frame

  /** The fields that outlive a handler. */
  datatype Memory = Memory(clickNumber: int, deferClickUp: bool, eligible: bool, lastClickTime: int, gestureStart: int)

  /** What a handler does: new fields, requested state, calls made. */
  datatype Reaction = Reaction(m: Memory, next: Option<State>, out: seq<Event>)

  /** `shouldBeInPalmSwipeMode`. */
  predicate InPalmMode(f: Frame) {
    (f.foremostValid || f.hands > 0) && f.handValid && f.use3PlusFingerGestures && f.sideways
  }

  /** `FingerMouse_TransitionTo_NFingers_NoInteraction`. */
  function Home(f: Frame): State {
    if InPalmMode(f) then PalmRecognition
    else if !f.unambiguous || f.count == 0 then ZeroFingers
    else if f.count == 1 then OneHovering
    else if f.count == 2 || !f.use3PlusFingerGestures then TwoHovering
    else ThreeNoInteraction
  }

  /** The state no longer fits the number of fingers or the palm. */
  predicate Misfit(s: State, f: Frame) {
    match s
    case ZeroFingers => (f.unambiguous && f.count > 0) || InPalmMode(f)
    case OneHovering | OneClicking | OneDragging => (f.unambiguous && f.count != 1) || InPalmMode(f)
    case TwoHovering => InPalmMode(f) || (f.unambiguous && f.count != 2 && (f.use3PlusFingerGestures || f.count < 3))
    case TwoRecognition | TwoRotating | TwoScrolling | TwoZooming | ThreeSwipeVertical | ThreeSwipeHorizontal =>
      (f.unambiguous && f.count == 0) || InPalmMode(f)
    case ThreeNoInteraction | ThreeHovering | ThreeRecognition => (f.unambiguous && f.count < 3) || InPalmMode(f)
    case PalmRecognition | PalmSwipe => !InPalmMode(f)
  }

  predicate DragDue(m: Memory, f: Frame) {
    m.eligible && !f.movedFromClick && f.now - m.lastClickTime > 500 * MILLISECONDS
  }

  /** Where a state that still fits moves on a frame, by zone, motion and time. */
  function Move(s: State, m: Memory, f: Frame): Option<State> {
    match s
    case OneHovering => if f.zone == ZoneTouching then Some(OneClicking) else None
    case OneClicking => if f.zone != ZoneTouching then Some(OneHovering) else if DragDue(m, f) then Some(OneDragging) else None
    case OneDragging => if f.zone != ZoneTouching then Some(OneHovering) else None
    case TwoHovering =>
      if f.zone != ZoneTouching then None else if f.useRotateAndZoom then Some(TwoRecognition) else Some(TwoScrolling)
    case TwoRecognition =>
      if f.noTouching && f.zone != ZoneTouching then Some(TwoHovering)
      else if f.recent == Rotating then Some(TwoRotating)
      else if f.recent == Scaling then Some(TwoZooming)
      else if f.recent == Translating then Some(TwoScrolling)
      else None
    case TwoRotating | TwoScrolling | TwoZooming => if f.noTouching && f.zone != ZoneTouching then Some(TwoHovering) else None
    case ThreeNoInteraction =>
      if f.zone == ZoneHovering then Some(ThreeHovering) else if f.zone == ZoneTouching then Some(ThreeRecognition) else None
    case ThreeHovering =>
      if f.zone == ZoneNone then Some(ThreeNoInteraction) else if f.zone == ZoneTouching then Some(ThreeRecognition) else None
    case ThreeRecognition =>
      if f.zone == ZoneNone then Some(ThreeNoInteraction)
      else if f.zone == ZoneHovering then Some(ThreeHovering)
      else if f.now - m.gestureStart < 10 * MILLISECONDS || f.filtered != Translating then None
      else if f.sinceStart == Horizontal then Some(ThreeSwipeHorizontal)
      else if f.sinceStart == Vertical then Some(ThreeSwipeVertical)
      else None
    case ThreeSwipeVertical =>
      if !f.noTouching then None
      else if f.zone != ZoneTouching then Some(ThreeNoInteraction)
      else if f.turnedHorizontal then Some(ThreeSwipeHorizontal)
      else None
    case ThreeSwipeHorizontal => if f.noTouching && f.zone != ZoneTouching then Some(ThreeNoInteraction) else None
    case PalmRecognition =>
      if f.now - m.gestureStart >= 100 * MILLISECONDS && f.filtered == Translating && f.palmNear then Some(PalmSwipe) else None
    case _ => None
  }

  function FrameTarget(s: State, m: Memory, f: Frame): Option<State> {
    if Misfit(s, f) then Some(Home(f)) else Move(s, m, f)
  }

  /** The gesture a state keeps open. */
  function GestureOf(s: State): Option<Gesture> {
    match s
    case TwoRotating => Some(Rotate)
    case TwoScrolling => Some(Scroll)
    case TwoZooming => Some(Zoom)
    case ThreeSwipeVertical => Some(DesktopSwipeVertical)
    case ThreeSwipeHorizontal | PalmSwipe => Some(DesktopSwipeHorizontal)
    case _ => None
  }

  predicate ButtonDownIn(s: State) { s == OneClicking || s == OneDragging }

  /** A frame that the state stays for, or swipes through, moves its open gesture on. */
  function FrameOut(s: State, m: Memory, f: Frame): seq<Event> {
    if GestureOf(s).Some? && (FrameTarget(s, m, f).None? || FrameTarget(s, m, f) == Some(ThreeSwipeHorizontal))
    then [ApplyOf(GestureOf(s).value)] else []
  }

  function FrameMemory(s: State, m: Memory, f: Frame): Memory {
    if s == OneClicking && !Misfit(s, f) && f.zone == ZoneTouching then
      if DragDue(m, f) then m.(deferClickUp := true, clickNumber := 0)
      else if f.movedFromClick then m.(eligible := false)
      else m
    else m
  }

  function NextClickNumber(m: Memory, f: Frame): int {
    if f.now - m.lastClickTime > 3 * SECONDS || f.farFromLastClick || m.clickNumber == 3 then 1 else m.clickNumber + 1
  }

  predicate RecordsStart(s: State) { s == TwoRecognition || s == ThreeRecognition || s == PalmRecognition }

  /** Entering these runs the frame reaction too; the others wait for the next frame. */
  predicate FallsThrough(s: State) {
    s != OneClicking && s != ThreeHovering && GestureOf(s).None?
  }

  function EnterTarget(s: State, f: Frame): Option<State> {
    if s == OneClicking then if (f.unambiguous && f.count == 0) || InPalmMode(f) then Some(Home(f)) else None
    else if FallsThrough(s) then FrameTarget(s, Memory(0, false, false, 0, f.now), f)
    else None
  }

  function EnterMemory(s: State, m: Memory, f: Frame): Memory {
    if RecordsStart(s) then m.(gestureStart := f.now)
    else if s == OneClicking then Memory(NextClickNumber(m, f), false, true, f.now, m.gestureStart)
    else m
  }

  /** Three-finger and palm swipes begin without moving. */
  function EnterOut(s: State, m: Memory, f: Frame): seq<Event> {
    if s == OneClicking then [ClickDown(NextClickNumber(m, f))]
    else match GestureOf(s)
      case None => []
      case Some(g) => if IsSwipe(Some(g)) then [Begin(g)] else [Begin(g), ApplyOf(g)]
  }

  function ExitOut(s: State, m: Memory): seq<Event> {
    if (s == OneClicking && !m.deferClickUp) || s == OneDragging then [ClickUp(m.clickNumber)]
    else if GestureOf(s).Some? then [End]
    else []
  }

  function React(s: State, input: Input, m: Memory, f: Frame): Reaction {
    match input
    case LostFocus => Reaction(m, if s == ZeroFingers then None else Some(ZeroFingers), [])
    case Exit => Reaction(m, None, ExitOut(s, m))
    case Enter => Reaction(EnterMemory(s, m, f), EnterTarget(s, f), EnterOut(s, m, f))
    case ProcessFrame => Reaction(FrameMemory(s, m, f), FrameTarget(s, m, f), FrameOut(s, m, f))
  }

  // ------------------------------------------------ the exit/enter loop terminates

  /** An upper bound on the moves that follow entering `s` while the frame stays the same. */
  function Rank(s: State, f: Frame): nat {
    if EnterTarget(s, f).None? then 0
    else if s == TwoRecognition && f.noTouching && f.zone != ZoneTouching && !Misfit(s, f) then 4
    else if s == OneClicking || Misfit(s, f) then 3
    else if s == TwoHovering then 2
    else 1
  }

  lemma EnteringDescends(s: State, f: Frame)
    requires EnterTarget(s, f).Some?
    ensures Rank(EnterTarget(s, f).value, f) < Rank(s, f)
  {}

  /** The state and fields after the loop, the calls it made and the number of transitions. */
  datatype Outcome = Outcome(s: State, m: Memory, out: seq<Event>, moves: nat)

  /** The loop of `RunCurrentStatePrivate`, from the point where a handler has asked for `next`. */
  function Settle(s: State, m: Memory, next: Option<State>, f: Frame): (r: Outcome)
    ensures r.moves <= if next.None? then 0 else 1 + Rank(next.value, f)
    decreases if next.None? then 0 else 1 + Rank(next.value, f)
  {
    match next
    case None => Outcome(s, m, [], 0)
    case Some(t) =>
      if EnterTarget(t, f).Some? then
        EnteringDescends(t, f);
        var r := Settle(t, EnterMemory(t, m, f), EnterTarget(t, f), f);
        Outcome(r.s, r.m, ExitOut(s, m) + EnterOut(t, m, f) + r.out, 1 + r.moves)
      else Outcome(t, EnterMemory(t, m, f), ExitOut(s, m) + EnterOut(t, m, f), 1)
  }

  /** One input given to a running machine: whatever the state and the frame, at most four transitions. */
  function Run(s: State, m: Memory, input: Input, f: Frame): (r: Outcome)
    ensures r.moves <= 4
  {
    var r := React(s, input, m, f);
    var t := Settle(s, r.m, r.next, f);
    Outcome(t.s, t.m, r.out + t.out, t.moves)
  }

  /** Two fingers, clearly rotating, in the touch zone. */
  const ROTATING_FRAME :=
    Frame(true, true, 0, true, 2, ZoneTouching, false, false, 0, false, false, false, false, false, Rotating, Undecided, NoDirection, false)

  lemma RecognitionRotates(m: Memory)
    ensures var r := Settle(TwoHovering, m, Some(TwoRecognition), ROTATING_FRAME); r.moves == 2 && r.s == TwoRotating
  {
    var m1 := EnterMemory(TwoRecognition, m, ROTATING_FRAME);
    assert Settle(TwoRecognition, m1, Some(TwoRotating), ROTATING_FRAME).moves == 1;
  }

  lemma NoFingersRecognise(m: Memory)
    ensures var r := Settle(ZeroFingers, m, Some(TwoHovering), ROTATING_FRAME); r.moves == 3 && r.s == TwoRotating
  {
    RecognitionRotates(EnterMemory(TwoHovering, m, ROTATING_FRAME));
  }

  /** Started over two rotating fingers, the machine comes to rest in the rotating state. */
  lemma StartRotates(m: Memory)
    ensures Start(m, ROTATING_FRAME).s == TwoRotating
  {
    NoFingersRecognise(EnterMemory(ZeroFingers, m, ROTATING_FRAME));
  }

  /** The bound is attained in a run: focus is lost with two fingers rotating, and still over them. */
  lemma FourTransitionsHappen(m: Memory)
    ensures var p := Start(m, ROTATING_FRAME);
      var r := Run(p.s, p.m, LostFocus, ROTATING_FRAME);
      p.s == TwoRotating && r.moves == 4 && r.s == TwoRotating
  {
    StartRotates(m);
    NoFingersRecognise(EnterMemory(ZeroFingers, Start(m, ROTATING_FRAME).m, ROTATING_FRAME));
  }

  // ---------------------------------------------- what losing focus leaves active

  predicate IsQuiet(s: State) { GestureOf(s).None? && !ButtonDownIn(s) }

  /** A frame over which the machine, sent back to no fingers, presses or begins something at once. */
  predicate Reactivates(f: Frame) {
    && !InPalmMode(f) && f.unambiguous && f.zone == ZoneTouching
    && (f.count == 1 || ((f.count == 2 || (f.count > 2 && !f.use3PlusFingerGestures)) && (!f.useRotateAndZoom || f.recent != Undecided)))
  }

  /** Entered anew, where each of the states on the way from no fingers comes to rest. */
  lemma EnteringSettles(s: State, m: Memory, t: State, f: Frame)
    requires EnterTarget(t, f).None?
    ensures Settle(s, m, Some(t), f).s == t
  {}

  lemma TwoFingersSettle(s: State, m: Memory, f: Frame)
    requires Home(f) == TwoHovering
    ensures IsQuiet(Settle(s, m, Some(TwoHovering), f).s) <==> !(f.zone == ZoneTouching && (!f.useRotateAndZoom || f.recent != Undecided))
  {
    var m1 := EnterMemory(TwoHovering, m, f);
    if f.zone == ZoneTouching {
      if f.useRotateAndZoom {
        var m2 := EnterMemory(TwoRecognition, m1, f);
        if EnterTarget(TwoRecognition, f).Some? {
          EnteringSettles(TwoRecognition, m2, EnterTarget(TwoRecognition, f).value, f);
        } else {
          EnteringSettles(TwoHovering, m1, TwoRecognition, f);
        }
      } else {
        EnteringSettles(TwoHovering, m1, TwoScrolling, f);
      }
    } else {
      EnteringSettles(s, m, TwoHovering, f);
    }
  }

  lemma OneFingerSettles(s: State, m: Memory, f: Frame)
    requires Home(f) == OneHovering
    ensures IsQuiet(Settle(s, m, Some(OneHovering), f).s) <==> f.zone != ZoneTouching
  {
    if f.zone == ZoneTouching {
      EnteringSettles(OneHovering, EnterMemory(OneHovering, m, f), OneClicking, f);
    } else {
      EnteringSettles(s, m, OneHovering, f);
    }
  }

  lemma ThreeFingersSettle(s: State, m: Memory, f: Frame)
    requires Home(f) == ThreeNoInteraction
    ensures IsQuiet(Settle(s, m, Some(ThreeNoInteraction), f).s)
  {
    var m1 := EnterMemory(ThreeNoInteraction, m, f);
    match f.zone
    case ZoneNone => EnteringSettles(s, m, ThreeNoInteraction, f);
    case ZoneHovering => EnteringSettles(ThreeNoInteraction, m1, ThreeHovering, f);
    case ZoneTouching => EnteringSettles(ThreeNoInteraction, m1, ThreeRecognition, f);
  }

  lemma ZeroFingersSettle(s: State, m: Memory, f: Frame)
    ensures IsQuiet(Settle(s, m, Some(ZeroFingers), f).s) <==> !Reactivates(f)
  {
    var m1 := EnterMemory(ZeroFingers, m, f);
    if EnterTarget(ZeroFingers, f).None? {
      EnteringSettles(s, m, ZeroFingers, f);
    } else {
      match Home(f)
      case OneHovering => OneFingerSettles(ZeroFingers, m1, f);
      case TwoHovering => TwoFingersSettle(ZeroFingers, m1, f);
      case ThreeNoInteraction => ThreeFingersSettle(ZeroFingers, m1, f);
      case _ => EnteringSettles(ZeroFingers, m1, PalmRecognition, f);
    }
  }

  /** `stopActiveEvents` leaves nothing active unless it finds something active over a frame that reactivates. */
  lemma LostFocusIsQuietIff(s: State, m: Memory, f: Frame)
    ensures IsQuiet(Run(s, m, LostFocus, f).s) <==> s == ZeroFingers || !Reactivates(f)
  {
    if s != ZeroFingers { ZeroFingersSettle(s, m, f); }
  }

  // ---------------------------------------------- the calls over a whole run

  /** What holds between inputs; it also holds between handlers, but for the deferred click-up. */
  ghost predicate Resting(s: State, m: Memory) {
    0 <= m.clickNumber <= 3 && (s == OneClicking ==> !m.deferClickUp)
  }

  function MonitorOf(s: State): Monitor { Monitor(GestureOf(s), ButtonDownIn(s)) }

  /** Dragging is only ever asked for from a click whose up was deferred, and the button stays down across. */
  ghost predicate Handover(s: State, m: Memory, next: Option<State>) {
    && 0 <= m.clickNumber <= 3
    && (next == Some(OneDragging) <==> s == OneClicking && m.deferClickUp)
  }

  lemma EnteringKeepsHandover(t: State, m: Memory, f: Frame)
    requires 0 <= m.clickNumber <= 3
    ensures Handover(t, EnterMemory(t, m, f), EnterTarget(t, f))
  {}

  lemma OneTransition(s: State, m: Memory, t: State, f: Frame)
    requires Handover(s, m, Some(t))
    ensures Watch(MonitorOf(s), ExitOut(s, m) + EnterOut(t, m, f)) == Some(MonitorOf(t))
  {
    WatchConcat(MonitorOf(s), ExitOut(s, m), EnterOut(t, m, f));
    var mid := Monitor(None, t == OneDragging);
    assert Watch(MonitorOf(s), ExitOut(s, m)) == Some(mid);
    assert Watch(mid, EnterOut(t, m, f)) == Some(MonitorOf(t)) by {
      WatchOne(mid, ClickDown(NextClickNumber(m, f)));
      if GestureOf(t).Some? {
        var g := GestureOf(t).value;
        WatchOne(mid, Begin(g));
        WatchTwo(mid, Begin(g), ApplyOf(g));
      }
    }
  }

  lemma {:induction false} SettlingIsDisciplined(s: State, m: Memory, next: Option<State>, f: Frame)
    requires Handover(s, m, next)
    ensures var r := Settle(s, m, next, f); Resting(r.s, r.m) && Watch(MonitorOf(s), r.out) == Some(MonitorOf(r.s))
    decreases if next.None? then 0 else 1 + Rank(next.value, f)
  {
    if next.Some? {
      var t := next.value;
      OneTransition(s, m, t, f);
      EnteringKeepsHandover(t, m, f);
      if EnterTarget(t, f).Some? {
        EnteringDescends(t, f);
        SettlingIsDisciplined(t, EnterMemory(t, m, f), EnterTarget(t, f), f);
        WatchConcat(MonitorOf(s), ExitOut(s, m) + EnterOut(t, m, f), Settle(t, EnterMemory(t, m, f), EnterTarget(t, f), f).out);
      }
    }
  }

  lemma RunIsDisciplined(s: State, m: Memory, input: Input, f: Frame)
    requires Resting(s, m) && (input == ProcessFrame || input == LostFocus)
    ensures var r := Run(s, m, input, f); Resting(r.s, r.m) && Watch(MonitorOf(s), r.out) == Some(MonitorOf(r.s))
  {
    var r := React(s, input, m, f);
    assert Handover(s, r.m, r.next);
    assert Watch(MonitorOf(s), r.out) == Some(MonitorOf(s));
    SettlingIsDisciplined(s, r.m, r.next, f);
    WatchConcat(MonitorOf(s), r.out, Settle(s, r.m, r.next, f).out);
  }

  datatype Step = Step(input: Input, frame: Frame)

  /** `Initialize`: enter the first state. */
  function Start(m: Memory, f: Frame): Outcome {
    var r := Settle(ZeroFingers, EnterMemory(ZeroFingers, m, f), EnterTarget(ZeroFingers, f), f);
    r.(out := EnterOut(ZeroFingers, m, f) + r.out)
  }

  /** Any number of inputs after the first frame; `moves` adds up. */
  function Play(m: Memory, f: Frame, steps: seq<Step>): Outcome {
    if steps == [] then Start(m, f)
    else
      var last := steps[|steps| - 1];
      var p := Play(m, f, steps[..|steps| - 1]);
      var r := Run(p.s, p.m, last.input, last.frame);
      Outcome(r.s, r.m, p.out + r.out, p.moves + r.moves)
  }

  /**
    Every run from construction: gestures and the button open and close in strict alternation, clicks are
    numbered 1 to 3, every `apply` call falls inside a gesture of its own kind, the button is down between
    inputs exactly in the clicking and dragging states, and shutdown closes whatever is open.
   */
  lemma {:induction false} EveryRunIsDisciplined(m: Memory, f: Frame, steps: seq<Step>)
    requires 0 <= m.clickNumber <= 3
    requires forall i | 0 <= i < |steps| :: steps[i].input == ProcessFrame || steps[i].input == LostFocus
    ensures var r := Play(m, f, steps);
      && Resting(r.s, r.m)
      && Watch(QUIET, r.out) == Some(Monitor(GestureOf(r.s), r.s == OneClicking || r.s == OneDragging))
      && Watch(QUIET, r.out + ExitOut(r.s, r.m)) == Some(QUIET)
  {
    var r := Play(m, f, steps);
    if steps == [] {
      StartIsDisciplined(m, f);
    } else {
      var last, before := steps[|steps| - 1], steps[..|steps| - 1];
      EveryRunIsDisciplined(m, f, before);
      var p := Play(m, f, before);
      RunIsDisciplined(p.s, p.m, last.input, last.frame);
      WatchConcat(QUIET, p.out, Run(p.s, p.m, last.input, last.frame).out);
    }
    WatchConcat(QUIET, r.out, ExitOut(r.s, r.m));
    LeavingCloses(r.s, r.m);
  }

  lemma StartIsDisciplined(m: Memory, f: Frame)
    requires 0 <= m.clickNumber <= 3
    ensures var r := Start(m, f); Resting(r.s, r.m) && Watch(QUIET, r.out) == Some(MonitorOf(r.s))
  {
    var r := Settle(ZeroFingers, EnterMemory(ZeroFingers, m, f), EnterTarget(ZeroFingers, f), f);
    SettlingIsDisciplined(ZeroFingers, EnterMemory(ZeroFingers, m, f), EnterTarget(ZeroFingers, f), f);
    assert [] + r.out == r.out && MonitorOf(ZeroFingers) == QUIET;
  }

  lemma LeavingCloses(s: State, m: Memory)
    requires Resting(s, m)
    ensures Watch(MonitorOf(s), ExitOut(s, m)) == Some(QUIET)
  {
    WatchOne(MonitorOf(s), ClickUp(m.clickNumber));
    WatchOne(MonitorOf(s), End);
  }
}
