/**
  The state machine of source/GestureInteraction/BasicMode.cpp:176-859 in its mouse-output configuration
  (`UseMouseOutput`), as a statechart.

  The eleven states it can use; `State_BasicMode_2Hands_Touch` belongs to touch output.
 */
module BasicModeChart {
  import opened ValueTree
  import opened GestureTrace
  import opened MachineInputs
  import opened Observations

  datatype State =
    | NoPointables
    | OneHovering | OneClickCooldown
    | TwoPlusHovering | TwoPlusScrolling
    | HandsHovering | HandsRecognition | HandsRotating | HandsZooming
    | PalmRecognition | PalmSwipe

  /** What the handlers read from a frame, and the static switches. */
  datatype Frame = Frame(
    disableClicking: bool,
    disablePalmSwipe: bool,
    now: int,                   // timestamp, in microseconds
    unambiguous: bool,          // the filtered pointable count is unambiguous ...
    count: nat,                 // ... and this is it
    zone: Zone,                 // collectiveZone()
    noTouching: bool,           // no relevant pointable is touching
    multiHand: bool,            // shouldBeInMultiHandMode()
    sideways: bool,             // the first hand exists, is sideways and near
    farFromLastClick: bool,     // over 50 pixels between the cursor and the last click
    filtered: Motion,           // rts(), Undecided when it is ambiguous
    foremost: int,              // foremostPointableId()
    pointables: map<int, int>,  // the frame's pointables, each with the id of its hand
    hands: map<int, bool>)      // the frame's valid hands, each with whether it has a finger touching

  datatype Memory = Memory(clickNumber: int, clickDown: bool, lastClickTime: int, gestureStart: int, favorite: int, favoriteHand: int)

  datatype Reaction = Reaction(m: Memory, next: Option<State>, out: seq<Event>)

  predicate InPalmMode(f: Frame) { !f.disablePalmSwipe && f.sideways }

  /** `BasicMode_TransitionTo_NPointables_NoInteraction`. */
  function Home(f: Frame): State {
    if f.multiHand then HandsHovering
    else if InPalmMode(f) then PalmRecognition
    else if !f.unambiguous || f.count == 0 then NoPointables
    else if f.count == 1 && !f.disableClicking then OneHovering
    else TwoPlusHovering
  }

  /** `favoritePointableId()`: keep the favourite while the frame still has it. */
  function Favorite(m: Memory, f: Frame): int {
    if m.favorite < 0 || m.favorite !in f.pointables then f.foremost else m.favorite
  }

  /** The state no longer belongs to this number of pointables and hands. */
  predicate Misfit(s: State, f: Frame) {
    match s
    case NoPointables => (f.unambiguous && f.count > 0) || f.multiHand || InPalmMode(f)
    case OneHovering | OneClickCooldown => (f.unambiguous && f.count != 1) || f.multiHand || InPalmMode(f)
    case TwoPlusHovering => (f.unambiguous && f.count < if f.disableClicking then 1 else 2) || f.multiHand || InPalmMode(f)
    case TwoPlusScrolling => (f.unambiguous && f.count == 0) || f.multiHand || InPalmMode(f)
    case HandsHovering | HandsRecognition | HandsRotating | HandsZooming => !f.multiHand
    case PalmRecognition | PalmSwipe => !InPalmMode(f)
  }

  /** The hand followed while hovering with two or more pointables: once known it is kept. */
  function FollowedHand(m: Memory, f: Frame): int {
    if m.favoriteHand < 0 && Favorite(m, f) in f.pointables then f.pointables[Favorite(m, f)] else m.favoriteHand
  }

  /** Where a state that still fits moves on a frame. */
  function Move(s: State, m: Memory, f: Frame): Option<State> {
    match s
    case OneHovering => if f.zone == ZoneTouching then Some(OneClickCooldown) else None
    case OneClickCooldown => if f.zone != ZoneTouching then Some(OneHovering) else None
    case TwoPlusHovering =>
      var hand := FollowedHand(m, f);
      if hand < 0 then None
      else if hand !in f.hands then Some(Home(f))
      else if f.hands[hand] then Some(TwoPlusScrolling)
      else None
    case TwoPlusScrolling => if m.favoriteHand in f.hands && f.hands[m.favoriteHand] then None else Some(Home(f))
    case HandsHovering => if f.zone == ZoneTouching then Some(HandsRecognition) else None
    case HandsRecognition =>
      if f.noTouching && f.zone != ZoneTouching then Some(HandsHovering)
      else if f.now - m.gestureStart < 20 * MILLISECONDS then None
      else if f.filtered == Rotating then Some(HandsRotating)
      else if f.filtered == Scaling then Some(HandsZooming)
      else None
    case HandsRotating | HandsZooming => if f.noTouching && f.zone != ZoneTouching then Some(HandsHovering) else None
    case _ => None
  }

  /** A palm that has just translated long enough swipes even when it stops being a palm in the same frame. */
  function FrameTarget(s: State, m: Memory, f: Frame): Option<State> {
    if s == PalmRecognition && f.now - m.gestureStart >= 100 * MILLISECONDS && f.filtered == Translating then Some(PalmSwipe)
    else if Misfit(s, f) then Some(Home(f))
    else Move(s, m, f)
  }

  function GestureOf(s: State): Option<Gesture> {
    match s
    case TwoPlusScrolling => Some(Scroll)
    case HandsRotating => Some(Rotate)
    case HandsZooming => Some(Zoom)
    case PalmSwipe => Some(DesktopSwipeHorizontal)
    case _ => None
  }

  predicate Clicks(s: State, f: Frame) { s == OneHovering && !Misfit(s, f) && f.zone == ZoneTouching }

  predicate Releases(s: State, m: Memory, f: Frame) {
    s == OneClickCooldown && !Misfit(s, f) && f.zone == ZoneTouching && f.now - m.lastClickTime > 150 * MILLISECONDS && m.clickDown
  }

  function NextClickNumber(m: Memory, f: Frame): int {
    if f.now - m.lastClickTime > 3 * SECONDS || f.farFromLastClick || m.clickNumber == 3 then 1 else m.clickNumber + 1
  }

  predicate LooksAtFavorite(s: State, m: Memory, f: Frame) {
    match s
    case OneHovering => true
    case OneClickCooldown => !Misfit(s, f) && f.zone == ZoneTouching
    case TwoPlusHovering => !Misfit(s, f)
    case _ => false
  }

  function FrameMemory(s: State, m: Memory, f: Frame): Memory {
    m.(clickNumber := if Clicks(s, f) then NextClickNumber(m, f) else m.clickNumber,
       clickDown := if Clicks(s, f) then true else if Releases(s, m, f) then false else m.clickDown,
       lastClickTime := if Clicks(s, f) then f.now else m.lastClickTime,
       favorite := if LooksAtFavorite(s, m, f) then Favorite(m, f) else m.favorite,
       favoriteHand := if s == TwoPlusHovering && !Misfit(s, f) then FollowedHand(m, f) else m.favoriteHand)
  }

  /** A palm swipe goes on even in the frame that ends it. */
  function FrameOut(s: State, m: Memory, f: Frame): seq<Event> {
    if Clicks(s, f) then [ClickDown(NextClickNumber(m, f))]
    else if Releases(s, m, f) then [ClickUp(m.clickNumber)]
    else if s == PalmSwipe || (GestureOf(s).Some? && FrameTarget(s, m, f).None?) then [ApplyOf(GestureOf(s).value)]
    else []
  }

  function OnFrame(s: State, m: Memory, f: Frame): Reaction {
    Reaction(FrameMemory(s, m, f), FrameTarget(s, m, f), FrameOut(s, m, f))
  }

  function EntryMemory(s: State, m: Memory, f: Frame): Memory {
    match s
    case OneHovering | HandsHovering => m.(favorite := f.foremost)
    case TwoPlusHovering => m.(favorite := f.foremost, favoriteHand := -1)
    case HandsRecognition | PalmRecognition => m.(gestureStart := f.now)
    case _ => m
  }

  /** Entering these runs the frame reaction too. */
  predicate FallsThrough(s: State, f: Frame) {
    GestureOf(s).None? && (s == TwoPlusHovering ==> f.foremost != -1)
  }

  function OnEnter(s: State, m: Memory, f: Frame): Reaction {
    var m1 := EntryMemory(s, m, f);
    if FallsThrough(s, f) then OnFrame(s, m1, f)
    else match GestureOf(s)
      case None => Reaction(m1, None, [])
      case Some(g) => Reaction(m1, None, if g == Rotate || g == Zoom then [Begin(g), ApplyOf(g)] else [Begin(g)])
  }

  function OnExit(s: State, m: Memory): Reaction {
    if s == OneClickCooldown && m.clickDown then Reaction(m.(clickDown := false), None, [ClickUp(m.clickNumber)])
    else Reaction(m, None, if GestureOf(s).Some? then [End] else [])
  }

  function React(s: State, input: Input, m: Memory, f: Frame): Reaction {
    match input
    case LostFocus => Reaction(m, if s == NoPointables then None else Some(NoPointables), [])
    case Exit => OnExit(s, m)
    case Enter => OnEnter(s, m, f)
    case ProcessFrame => OnFrame(s, m, f)
  }

  // ---------------------------------- when the exit/enter loop terminates

  /** Where entering `s` leads at once; the fields do not matter. */
  function EnterTarget(s: State, f: Frame): Option<State> {
    OnEnter(s, Memory(0, false, 0, 0, -1, -1), f).next
  }

  lemma EnterTargetIgnoresMemory(s: State, m: Memory, f: Frame)
    ensures OnEnter(s, m, f).next == EnterTarget(s, f)
  {}

  /**
    The foremost pointable names a hand that the frame does not have, while the frame has the pointables for
    the two-or-more states: entering them leads back to entering them.
   */
  predicate Spins(f: Frame) {
    && f.unambiguous && (f.count >= 2 || (f.count == 1 && f.disableClicking))
    && !f.multiHand && !InPalmMode(f)
    && f.foremost != -1 && f.foremost in f.pointables
    && f.pointables[f.foremost] >= 0 && f.pointables[f.foremost] !in f.hands
  }

  /** What the Leap library promises: the hand of a pointable of the frame is invalid (negative id) or in the frame. */
  ghost predicate HandsOfPointablesExist(f: Frame) {
    forall p | p in f.pointables :: f.pointables[p] >= 0 ==> f.pointables[p] in f.hands
  }

  function Rank(s: State, f: Frame): nat {
    if EnterTarget(s, f).None? then 0
    else if Misfit(s, f) || EnterTarget(s, f) == Some(Home(f)) then 2
    else 1
  }

  lemma EnteringDescends(s: State, f: Frame)
    requires !Spins(f) && EnterTarget(s, f).Some?
    ensures Rank(EnterTarget(s, f).value, f) < Rank(s, f)
  {}

  /** The state entered `n` moves after entering `s`, as long as the loop goes on. */
  function Chase(s: State, f: Frame, n: nat): Option<State> {
    if n == 0 then Some(s)
    else match Chase(s, f, n - 1)
      case None => None
      case Some(t) => EnterTarget(t, f)
  }

  /** The loop ends from every state, within two further moves, exactly when the frame does not spin; otherwise it never ends. */
  lemma {:induction false} LoopTerminatesIffNotSpinning(f: Frame)
    ensures !Spins(f) <==> forall s :: Chase(s, f, 3).None?
    ensures Spins(f) ==> forall n: nat :: Chase(TwoPlusHovering, f, n) == Some(TwoPlusHovering)
    ensures HandsOfPointablesExist(f) ==> !Spins(f)
  {
    if Spins(f) {
      forall n: nat ensures Chase(TwoPlusHovering, f, n) == Some(TwoPlusHovering) { SpinningGoesOn(f, n); }
      assert Chase(TwoPlusHovering, f, 3) == Some(TwoPlusHovering);
    } else {
      forall s ensures Chase(s, f, 3).None? { ChaseIsShort(s, f); }
    }
  }

  lemma {:induction false} SpinningGoesOn(f: Frame, n: nat)
    requires Spins(f)
    ensures Chase(TwoPlusHovering, f, n) == Some(TwoPlusHovering)
  {
    if n > 0 { SpinningGoesOn(f, n - 1); }
  }

  lemma ChaseIsShort(s: State, f: Frame)
    requires !Spins(f)
    ensures Chase(s, f, 3).None?
  {
    assert Chase(s, f, 1) == EnterTarget(s, f);
    if EnterTarget(s, f).Some? {
      var t := EnterTarget(s, f).value;
      EnteringDescends(s, f);
      assert Chase(s, f, 2) == EnterTarget(t, f);
      if EnterTarget(t, f).Some? { EnteringDescends(t, f); }
    }
  }

  datatype Outcome = Outcome(s: State, m: Memory, out: seq<Event>, moves: nat)

  /** The loop of `RunCurrentStatePrivate`, from the point where a handler has asked for `next`. */
  function Settle(s: State, m: Memory, next: Option<State>, f: Frame): (r: Outcome)
    requires !Spins(f)
    ensures r.moves <= if next.None? then 0 else 1 + Rank(next.value, f)
    decreases if next.None? then 0 else 1 + Rank(next.value, f)
  {
    match next
    case None => Outcome(s, m, [], 0)
    case Some(t) =>
      var x := OnExit(s, m);
      var e := OnEnter(t, x.m, f);
      EnterTargetIgnoresMemory(t, x.m, f);
      if e.next.Some? then
        EnteringDescends(t, f);
        var r := Settle(t, e.m, e.next, f);
        Outcome(r.s, r.m, x.out + e.out + r.out, 1 + r.moves)
      else Outcome(t, e.m, x.out + e.out, 1)
  }

  /** One input given to a running machine: at most three transitions. */
  function Run(s: State, m: Memory, input: Input, f: Frame): (r: Outcome)
    requires !Spins(f)
    ensures r.moves <= 3
  {
    var r := React(s, input, m, f);
    var t := Settle(s, r.m, r.next, f);
    Outcome(t.s, t.m, r.out + t.out, t.moves)
  }

  function Start(m: Memory, f: Frame): Outcome
    requires !Spins(f)
  {
    var e := OnEnter(NoPointables, m, f);
    var r := Settle(NoPointables, e.m, e.next, f);
    r.(out := e.out + r.out)
  }

  // ---------------------------------------------- the calls over a whole run

  function MonitorOf(s: State, m: Memory): Monitor { Monitor(GestureOf(s), m.clickDown) }

  /** What holds between inputs. */
  ghost predicate Resting(s: State, m: Memory) {
    0 <= m.clickNumber <= 3 && (m.clickDown ==> s == OneClickCooldown)
  }

  /** What holds when a handler has asked for `next`: a fresh click is on its way into the cooldown. */
  ghost predicate Handover(s: State, m: Memory, next: Option<State>) {
    0 <= m.clickNumber <= 3 && (m.clickDown ==> s == OneClickCooldown || (s == OneHovering && next == Some(OneClickCooldown)))
  }

  /** The button has been held no longer than a click lasts. */
  ghost predicate RecentlyClicked(m: Memory, f: Frame) {
    m.clickDown ==> f.now - m.lastClickTime <= 150 * MILLISECONDS
  }

  lemma FrameIsDisciplined(s: State, m: Memory, f: Frame)
    requires Resting(s, m)
    ensures var r := OnFrame(s, m, f);
      && Handover(s, r.m, r.next)
      && Watch(MonitorOf(s, m), r.out) == Some(MonitorOf(s, r.m))
      && (r.next.None? ==> RecentlyClicked(r.m, f))
  {
    var r := OnFrame(s, m, f);
    if r.out != [] { WatchOne(MonitorOf(s, m), r.out[0]); }
  }

  lemma OneTransition(s: State, m: Memory, t: State, f: Frame)
    requires Handover(s, m, Some(t))
    ensures var x := OnExit(s, m);
      var e := OnEnter(t, x.m, f);
      && Handover(t, e.m, e.next)
      && Watch(MonitorOf(s, m), x.out + e.out) == Some(MonitorOf(t, e.m))
      && (e.next.None? ==> RecentlyClicked(e.m, f))
  {
    var x := OnExit(s, m);
    var e := OnEnter(t, x.m, f);
    var mid := Monitor(None, x.m.clickDown);
    assert Watch(MonitorOf(s, m), x.out) == Some(mid) by {
      if x.out != [] { WatchOne(MonitorOf(s, m), x.out[0]); }
    }
    assert Watch(mid, e.out) == Some(MonitorOf(t, e.m)) by {
      if FallsThrough(t, f) {
        FrameIsDisciplined(t, EntryMemory(t, x.m, f), f);
      } else if GestureOf(t).Some? {
        var g := GestureOf(t).value;
        WatchOne(mid, Begin(g));
        WatchTwo(mid, Begin(g), ApplyOf(g));
      }
    }
    WatchConcat(MonitorOf(s, m), x.out, e.out);
    if FallsThrough(t, f) { FrameIsDisciplined(t, EntryMemory(t, x.m, f), f); }
  }

  lemma {:induction false} SettlingIsDisciplined(s: State, m: Memory, next: Option<State>, f: Frame)
    requires !Spins(f) && Handover(s, m, next) && (next.None? ==> RecentlyClicked(m, f))
    ensures var r := Settle(s, m, next, f);
      Resting(r.s, r.m) && RecentlyClicked(r.m, f) && Watch(MonitorOf(s, m), r.out) == Some(MonitorOf(r.s, r.m))
    decreases if next.None? then 0 else 1 + Rank(next.value, f)
  {
    if next.Some? {
      var t := next.value;
      OneTransition(s, m, t, f);
      var x := OnExit(s, m);
      var e := OnEnter(t, x.m, f);
      EnterTargetIgnoresMemory(t, x.m, f);
      if e.next.Some? {
        EnteringDescends(t, f);
        SettlingIsDisciplined(t, e.m, e.next, f);
        WatchConcat(MonitorOf(s, m), x.out + e.out, Settle(t, e.m, e.next, f).out);
      }
    }
  }

  datatype Step = Step(input: Input, frame: Frame)

  ghost predicate Acceptable(steps: seq<Step>) {
    forall i | 0 <= i < |steps| :: !Spins(steps[i].frame) && (steps[i].input == ProcessFrame || steps[i].input == LostFocus)
  }

  /** Any number of inputs after the first frame. */
  function Play(m: Memory, f: Frame, steps: seq<Step>): Outcome
    requires !Spins(f) && Acceptable(steps)
  {
    if steps == [] then Start(m, f)
    else
      var last := steps[|steps| - 1];
      var p := Play(m, f, steps[..|steps| - 1]);
      var r := Run(p.s, p.m, last.input, last.frame);
      Outcome(r.s, r.m, p.out + r.out, p.moves + r.moves)
  }

  lemma RunIsDisciplined(s: State, m: Memory, input: Input, f: Frame)
    requires !Spins(f) && Resting(s, m) && (input == ProcessFrame || input == LostFocus)
    ensures var r := Run(s, m, input, f);
      && Resting(r.s, r.m)
      && Watch(MonitorOf(s, m), r.out) == Some(MonitorOf(r.s, r.m))
      && (input == ProcessFrame ==> RecentlyClicked(r.m, f))
  {
    var r := React(s, input, m, f);
    FrameIsDisciplined(s, m, f);
    var t := Settle(s, r.m, r.next, f);
    if r.next.Some? || input == ProcessFrame { SettlingIsDisciplined(s, r.m, r.next, f); }
    WatchConcat(MonitorOf(s, m), r.out, t.out);
  }

  lemma StartIsDisciplined(m: Memory, f: Frame)
    requires !Spins(f) && 0 <= m.clickNumber <= 3 && !m.clickDown
    ensures var r := Start(m, f); Resting(r.s, r.m) && Watch(QUIET, r.out) == Some(MonitorOf(r.s, r.m))
  {
    FrameIsDisciplined(NoPointables, m, f);
    var e := OnEnter(NoPointables, m, f);
    SettlingIsDisciplined(NoPointables, e.m, e.next, f);
    WatchConcat(QUIET, e.out, Settle(NoPointables, e.m, e.next, f).out);
  }

  lemma LeavingCloses(s: State, m: Memory)
    requires Resting(s, m)
    ensures Watch(MonitorOf(s, m), OnExit(s, m).out) == Some(QUIET)
  {
    var x := OnExit(s, m);
    if x.out != [] { WatchOne(MonitorOf(s, m), x.out[0]); }
  }

  /**
    Every run from construction, as long as no frame spins: gestures and the button open and close in strict
    alternation, clicks are numbered 1 to 3, every `apply` call falls inside a gesture of its own kind, the
    button is down between inputs only in the click cooldown, and shutdown closes whatever is open.
   */
  lemma {:induction false} EveryRunIsDisciplined(m: Memory, f: Frame, steps: seq<Step>)
    requires 0 <= m.clickNumber <= 3 && !m.clickDown
    requires !Spins(f) && Acceptable(steps)
    ensures var r := Play(m, f, steps);
      && Resting(r.s, r.m)
      && Watch(QUIET, r.out) == Some(Monitor(GestureOf(r.s), r.m.clickDown))
      && Watch(QUIET, r.out + OnExit(r.s, r.m).out) == Some(QUIET)
  {
    var r := Play(m, f, steps);
    if steps == [] {
      StartIsDisciplined(m, f);
    } else {
      var last, before := steps[|steps| - 1], steps[..|steps| - 1];
      EveryRunIsDisciplined(m, f, before);
      var p := Play(m, f, before);
      RunIsDisciplined(p.s, p.m, last.input, last.frame);
      WatchConcat(QUIET, p.out, Run(p.s, p.m, last.input, last.frame).out);
    }
    WatchConcat(QUIET, r.out, OnExit(r.s, r.m).out);
    LeavingCloses(r.s, r.m);
  }

  /** After any processed frame more than 150 ms past the last click the button is up. */
  lemma ReleasedInTime(m: Memory, f: Frame, steps: seq<Step>)
    requires 0 <= m.clickNumber <= 3 && !m.clickDown
    requires !Spins(f) && Acceptable(steps) && steps != []
    requires var last := steps[|steps| - 1];
      last.input == ProcessFrame && last.frame.now - Play(m, f, steps).m.lastClickTime > 150 * MILLISECONDS
    ensures !Play(m, f, steps).m.clickDown
  {
    var last, before := steps[|steps| - 1], steps[..|steps| - 1];
    EveryRunIsDisciplined(m, f, before);
    RunIsDisciplined(Play(m, f, before).s, Play(m, f, before).m, last.input, last.frame);
  }

  // ---------------------------------------------- what losing focus leaves active

  predicate IsQuiet(s: State, m: Memory) { GestureOf(s).None? && !m.clickDown }

  /** The frame's foremost pointable belongs to a hand of the frame with fingers touching. */
  predicate ForemostHandTouches(f: Frame) {
    && f.foremost != -1 && f.foremost in f.pointables
    && f.pointables[f.foremost] >= 0 && f.pointables[f.foremost] in f.hands && f.hands[f.pointables[f.foremost]]
  }

  /** A frame over which the machine, sent back to no pointables, presses or scrolls at once. */
  predicate Reactivates(f: Frame) {
    && !f.multiHand && !InPalmMode(f) && f.unambiguous
    && (if f.count == 1 && !f.disableClicking then f.zone == ZoneTouching else f.count > 0 && ForemostHandTouches(f))
  }

  lemma EnteringSettles(s: State, m: Memory, t: State, f: Frame)
    requires !Spins(f) && OnEnter(t, OnExit(s, m).m, f).next.None?
    ensures var r := Settle(s, m, Some(t), f); r.s == t && r.m == OnEnter(t, OnExit(s, m).m, f).m
  {}

  lemma EnteringGoesOn(s: State, m: Memory, t: State, f: Frame)
    requires !Spins(f) && OnEnter(t, OnExit(s, m).m, f).next.Some?
    ensures var e := OnEnter(t, OnExit(s, m).m, f);
      var r, n := Settle(s, m, Some(t), f), Settle(t, e.m, e.next, f);
      r.s == n.s && r.m == n.m
  {}

  lemma OnePointableSettles(s: State, m: Memory, f: Frame)
    requires !Spins(f) && Home(f) == OneHovering && !OnExit(s, m).m.clickDown
    ensures var r := Settle(s, m, Some(OneHovering), f); IsQuiet(r.s, r.m) <==> f.zone != ZoneTouching
  {
    var e := OnEnter(OneHovering, OnExit(s, m).m, f);
    if f.zone == ZoneTouching {
      EnteringGoesOn(s, m, OneHovering, f);
      EnteringSettles(OneHovering, e.m, OneClickCooldown, f);
    } else {
      EnteringSettles(s, m, OneHovering, f);
    }
  }

  lemma MorePointablesSettle(s: State, m: Memory, f: Frame)
    requires !Spins(f) && Home(f) == TwoPlusHovering && !OnExit(s, m).m.clickDown
    ensures var r := Settle(s, m, Some(TwoPlusHovering), f); IsQuiet(r.s, r.m) <==> !ForemostHandTouches(f)
  {
    var e := OnEnter(TwoPlusHovering, OnExit(s, m).m, f);
    if ForemostHandTouches(f) {
      EnteringGoesOn(s, m, TwoPlusHovering, f);
      EnteringSettles(TwoPlusHovering, e.m, TwoPlusScrolling, f);
    } else {
      EnteringSettles(s, m, TwoPlusHovering, f);
    }
  }

  lemma TwoHandsSettle(s: State, m: Memory, f: Frame)
    requires !Spins(f) && Home(f) == HandsHovering && !OnExit(s, m).m.clickDown
    ensures var r := Settle(s, m, Some(HandsHovering), f); IsQuiet(r.s, r.m)
  {
    var e := OnEnter(HandsHovering, OnExit(s, m).m, f);
    if f.zone == ZoneTouching {
      EnteringGoesOn(s, m, HandsHovering, f);
      EnteringSettles(HandsHovering, e.m, HandsRecognition, f);
    } else {
      EnteringSettles(s, m, HandsHovering, f);
    }
  }

  lemma NoPointablesSettle(s: State, m: Memory, f: Frame)
    requires !Spins(f) && !OnExit(s, m).m.clickDown
    ensures var r := Settle(s, m, Some(NoPointables), f); IsQuiet(r.s, r.m) <==> !Reactivates(f)
  {
    var e := OnEnter(NoPointables, OnExit(s, m).m, f);
    if e.next.None? {
      EnteringSettles(s, m, NoPointables, f);
    } else {
      EnteringGoesOn(s, m, NoPointables, f);
      match Home(f)
      case HandsHovering => TwoHandsSettle(NoPointables, e.m, f);
      case OneHovering => OnePointableSettles(NoPointables, e.m, f);
      case TwoPlusHovering => MorePointablesSettle(NoPointables, e.m, f);
      case _ => EnteringSettles(NoPointables, e.m, PalmRecognition, f);
    }
  }

  /** `stopActiveEvents` leaves nothing active unless it finds something active over a frame that reactivates. */
  lemma LostFocusIsQuietIff(s: State, m: Memory, f: Frame)
    requires !Spins(f) && Resting(s, m)
    ensures var r := Run(s, m, LostFocus, f); IsQuiet(r.s, r.m) <==> s == NoPointables || !Reactivates(f)
  {
    if s != NoPointables { NoPointablesSettle(s, m, f); }
  }
}
