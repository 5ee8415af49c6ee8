/**
  What the statechart of BasicModeChart means to the person using it: over which frames each state is kept, which
  observation opens which gesture, how long recognition takes, and how presses are numbered.
 */
module BasicModeLaws {
  import opened ValueTree
  import opened GestureTrace
  import opened MachineInputs
  import opened Observations
  import opened Presses
  import opened BasicModeChart

  /** Neither two hands nor a palm ask for the frame. */
  predicate FingersOnly(f: Frame) { !f.multiHand && !(f.sideways && !f.disablePalmSwipe) }

  /** Two hands that have not been lifted. */
  predicate HandsGoOn(f: Frame) { f.multiHand && (f.noTouching ==> f.zone == ZoneTouching) }

  predicate HandTouches(hand: int, f: Frame) { hand in f.hands && f.hands[hand] }

  // ------------------------------------------------------ where it comes to rest

  /** The frames over which the machine comes to rest in a state; a hand that is followed has a non-negative id. */
  predicate RestsOver(s: State, hand: int, f: Frame) {
    match s
    case NoPointables => FingersOnly(f) && (f.unambiguous ==> f.count == 0)
    case OneHovering => FingersOnly(f) && (f.unambiguous ==> f.count == 1) && f.zone != ZoneTouching
    case OneClickCooldown => FingersOnly(f) && (f.unambiguous ==> f.count == 1) && f.zone == ZoneTouching
    case TwoPlusHovering =>
      FingersOnly(f) && (f.unambiguous ==> f.count > 1 || (f.count == 1 && f.disableClicking)) && (hand >= 0 ==> hand in f.hands && !f.hands[hand])
    case TwoPlusScrolling => FingersOnly(f) && (f.unambiguous ==> f.count > 0) && HandTouches(hand, f)
    case HandsHovering => f.multiHand && f.zone != ZoneTouching
    case HandsRecognition | HandsRotating | HandsZooming => HandsGoOn(f)
    case PalmRecognition | PalmSwipe => f.sideways && !f.disablePalmSwipe
  }

  /** A frame that calls for a call, the hand being the one followed afterwards. */
  predicate Warrants(hand: int, f: Frame, e: Event) {
    match e
    case ClickDown(_) => FingersOnly(f) && (f.unambiguous ==> f.count == 1) && f.zone == ZoneTouching
    case Begin(Scroll) => FingersOnly(f) && (f.unambiguous ==> f.count > 0) && HandTouches(hand, f)
    case Begin(Rotate) => HandsGoOn(f) && f.filtered == Rotating
    case Begin(Zoom) => HandsGoOn(f) && f.filtered == Scaling
    case Begin(DesktopSwipeHorizontal) => f.filtered == Translating
    case Begin(DesktopSwipeVertical) => false
    case _ => true
  }

  /** What is known of a state asked for, with the fields it is asked for with. */
  predicate MayEnter(t: State, m: Memory, f: Frame) {
    && (!FallsThrough(t, f) && t != PalmSwipe ==> RestsOver(t, EntryMemory(t, m, f).favoriteHand, f))
    && (GestureOf(t).Some? ==> Warrants(m.favoriteHand, f, Begin(GestureOf(t).value)))
    && (t == OneClickCooldown ==> RestsOver(t, m.favoriteHand, f) && f.now - m.lastClickTime <= 150 * MILLISECONDS)
    && (t == PalmRecognition ==> !f.multiHand)
  }

  lemma MisfitMayGoHome(m: Memory, f: Frame)
    ensures MayEnter(Home(f), m, f)
  {}

  lemma MoveMayBeEntered(s: State, m: Memory, f: Frame)
    requires !Misfit(s, f) && Move(s, m, f).Some? && Move(s, m, f) != Some(Home(f))
    ensures MayEnter(Move(s, m, f).value, FrameMemory(s, m, f), f)
  {}

  lemma AskedForMayBeEntered(s: State, m: Memory, f: Frame)
    ensures var r := OnFrame(s, m, f); r.next.Some? ==> MayEnter(r.next.value, r.m, f)
  {
    MisfitMayGoHome(FrameMemory(s, m, f), f);
    if !Misfit(s, f) && Move(s, m, f).Some? && Move(s, m, f) != Some(Home(f)) { MoveMayBeEntered(s, m, f); }
  }

  lemma ExitKeeps(s: State, m: Memory)
    ensures var x := OnExit(s, m).m; x == m.(clickDown := x.clickDown)
  {}

  lemma EnteringMayGoOn(t: State, m: Memory, f: Frame)
    requires MayEnter(t, m, f)
    ensures var e := OnEnter(t, m, f);
      if e.next.Some? then MayEnter(e.next.value, e.m, f) else t == PalmSwipe || RestsOver(t, e.m.favoriteHand, f)
  {
    if FallsThrough(t, f) { AskedForMayBeEntered(t, EntryMemory(t, m, f), f); }
  }

  lemma ExitMayGoOn(s: State, m: Memory, t: State, f: Frame)
    requires MayEnter(t, m, f)
    ensures MayEnter(t, OnExit(s, m).m, f)
  {
    ExitKeeps(s, m);
  }

  lemma SettleStays(s: State, m: Memory, t: State, f: Frame)
    requires !Spins(f) && OnEnter(t, OnExit(s, m).m, f).next.None?
    ensures var x := OnExit(s, m);
      var e := OnEnter(t, x.m, f);
      Settle(s, m, Some(t), f) == Outcome(t, e.m, x.out + e.out, 1)
  {}

  lemma SettleGoesOn(s: State, m: Memory, t: State, f: Frame)
    requires !Spins(f) && OnEnter(t, OnExit(s, m).m, f).next.Some?
    ensures var x := OnExit(s, m);
      var e := OnEnter(t, x.m, f);
      var r, n := Settle(s, m, Some(t), f), Settle(t, e.m, e.next, f);
      r.s == n.s && r.m == n.m && r.out == x.out + e.out + n.out
  {}

  /** Where a frame leaves the machine: at rest, or in a palm's swipe that began with the frame. */
  predicate ComesToRest(s: State, hand: int, f: Frame) {
    && (RestsOver(s, hand, f) || (s == PalmSwipe && f.filtered == Translating))
    && (s == PalmRecognition ==> !f.multiHand)
  }

  lemma LastMoveRests(t: State, m: Memory, f: Frame)
    requires MayEnter(t, m, f) && OnEnter(t, m, f).next.None?
    ensures ComesToRest(t, OnEnter(t, m, f).m.favoriteHand, f)
  {
    EnteringMayGoOn(t, m, f);
  }

  lemma {:induction false} SettlingRests(s: State, m: Memory, t: State, f: Frame)
    requires !Spins(f) && MayEnter(t, m, f)
    ensures var r := Settle(s, m, Some(t), f);
      ComesToRest(r.s, r.m.favoriteHand, f)
    decreases Rank(t, f)
  {
    var x := OnExit(s, m);
    var e := OnEnter(t, x.m, f);
    ExitMayGoOn(s, m, t, f);
    if e.next.Some? {
      EnteringMayGoOn(t, x.m, f);
      EnterTargetIgnoresMemory(t, x.m, f);
      EnteringDescends(t, f);
      SettleGoesOn(s, m, t, f);
      SettlingRests(t, e.m, e.next.value, f);
    } else {
      SettleStays(s, m, t, f);
      LastMoveRests(t, x.m, f);
    }
  }

  /**
    Whatever state it was in, after a processed frame the machine rests in a state that the frame fits, but for a palm
    that stops being one in the very frame in which it starts to swipe.  Two hands come before a palm.
   */
  lemma ProcessedFrameRests(s: State, m: Memory, f: Frame)
    requires !Spins(f)
    ensures var r := Run(s, m, ProcessFrame, f);
      && (RestsOver(r.s, r.m.favoriteHand, f) || (r.s == PalmSwipe && (s == PalmSwipe || f.filtered == Translating)))
      && (r.s == PalmRecognition && r.moves > 0 ==> !f.multiHand)
  {
    var r := OnFrame(s, m, f);
    AskedForMayBeEntered(s, m, f);
    if r.next.Some? { SettlingRests(s, r.m, r.next.value, f); }
  }

  // ------------------------------------------------------- the calls of a step

  /** The calls with which a gesture opens; swipes and scrolls wait for the next frame to move on. */
  function OpeningOf(g: Gesture): seq<Event> {
    match g
    case Rotate => [Begin(Rotate), ApplyRotation]
    case Zoom => [Begin(Zoom), ApplyZoom]
    case _ => [Begin(g)]
  }

  /** The calls that arriving in a state makes. */
  function ArrivalOut(t: State, m: Memory, f: Frame): seq<Event> {
    if t == OneClickCooldown then [ClickDown(NextClickNumber(m, f))]
    else if GestureOf(t).Some? then OpeningOf(GestureOf(t).value)
    else []
  }

  lemma StayOfEntry(t: State, m: Memory, f: Frame)
    requires MayEnter(t, m, f) && OnEnter(t, m, f).next.None?
    ensures OnEnter(t, m, f).out == if GestureOf(t).Some? then OpeningOf(GestureOf(t).value) else []
  {}

  /** A state that is passed through makes no call but the press, and the press leads to the cooldown. */
  lemma PassOfEntry(t: State, m: Memory, f: Frame)
    requires MayEnter(t, m, f) && OnEnter(t, m, f).next.Some?
    ensures var e := OnEnter(t, m, f);
      && e.out == (if e.next == Some(OneClickCooldown) then [ClickDown(NextClickNumber(m, f))] else [])
      && OnExit(t, e.m).out == []
      && (e.next != Some(OneClickCooldown) ==> NextClickNumber(e.m, f) == NextClickNumber(m, f))
      && t != OneClickCooldown
  {}

  lemma Nothing(a: seq<Event>, b: seq<Event>)
    ensures (a + []) + ([] + b) == a + b && (a + b) + ([] + []) == a + b && a + b + [] == a + b
  {}

  lemma CooldownStays(s: State, m: Memory, f: Frame)
    requires !Spins(f) && MayEnter(OneClickCooldown, m, f)
    ensures var r := Settle(s, m, Some(OneClickCooldown), f);
      r.s == OneClickCooldown && r.out == OnExit(s, m).out
  {
    ExitKeeps(s, m);
    ExitMayGoOn(s, m, OneClickCooldown, f);
    assert OnExit(s, m).out + [] == OnExit(s, m).out;
  }

  lemma LastMoveCalls(s: State, m: Memory, t: State, f: Frame)
    requires !Spins(f) && MayEnter(t, m, f) && OnEnter(t, OnExit(s, m).m, f).next.None?
    ensures var r := Settle(s, m, Some(t), f);
      r.s == t && r.out == OnExit(s, m).out + if t == OneClickCooldown then [] else ArrivalOut(t, m, f)
  {
    SettleStays(s, m, t, f);
    ExitMayGoOn(s, m, t, f);
    StayOfEntry(t, OnExit(s, m).m, f);
  }

  lemma ArrivalIgnoresExit(s: State, m: Memory, t: State, f: Frame)
    ensures ArrivalOut(t, OnExit(s, m).m, f) == ArrivalOut(t, m, f)
  {
    ExitKeeps(s, m);
  }

  /** A move on from a state that is passed through: the press when it leads to the cooldown, else what comes after. */
  lemma MoveOnCalls(s: State, m: Memory, t: State, f: Frame)
    requires !Spins(f) && MayEnter(t, m, f) && OnEnter(t, OnExit(s, m).m, f).next.Some?
    ensures var e := OnEnter(t, OnExit(s, m).m, f);
      var r, n := Settle(s, m, Some(t), f), Settle(t, e.m, e.next, f);
      && r.s == n.s
      && (if e.next == Some(OneClickCooldown) then n.out == [] ==> r.out == OnExit(s, m).out + ArrivalOut(OneClickCooldown, m, f)
          else n.out == [] + ArrivalOut(n.s, e.m, f) ==> r.out == OnExit(s, m).out + ArrivalOut(n.s, m, f))
  {
    var x := OnExit(s, m);
    ExitMayGoOn(s, m, t, f);
    SettleGoesOn(s, m, t, f);
    PassOfEntry(t, x.m, f);
    var u := Settle(s, m, Some(t), f).s;
    ArrivalIgnoresExit(s, m, u, f);
    ArrivalIgnoresExit(s, m, OneClickCooldown, f);
    Nothing(x.out, ArrivalOut(u, m, f));
    Nothing(x.out, ArrivalOut(OneClickCooldown, m, f));
  }

  /** However many states a frame passes through, the calls are those that close the first and open the last. */
  lemma {:induction false} SettlingCalls(s: State, m: Memory, t: State, f: Frame)
    requires !Spins(f) && MayEnter(t, m, f)
    ensures var r := Settle(s, m, Some(t), f);
      r.out == OnExit(s, m).out + if t == OneClickCooldown then [] else ArrivalOut(r.s, m, f)
    decreases Rank(t, f)
  {
    var x := OnExit(s, m);
    var e := OnEnter(t, x.m, f);
    ExitMayGoOn(s, m, t, f);
    if e.next.Some? {
      EnteringMayGoOn(t, x.m, f);
      EnterTargetIgnoresMemory(t, x.m, f);
      EnteringDescends(t, f);
      if e.next == Some(OneClickCooldown) { CooldownStays(t, e.m, f); } else { SettlingCalls(t, e.m, e.next.value, f); }
      PassOfEntry(t, x.m, f);
      MoveOnCalls(s, m, t, f);
    } else {
      LastMoveCalls(s, m, t, f);
    }
  }

  lemma {:induction false} SettlingWarrants(s: State, m: Memory, t: State, f: Frame)
    requires !Spins(f) && MayEnter(t, m, f)
    ensures var r := Settle(s, m, Some(t), f);
      GestureOf(r.s).Some? ==> Warrants(r.m.favoriteHand, f, Begin(GestureOf(r.s).value))
    decreases Rank(t, f)
  {
    var x := OnExit(s, m);
    var e := OnEnter(t, x.m, f);
    ExitMayGoOn(s, m, t, f);
    EnteringMayGoOn(t, x.m, f);
    EnterTargetIgnoresMemory(t, x.m, f);
    if e.next.Some? {
      EnteringDescends(t, f);
      SettlingWarrants(t, e.m, e.next.value, f);
    }
  }

  predicate AllWarranted(hand: int, f: Frame, out: seq<Event>) { forall e | e in out :: Warrants(hand, f, e) }

  lemma ArrivalIsWarranted(t: State, m: Memory, hand: int, f: Frame)
    requires RestsOver(t, hand, f) || t == PalmSwipe
    requires GestureOf(t).Some? ==> Warrants(hand, f, Begin(GestureOf(t).value))
    ensures AllWarranted(hand, f, ArrivalOut(t, m, f))
  {}

  lemma SettlingIsWarranted(s: State, m: Memory, t: State, f: Frame)
    requires !Spins(f) && MayEnter(t, m, f)
    ensures var r := Settle(s, m, Some(t), f); AllWarranted(r.m.favoriteHand, f, r.out)
  {
    var r := Settle(s, m, Some(t), f);
    SettlingCalls(s, m, t, f);
    SettlingRests(s, m, t, f);
    SettlingWarrants(s, m, t, f);
    ArrivalIsWarranted(r.s, m, r.m.favoriteHand, f);
    assert AllWarranted(r.m.favoriteHand, f, OnExit(s, m).out);
  }

  lemma FrameIsWarranted(s: State, m: Memory, hand: int, f: Frame)
    ensures AllWarranted(hand, f, FrameOut(s, m, f))
  {}

  /** Every gesture begun and every press made in a step is called for by the frame of that step. */
  lemma OpeningsAreWarranted(s: State, m: Memory, input: Input, f: Frame)
    requires !Spins(f) && IsUsers(input)
    ensures var r := Run(s, m, input, f); AllWarranted(r.m.favoriteHand, f, r.out)
  {
    var r := React(s, input, m, f);
    AskedForMayBeEntered(s, m, f);
    FrameIsWarranted(s, m, Run(s, m, input, f).m.favoriteHand, f);
    if r.next.Some? { SettlingIsWarranted(s, r.m, r.next.value, f); }
  }

  // ------------------------------------------------- when a state is kept

  /** The time and the motion that a state waits for over frames that fit it. */
  predicate IsDue(s: State, m: Memory, f: Frame) {
    match s
    case HandsRecognition => f.now - m.gestureStart >= 20 * MILLISECONDS && (f.filtered == Rotating || f.filtered == Scaling)
    case PalmRecognition => f.now - m.gestureStart >= 100 * MILLISECONDS && f.filtered == Translating
    case _ => false
  }

  lemma SettlingMoves(s: State, m: Memory, t: State, f: Frame)
    requires !Spins(f)
    ensures Settle(s, m, Some(t), f).moves > 0
  {}

  /** A kept state moves its gesture on, and the cooldown releases the button once after 150 ms. */
  function KeptOut(s: State, m: Memory, f: Frame): seq<Event> {
    match s
    case TwoPlusScrolling => [ApplyScroll]
    case HandsRotating => [ApplyRotation]
    case HandsZooming => [ApplyZoom]
    case PalmSwipe => [ApplyDesktopSwipe]
    case OneClickCooldown => if m.clickDown && f.now - m.lastClickTime > 150 * MILLISECONDS then [ClickUp(m.clickNumber)] else []
    case _ => []
  }

  /** A frame leaves the state alone exactly when it fits, with the hand it then follows, and nothing is due. */
  lemma KeptIff(s: State, m: Memory, f: Frame)
    requires !Spins(f)
    ensures var r := Run(s, m, ProcessFrame, f);
      && (r.moves == 0 <==> RestsOver(s, FrameMemory(s, m, f).favoriteHand, f) && !IsDue(s, m, f))
      && (r.moves == 0 ==> r.s == s && r.m == FrameMemory(s, m, f) && r.out == KeptOut(s, m, f))
  {
    var t := FrameTarget(s, m, f);
    if t.Some? { SettlingMoves(s, FrameMemory(s, m, f), t.value, f); }
    assert t.None? <==> RestsOver(s, FrameMemory(s, m, f).favoriteHand, f) && !IsDue(s, m, f);
    assert FrameOut(s, m, f) + [] == FrameOut(s, m, f);
  }

  // ----------------------------------------- what recognition leads to, and when

  lemma OneMove(s: State, m: Memory, t: State, f: Frame)
    requires !Spins(f) && OnExit(s, m).out == [] && OnEnter(t, OnExit(s, m).m, f).next.None?
    ensures var e := OnEnter(t, OnExit(s, m).m, f); Settle(s, m, Some(t), f) == Outcome(t, e.m, e.out, 1)
  {
    assert [] + OnEnter(t, OnExit(s, m).m, f).out == OnEnter(t, OnExit(s, m).m, f).out;
  }

  /** Two hands rotate or zoom once the one motion is clear and 20 ms have passed. */
  lemma HandsAreRecognised(m: Memory, f: Frame)
    requires !Spins(f) && f.multiHand
    ensures Run(HandsRecognition, m, ProcessFrame, f).out ==
      if !HandsGoOn(f) || f.now - m.gestureStart < 20 * MILLISECONDS then []
      else match f.filtered
        case Rotating => [Begin(Rotate), ApplyRotation]
        case Scaling => [Begin(Zoom), ApplyZoom]
        case _ => []
  {
    var t := FrameTarget(HandsRecognition, m, f);
    if t.Some? { OneMove(HandsRecognition, FrameMemory(HandsRecognition, m, f), t.value, f); }
  }

  /** A palm swipes once it has translated for 100 ms, even in the frame in which it stops being one. */
  lemma PalmIsRecognised(m: Memory, f: Frame)
    requires !Spins(f) && f.now - m.gestureStart >= 100 * MILLISECONDS && f.filtered == Translating
    ensures var r := Run(PalmRecognition, m, ProcessFrame, f); r.s == PalmSwipe && r.out == [Begin(DesktopSwipeHorizontal)]
  {
    OneMove(PalmRecognition, m, PalmSwipe, f);
  }

  /** A palm swipe is moved on by every frame, the one that ends it included. */
  lemma PalmSwipeApplies(m: Memory, f: Frame)
    requires !Spins(f)
    ensures var out := Run(PalmSwipe, m, ProcessFrame, f).out;
      && out != [] && out[0] == ApplyDesktopSwipe
      && (!(f.sideways && !f.disablePalmSwipe) ==> |out| > 1 && out[1] == End)
  {
    var t := FrameTarget(PalmSwipe, m, f);
    AskedForMayBeEntered(PalmSwipe, m, f);
    if t.Some? { SettlingCalls(PalmSwipe, FrameMemory(PalmSwipe, m, f), t.value, f); }
  }

  /** The other gestures make no further move in the frame that ends them. */
  lemma GestureEnds(s: State, m: Memory, f: Frame)
    requires !Spins(f) && GestureOf(s).Some? && s != PalmSwipe && Run(s, m, ProcessFrame, f).moves > 0
    ensures var out := Run(s, m, ProcessFrame, f).out; out != [] && out[0] == End
  {
    assert FrameOut(s, m, f) == [];
  }

  /** One pointable that touches presses at once. */
  lemma OnePointablePresses(m: Memory, f: Frame)
    requires !Spins(f) && FingersOnly(f) && (f.unambiguous ==> f.count == 1) && f.zone == ZoneTouching
    ensures var r := Run(OneHovering, m, ProcessFrame, f); r.s == OneClickCooldown && |r.out| == 1 && r.out[0].ClickDown?
  {
    OneMove(OneHovering, FrameMemory(OneHovering, m, f), OneClickCooldown, f);
  }

  /** The hand that hovering follows: the one it follows already, or that of the favourite pointable, or of the foremost. */
  function HandToFollow(m: Memory, f: Frame): int {
    if m.favoriteHand >= 0 then m.favoriteHand
    else if m.favorite >= 0 && m.favorite in f.pointables then f.pointables[m.favorite]
    else if f.foremost in f.pointables then f.pointables[f.foremost]
    else m.favoriteHand
  }

  /** Hovering with the pointables of a hand that is there keeps following it, and scrolls with it when it touches. */
  lemma FollowedHandScrolls(m: Memory, f: Frame)
    requires !Spins(f) && FingersOnly(f) && (f.unambiguous ==> f.count > 1 || (f.count == 1 && f.disableClicking))
    requires var hand := HandToFollow(m, f); hand >= 0 && hand in f.hands
    ensures var r, hand := Run(TwoPlusHovering, m, ProcessFrame, f), HandToFollow(m, f);
      && r.m.favoriteHand == hand
      && (if f.hands[hand] then r.s == TwoPlusScrolling && r.out == [Begin(Scroll)] else r.s == TwoPlusHovering && r.out == [])
  {
    var m1 := FrameMemory(TwoPlusHovering, m, f);
    assert m1.favoriteHand == HandToFollow(m, f);
    if f.hands[HandToFollow(m, f)] { OneMove(TwoPlusHovering, m1, TwoPlusScrolling, f); }
  }

  /** Arriving with several pointables, it follows the hand of the foremost one; that one is the favourite wherever it hovers. */
  lemma {:induction false} ArrivalFollowsForemost(s: State, m: Memory, t: State, f: Frame)
    requires !Spins(f) && t != TwoPlusScrolling
    ensures var r := Settle(s, m, Some(t), f);
      && (r.s in {OneHovering, TwoPlusHovering, TwoPlusScrolling, HandsHovering} ==> r.m.favorite == f.foremost)
      && (r.s == TwoPlusHovering || r.s == TwoPlusScrolling ==>
            r.m.favoriteHand == if f.foremost != -1 && f.foremost in f.pointables then f.pointables[f.foremost] else -1)
    decreases Rank(t, f)
  {
    var e := OnEnter(t, OnExit(s, m).m, f);
    EnterTargetIgnoresMemory(t, OnExit(s, m).m, f);
    if e.next.Some? {
      EnteringDescends(t, f);
      SettleGoesOn(s, m, t, f);
      if e.next == Some(TwoPlusScrolling) { ScrollingStays(t, e.m, f); } else { ArrivalFollowsForemost(t, e.m, e.next.value, f); }
    } else {
      SettleStays(s, m, t, f);
    }
  }

  lemma ScrollingStays(s: State, m: Memory, f: Frame)
    requires !Spins(f)
    ensures var r := Settle(s, m, Some(TwoPlusScrolling), f);
      r.s == TwoPlusScrolling && r.m.favorite == m.favorite && r.m.favoriteHand == m.favoriteHand
  {
    ExitKeeps(s, m);
  }

  /** The states that look after the favourite keep it as long as the frame has it, and take the foremost otherwise. */
  lemma FavoriteIsKept(s: State, m: Memory, f: Frame)
    requires !Spins(f) && Run(s, m, ProcessFrame, f).moves == 0
    ensures Run(s, m, ProcessFrame, f).m.favorite ==
      if s !in {OneHovering, OneClickCooldown, TwoPlusHovering} || (m.favorite >= 0 && m.favorite in f.pointables) then m.favorite
      else f.foremost
  {
    KeptIff(s, m, f);
  }

  // --------------------------------------------------- times, over a whole run

  /** The last step of a run, from where the steps before it have led; a run without steps is its start. */
  function Last(m: Memory, f: Frame, steps: seq<Step>): Outcome
    requires !Spins(f) && Acceptable(steps)
  {
    if steps == [] then Start(m, f)
    else
      var p, last := Play(m, f, steps[..|steps| - 1]), steps[|steps| - 1];
      Run(p.s, p.m, last.input, last.frame)
  }

  function Now(f: Frame, steps: seq<Step>): int { if steps == [] then f.now else steps[|steps| - 1].frame.now }

  /** The time at which the machine came to the state it is in. */
  function RestingSince(m: Memory, f: Frame, steps: seq<Step>): int
    requires !Spins(f) && Acceptable(steps)
  {
    if steps == [] || Last(m, f, steps).moves > 0 then Now(f, steps) else RestingSince(m, f, steps[..|steps| - 1])
  }

  predicate IsTimed(s: State) { s == HandsRecognition || s == PalmRecognition }

  lemma {:induction false} SettlingStartsClock(s: State, m: Memory, t: State, f: Frame)
    requires !Spins(f)
    ensures var r := Settle(s, m, Some(t), f); IsTimed(r.s) ==> r.m.gestureStart == f.now
    decreases Rank(t, f)
  {
    var e := OnEnter(t, OnExit(s, m).m, f);
    EnterTargetIgnoresMemory(t, OnExit(s, m).m, f);
    if e.next.Some? {
      EnteringDescends(t, f);
      SettleGoesOn(s, m, t, f);
      SettlingStartsClock(t, e.m, e.next.value, f);
    }
  }

  lemma RunKeepsClock(s: State, m: Memory, input: Input, f: Frame)
    requires !Spins(f) && IsUsers(input)
    ensures var r := Run(s, m, input, f);
      IsTimed(r.s) ==> if r.moves > 0 then r.m.gestureStart == f.now else r.s == s && r.m.gestureStart == m.gestureStart
  {
    var r := React(s, input, m, f);
    if r.next.Some? {
      SettlingStartsClock(s, r.m, r.next.value, f);
      SettlingMoves(s, r.m, r.next.value, f);
    }
  }

  lemma StartStartsClock(m: Memory, f: Frame)
    requires !Spins(f)
    ensures IsTimed(Start(m, f).s) ==> Start(m, f).m.gestureStart == f.now
  {
    var e := OnEnter(NoPointables, m, f);
    if e.next.Some? { SettlingStartsClock(NoPointables, e.m, e.next.value, f); }
  }

  lemma PlayedLast(m: Memory, f: Frame, steps: seq<Step>)
    requires !Spins(f) && Acceptable(steps)
    ensures Play(m, f, steps).s == Last(m, f, steps).s && Play(m, f, steps).m == Last(m, f, steps).m
  {}

  /** The clock of a recognition shows the time at which the machine came to it. */
  lemma {:induction false} ClockShowsRest(m: Memory, f: Frame, steps: seq<Step>)
    requires !Spins(f) && Acceptable(steps)
    ensures var p := Last(m, f, steps); IsTimed(p.s) ==> p.m.gestureStart == RestingSince(m, f, steps)
    decreases |steps|
  {
    if steps == [] {
      StartStartsClock(m, f);
    } else {
      var before, last := steps[..|steps| - 1], steps[|steps| - 1];
      ClockShowsRest(m, f, before);
      PlayedLast(m, f, before);
      RunKeepsClock(Play(m, f, before).s, Play(m, f, before).m, last.input, last.frame);
    }
  }

  /** No frame both starts a recognition and ends it in a gesture. */
  lemma {:induction false} SettlingNeverRecognises(s: State, m: Memory, t: State, f: Frame)
    requires !Spins(f) && t !in {HandsRotating, HandsZooming, PalmSwipe}
    ensures Settle(s, m, Some(t), f).s !in {HandsRotating, HandsZooming, PalmSwipe}
    decreases Rank(t, f)
  {
    var e := OnEnter(t, OnExit(s, m).m, f);
    EnterTargetIgnoresMemory(t, OnExit(s, m).m, f);
    if e.next.Some? {
      EnteringDescends(t, f);
      SettleGoesOn(s, m, t, f);
      SettlingNeverRecognises(t, e.m, e.next.value, f);
    }
  }

  lemma BeginNamesState(s: State, m: Memory, t: State, g: Gesture, f: Frame)
    requires Begin(g) in OnExit(s, m).out + if t == OneClickCooldown then [] else ArrivalOut(t, m, f)
    ensures GestureOf(t) == Some(g)
  {}

  /** What asks for a timed gesture. */
  predicate AsksForGesture(s: State, m: Memory, g: Gesture, f: Frame) {
    match s
    case HandsRecognition => f.now - m.gestureStart >= 20 * MILLISECONDS && (g == Rotate || g == Zoom)
    case PalmRecognition => f.now - m.gestureStart >= 100 * MILLISECONDS && g == DesktopSwipeHorizontal
    case _ => false
  }

  lemma GestureIsAskedFor(s: State, m: Memory, f: Frame)
    ensures var t := FrameTarget(s, m, f);
      t.Some? && t.value in {HandsRotating, HandsZooming, PalmSwipe} ==> AsksForGesture(s, m, GestureOf(t.value).value, f)
  {}

  lemma GestureStays(s: State, m: Memory, t: State, f: Frame)
    requires !Spins(f) && t in {HandsRotating, HandsZooming, PalmSwipe}
    ensures Settle(s, m, Some(t), f).s == t
  {}

  lemma SettlingGestures(s: State, m: Memory, t: State, g: Gesture, f: Frame)
    requires !Spins(f) && MayEnter(t, m, f) && g != Scroll && Begin(g) in Settle(s, m, Some(t), f).out
    ensures t in {HandsRotating, HandsZooming, PalmSwipe} && GestureOf(t) == Some(g)
  {
    SettlingCalls(s, m, t, f);
    if t == OneClickCooldown { CooldownStays(s, m, f); }
    BeginNamesState(s, m, Settle(s, m, Some(t), f).s, g, f);
    if t in {HandsRotating, HandsZooming, PalmSwipe} { GestureStays(s, m, t, f); } else { SettlingNeverRecognises(s, m, t, f); }
  }

  /** A timed gesture begins in a state that asks for it. */
  lemma GestureComesFrom(s: State, m: Memory, input: Input, g: Gesture, f: Frame)
    requires !Spins(f) && IsUsers(input) && g != Scroll && Begin(g) in Run(s, m, input, f).out
    ensures AsksForGesture(s, m, g, f)
  {
    var r := React(s, input, m, f);
    assert Begin(g) !in r.out;
    if r.next.Some? {
      AskedForMayBeEntered(s, m, f);
      assert MayEnter(r.next.value, r.m, f);
      SettlingGestures(s, r.m, r.next.value, g, f);
      GestureIsAskedFor(s, m, f);
    }
  }

  /**
    In every run two hands rotate or zoom no sooner than 20 ms after they came to rest in recognition, and a palm swipes no
    sooner than 100 ms after it did; nothing else begins these gestures.
   */
  lemma GesturesTakeTime(m: Memory, f: Frame, steps: seq<Step>, g: Gesture)
    requires !Spins(f) && Acceptable(steps) && steps != [] && g != Scroll
    ensures Begin(g) in Last(m, f, steps).out ==>
      var before := steps[..|steps| - 1];
      var rested := Now(f, steps) - RestingSince(m, f, before);
      match Play(m, f, before).s
      case HandsRecognition => rested >= 20 * MILLISECONDS && (g == Rotate || g == Zoom)
      case PalmRecognition => rested >= 100 * MILLISECONDS && g == DesktopSwipeHorizontal
      case _ => false
  {
    var before, last := steps[..|steps| - 1], steps[|steps| - 1];
    var p := Play(m, f, before);
    ClockShowsRest(m, f, before);
    PlayedLast(m, f, before);
    if Begin(g) in Last(m, f, steps).out {
      GestureComesFrom(p.s, p.m, last.input, g, last.frame);
    }
  }

  // ----------------------------------------------- presses, over a whole run

  datatype Click = Click(number: int, time: int)

  /** A new press counts on from a close one in the last three seconds, up to three. */
  function NumberAfter(last: Option<Click>, f: Frame): int {
    if last.None? || f.now - last.value.time > 3 * SECONDS || f.farFromLastClick || last.value.number == 3 then 1
    else last.value.number + 1
  }

  function Follow(last: Option<Click>, out: seq<Event>, now: int): Option<Click> {
    if DownIn(out).Some? then Some(Click(DownIn(out).value, now)) else last
  }

  function LastClick(m: Memory, f: Frame, steps: seq<Step>): Option<Click>
    requires !Spins(f) && Acceptable(steps)
  {
    Follow(if steps == [] then None else LastClick(m, f, steps[..|steps| - 1]), Last(m, f, steps).out, Now(f, steps))
  }

  /** The fields of the machine agree with the last press. */
  ghost predicate Agrees(last: Option<Click>, m: Memory) {
    if last.None? then m.clickNumber == 0 && !m.clickDown else m.clickNumber == last.value.number && m.lastClickTime == last.value.time
  }

  /** What a step may press and release. */
  ghost predicate Counts(last: Option<Click>, out: seq<Event>, f: Frame) {
    && (DownIn(out).Some? ==> DownIn(out).value == NumberAfter(last, f))
    && (forall e | e in out && e.ClickUp? :: last.Some? && e == ClickUp(last.value.number))
  }

  /** The fields of a click, after some calls. */
  ghost predicate ClickFields(pressed: bool, m: Memory, m1: Memory, f: Frame) {
    if pressed then m1.clickNumber == NextClickNumber(m, f) && m1.lastClickTime == f.now
    else m1.clickNumber == m.clickNumber && m1.lastClickTime == m.lastClickTime && (m1.clickDown ==> m.clickDown)
  }

  lemma EntryKeepsClick(t: State, m: Memory, f: Frame)
    requires MayEnter(t, m, f)
    ensures ClickFields(OnEnter(t, m, f).next == Some(OneClickCooldown), m, OnEnter(t, m, f).m, f)
  {}

  lemma CooldownKeepsClick(s: State, m: Memory, f: Frame)
    requires !Spins(f) && MayEnter(OneClickCooldown, m, f)
    ensures ClickFields(false, m, Settle(s, m, Some(OneClickCooldown), f).m, f)
  {
    ExitKeeps(s, m);
    ExitMayGoOn(s, m, OneClickCooldown, f);
  }

  /** Two stretches of a step, of which at most one presses. */
  lemma FieldsCompose(first: bool, second: bool, m: Memory, m1: Memory, m2: Memory, f: Frame)
    requires ClickFields(first, m, m1, f) && ClickFields(second, m1, m2, f) && !(first && second)
    requires !first ==> NextClickNumber(m1, f) == NextClickNumber(m, f)
    ensures ClickFields(first || second, m, m2, f)
  {}

  lemma ExitKeepsClick(s: State, m: Memory, f: Frame)
    ensures ClickFields(false, m, OnExit(s, m).m, f) && NextClickNumber(OnExit(s, m).m, f) == NextClickNumber(m, f)
  {
    ExitKeeps(s, m);
  }

  /** Where the machine has come to, having been entered in `t`. */
  function Arrived(t: State, m: Memory, f: Frame): Outcome
    requires !Spins(f)
  {
    var e := OnEnter(t, m, f);
    Settle(t, e.m, e.next, f)
  }

  lemma SettledIsArrived(s: State, m: Memory, t: State, f: Frame)
    requires !Spins(f)
    ensures var r, n := Settle(s, m, Some(t), f), Arrived(t, OnExit(s, m).m, f); r.s == n.s && r.m == n.m
  {
    if OnEnter(t, OnExit(s, m).m, f).next.Some? { SettleGoesOn(s, m, t, f); } else { SettleStays(s, m, t, f); }
  }

  /** Passing through a state that makes no press leaves what is entered next with the same fields of the click. */
  lemma PassingKeepsClick(t: State, m: Memory, f: Frame)
    requires !Spins(f) && MayEnter(t, m, f) && OnEnter(t, m, f).next.Some? && OnEnter(t, m, f).next != Some(OneClickCooldown)
    ensures var e := OnEnter(t, m, f);
      var m1 := OnExit(t, e.m).m;
      MayEnter(e.next.value, m1, f) && ClickFields(false, m, m1, f) && NextClickNumber(m1, f) == NextClickNumber(m, f)
  {
    var e := OnEnter(t, m, f);
    EnteringMayGoOn(t, m, f);
    EntryKeepsClick(t, m, f);
    PassOfEntry(t, m, f);
    ExitKeepsClick(t, e.m, f);
    ExitMayGoOn(t, e.m, e.next.value, f);
    FieldsCompose(false, false, m, e.m, OnExit(t, e.m).m, f);
  }

  lemma PressKeepsClick(t: State, m: Memory, f: Frame)
    requires !Spins(f) && MayEnter(t, m, f) && OnEnter(t, m, f).next == Some(OneClickCooldown)
    ensures var n := Arrived(t, m, f); n.s == OneClickCooldown && ClickFields(true, m, n.m, f)
  {
    var e := OnEnter(t, m, f);
    EnteringMayGoOn(t, m, f);
    EntryKeepsClick(t, m, f);
    CooldownStays(t, e.m, f);
    CooldownKeepsClick(t, e.m, f);
    FieldsCompose(true, false, m, e.m, Arrived(t, m, f).m, f);
  }

  lemma {:induction false} ArrivingKeepsClick(t: State, m: Memory, f: Frame)
    requires !Spins(f) && MayEnter(t, m, f) && t != OneClickCooldown
    ensures var n := Arrived(t, m, f); ClickFields(n.s == OneClickCooldown, m, n.m, f)
    decreases Rank(t, f)
  {
    var e := OnEnter(t, m, f);
    if e.next.None? {
      EntryKeepsClick(t, m, f);
    } else if e.next == Some(OneClickCooldown) {
      PressKeepsClick(t, m, f);
    } else {
      EnterTargetIgnoresMemory(t, m, f);
      EnteringDescends(t, f);
      PassingKeepsClick(t, m, f);
      var u, m1 := e.next.value, OnExit(t, e.m).m;
      ArrivingKeepsClick(u, m1, f);
      SettledIsArrived(t, e.m, u, f);
      FieldsCompose(false, Arrived(u, m1, f).s == OneClickCooldown, m, m1, Arrived(u, m1, f).m, f);
    }
  }

  lemma SettlingKeepsClick(s: State, m: Memory, t: State, f: Frame)
    requires !Spins(f) && MayEnter(t, m, f)
    ensures var r := Settle(s, m, Some(t), f); ClickFields(t != OneClickCooldown && r.s == OneClickCooldown, m, r.m, f)
  {
    if t == OneClickCooldown {
      CooldownKeepsClick(s, m, f);
    } else {
      var m1 := OnExit(s, m).m;
      ExitMayGoOn(s, m, t, f);
      ExitKeepsClick(s, m, f);
      ArrivingKeepsClick(t, m1, f);
      SettledIsArrived(s, m, t, f);
      FieldsCompose(false, Arrived(t, m1, f).s == OneClickCooldown, m, m1, Arrived(t, m1, f).m, f);
    }
  }

  lemma NoPressOfExit(s: State, m: Memory)
    ensures DownIn(OnExit(s, m).out) == None
  {
    DownInOne(End);
    DownInOne(ClickUp(m.clickNumber));
  }

  lemma NoPressOfOpening(g: Gesture)
    ensures DownIn(OpeningOf(g)) == None
  {
    DownInOne(Begin(g));
    DownInPair(Begin(g), ApplyOf(g));
  }

  lemma PressOfArrival(s: State, m: Memory, t: State, f: Frame)
    ensures DownIn(OnExit(s, m).out + ArrivalOut(t, m, f)) == if t == OneClickCooldown then Some(NextClickNumber(m, f)) else None
  {
    NoPressOfExit(s, m);
    DownInConcat(OnExit(s, m).out, ArrivalOut(t, m, f));
    if t == OneClickCooldown {
      DownInOne(ClickDown(NextClickNumber(m, f)));
    } else if GestureOf(t).Some? {
      NoPressOfOpening(GestureOf(t).value);
    }
  }

  lemma ReleaseOfArrival(s: State, m: Memory, t: State, f: Frame)
    ensures forall e | e in OnExit(s, m).out + ArrivalOut(t, m, f) && e.ClickUp? :: m.clickDown && e == ClickUp(m.clickNumber)
  {
    assert forall e | e in ArrivalOut(t, m, f) :: !e.ClickUp?;
  }

  /** The transitions of a step, from fields that agree with the last press. */
  lemma SettlingCounts(last: Option<Click>, s: State, m: Memory, t: State, f: Frame)
    requires !Spins(f) && MayEnter(t, m, f) && t != OneClickCooldown && Agrees(last, m)
    ensures var r := Settle(s, m, Some(t), f); Counts(last, r.out, f) && Agrees(Follow(last, r.out, f.now), r.m)
  {
    SettlingCalls(s, m, t, f);
    SettlingKeepsClick(s, m, t, f);
    PressOfArrival(s, m, Settle(s, m, Some(t), f).s, f);
    ReleaseOfArrival(s, m, Settle(s, m, Some(t), f).s, f);
  }

  /** The step that presses from hovering. */
  lemma PressCounts(last: Option<Click>, m: Memory, f: Frame)
    requires !Spins(f) && Agrees(last, m) && Clicks(OneHovering, f)
    ensures var r := Run(OneHovering, m, ProcessFrame, f); Counts(last, r.out, f) && Agrees(Follow(last, r.out, f.now), r.m)
  {
    var n := NextClickNumber(m, f);
    OneMove(OneHovering, FrameMemory(OneHovering, m, f), OneClickCooldown, f);
    var r := Run(OneHovering, m, ProcessFrame, f);
    assert r.out == [ClickDown(n)] && r.m.clickNumber == n && r.m.lastClickTime == f.now;
    DownInOne(ClickDown(n));
    assert n == NumberAfter(last, f);
  }

  /** A frame that does not press makes at most one call, and releases only what is pressed. */
  lemma FrameOutIsOne(s: State, m: Memory, f: Frame)
    requires !Clicks(s, f)
    ensures var out := FrameOut(s, m, f);
      out == [] || (|out| == 1 && !out[0].ClickDown? && (out[0].ClickUp? ==> m.clickDown && out[0] == ClickUp(m.clickNumber)))
    ensures FrameTarget(s, m, f) != Some(OneClickCooldown)
  {}

  lemma FrameKeepsClick(last: Option<Click>, s: State, m: Memory, f: Frame)
    requires Agrees(last, m) && !Clicks(s, f)
    ensures Agrees(last, FrameMemory(s, m, f))
  {}

  lemma FrameOutCounts(last: Option<Click>, s: State, m: Memory, f: Frame)
    requires Agrees(last, m) && !Clicks(s, f)
    ensures DownIn(FrameOut(s, m, f)) == None && Counts(last, FrameOut(s, m, f), f) && Agrees(last, FrameMemory(s, m, f))
    ensures FrameTarget(s, m, f) != Some(OneClickCooldown)
  {
    var out := FrameOut(s, m, f);
    FrameOutIsOne(s, m, f);
    FrameKeepsClick(last, s, m, f);
    if out != [] {
      assert out == [out[0]];
      DownInOne(out[0]);
    }
  }

  lemma StepCounts(last: Option<Click>, s: State, m: Memory, input: Input, f: Frame)
    requires !Spins(f) && IsUsers(input) && Agrees(last, m)
    ensures var r := Run(s, m, input, f); Counts(last, r.out, f) && Agrees(Follow(last, r.out, f.now), r.m)
  {
    if input == ProcessFrame && Clicks(s, f) {
      PressCounts(last, m, f);
    } else {
      var r := React(s, input, m, f);
      if input == ProcessFrame { FrameOutCounts(last, s, m, f); }
      DownInConcat(r.out, Settle(s, r.m, r.next, f).out);
      AskedForMayBeEntered(s, m, f);
      if r.next.Some? { SettlingCounts(last, s, r.m, r.next.value, f); }
    }
  }

  /** In every run from construction a press is numbered by the press before it, and a release by the press it ends. */
  lemma {:induction false} PressesAreCounted(m: Memory, f: Frame, steps: seq<Step>)
    requires !Spins(f) && Acceptable(steps) && m.clickNumber == 0 && !m.clickDown
    ensures Counts(if steps == [] then None else LastClick(m, f, steps[..|steps| - 1]), Last(m, f, steps).out,
                   if steps == [] then f else steps[|steps| - 1].frame)
    ensures Agrees(LastClick(m, f, steps), Last(m, f, steps).m)
    decreases |steps|
  {
    if steps == [] {
      StartCounts(m, f);
    } else {
      var before, last := steps[..|steps| - 1], steps[|steps| - 1];
      PressesAreCounted(m, f, before);
      PlayedLast(m, f, before);
      StepCounts(LastClick(m, f, before), Play(m, f, before).s, Play(m, f, before).m, last.input, last.frame);
    }
  }

  lemma StartCounts(m: Memory, f: Frame)
    requires !Spins(f) && m.clickNumber == 0 && !m.clickDown
    ensures var r := Start(m, f); Counts(None, r.out, f) && Agrees(Follow(None, r.out, f.now), r.m)
  {
    var e := OnEnter(NoPointables, m, f);
    FrameOutCounts(None, NoPointables, m, f);
    AskedForMayBeEntered(NoPointables, m, f);
    DownInConcat(e.out, Settle(NoPointables, e.m, e.next, f).out);
    if e.next.Some? { SettlingCounts(None, NoPointables, e.m, e.next.value, f); }
  }
}
