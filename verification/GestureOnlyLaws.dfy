/**
  What a whole frame means to the person using the gesture-only mode: the three events it sends are one step from one
  resting state to the next, decided by what three quarters of the last 100 ms show.
 */
module GestureOnlyLaws {
  import opened ValueTree
  import opened GestureTrace
  import opened Observations
  import opened GestureOnlyChart

  // -------------------------------------------------- what the window shows

  /** At least three quarters of the window are of one category. */
  ghost predicate Mostly(f: Frame, c: Category)
    requires ValidFrame(f)
  {
    Share(f.window, c) >= 0.75
  }

  /** No category has even half of the window. */
  ghost predicate IsMixed(f: Frame)
    requires ValidFrame(f)
  {
    forall c :: Share(f.window, c) < 0.50
  }

  /** The window speaks against a category that was seen before. */
  ghost predicate Denies(f: Frame, c: Category)
    requires ValidFrame(f)
  {
    IsMixed(f) || exists d :: d != c && Mostly(f, d)
  }

  predicate FavoriteTouches(f: Frame) { f.favoriteTouching && !f.noTouching }

  lemma CountSays(f: Frame)
    requires ValidFrame(f)
    ensures forall c :: Mostly(f, c) <==> CountInput(f.window) == Some(CountInputOf(c))
    ensures IsMixed(f) <==> CountInput(f.window) == Some(CountUncertain)
  {
    ThresholdEventsExclude(f.window, Two);
    forall c ensures Mostly(f, c) <==> CountInput(f.window) == Some(CountInputOf(c)) {
      ThresholdEventsExclude(f.window, c);
    }
  }

  /** The three events that leave recognition. */
  lemma CountLeaves(f: Frame)
    requires ValidFrame(f)
    ensures Mostly(f, Two) <==> CountInput(f.window) == Some(CountTwo)
    ensures Mostly(f, ThreePlus) <==> CountInput(f.window) == Some(CountThreePlus)
    ensures Mostly(f, Palm) <==> CountInput(f.window) == Some(CountPalm)
  {
    CountSays(f);
    assert CountTwo == CountInputOf(Two) && CountThreePlus == CountInputOf(ThreePlus) && CountPalm == CountInputOf(Palm);
  }

  /** The event of the window, in terms of what is shown. */
  lemma CountTells(f: Frame, c: Category)
    requires ValidFrame(f)
    ensures Denies(f, c) <==> CountInput(f.window).Some? && CountInput(f.window) != Some(CountInputOf(c))
    ensures Mostly(f, c) ==> !Denies(f, c)
  {
    CountSays(f);
    if CountInput(f.window).Some? && CountInput(f.window) != Some(CountUncertain) {
      var d :| CountInput(f.window) == Some(CountInputOf(d));
      assert Mostly(f, d);
    }
  }

  // ------------------------------------------------------ one frame, one step

  /** One more event, if there is one. */
  function After(p: Outcome, i: Option<Input>, f: Frame): Outcome {
    match i
    case None => p
    case Some(input) => var r := Run(p.s, p.m, input, f); Outcome(r.s, r.m, p.out + r.out, p.moves + r.moves)
  }

  function TouchInput(f: Frame): Option<Input> {
    if f.noTouching then Some(NotTouching) else if f.favoriteTouching then Some(Touching) else None
  }

  function Counted(s: State, m: Memory, count: Option<Input>, f: Frame): Outcome { After(Outcome(s, m, [], 0), count, f) }

  function Stepped(s: State, m: Memory, count: Option<Input>, f: Frame): Outcome {
    After(After(Counted(s, m, count, f), TouchInput(f), f), Some(ProcessFrame), f)
  }

  lemma {:induction false} RunAllConcat(s: State, m: Memory, a: seq<Input>, i: Input, f: Frame)
    ensures RunAll(s, m, a + [i], f) == After(RunAll(s, m, a, f), Some(i), f)
    decreases |a|
  {
    if a == [] {
      var r := Run(s, m, i, f);
      assert ([] + [i])[1..] == [];
      assert r.out + [] == r.out && [] + r.out == r.out;
      assert RunAll(r.s, r.m, [], f) == Outcome(r.s, r.m, [], 0);
    } else {
      var r := Run(s, m, a[0], f);
      assert (a + [i])[1..] == a[1..] + [i];
      RunAllConcat(r.s, r.m, a[1..], i, f);
      var t := RunAll(r.s, r.m, a[1..], f);
      Assoc(r.out, t.out, Run(t.s, t.m, i, f).out);
    }
  }

  lemma RunAllOne(s: State, m: Memory, i: Option<Input>, f: Frame)
    ensures RunAll(s, m, if i.Some? then [i.value] else [], f) == After(Outcome(s, m, [], 0), i, f)
  {
    if i.Some? {
      assert [] + [i.value] == [i.value];
      RunAllConcat(s, m, [], i.value, f);
    }
  }

  lemma RunAllMore(s: State, m: Memory, a: seq<Input>, i: Option<Input>, f: Frame)
    ensures RunAll(s, m, a + (if i.Some? then [i.value] else []), f) == After(RunAll(s, m, a, f), i, f)
  {
    if i.Some? { RunAllConcat(s, m, a, i.value, f); } else { assert a + [] == a; }
  }

  /** The three events of a frame, one after the other. */
  lemma FrameIsStep(s: State, m: Memory, f: Frame)
    requires ValidFrame(f)
    ensures RunAll(s, m, FrameInputs(f), f) == Stepped(s, m, CountInput(f.window), f)
  {
    var count, touch := CountInput(f.window), TouchInput(f);
    var a: seq<Input> := if count.Some? then [count.value] else [];
    var b := a + if touch.Some? then [touch.value] else [];
    assert FrameInputs(f) == b + [ProcessFrame];
    RunAllOne(s, m, count, f);
    RunAllMore(s, m, a, touch, f);
    RunAllConcat(s, m, b, ProcessFrame, f);
  }

  // ------------------------------------------------ the events, state by state

  /** An event that asks for nothing. */
  lemma Ignored(s: State, m: Memory, input: Input, f: Frame)
    requires input != Enter && input != Exit && Target(s, input, m, f).None?
    ensures Run(s, m, input, f) == Outcome(s, MemoryAfter(s, input, m, f), Calls(s, input, f), 0)
  {
    assert Calls(s, input, f) + [] == Calls(s, input, f);
  }

  /** An event that leads to a state that stays. */
  lemma Moved(s: State, m: Memory, input: Input, f: Frame)
    requires input != Enter && input != Exit && Target(s, input, m, f).Some?
    requires Calls(s, input, f) == [] && Rank(Target(s, input, m, f).value, f) == 0
    ensures var t := Target(s, input, m, f).value;
      var m1 := MemoryAfter(t, Enter, MemoryAfter(s, Exit, MemoryAfter(s, input, m, f), f), f);
      Run(s, m, input, f) == Outcome(t, m1, Calls(s, Exit, f) + Calls(t, Enter, f), 1)
  {
    var m0 := MemoryAfter(s, input, m, f);
    var t := Target(s, input, m, f).value;
    var x := OnExit(s, m0, f);
    var e := OnEnter(t, x.m, f);
    NothingSettles(t, e.m, f);
    assert x.out + e.out + [] == x.out + e.out;
    assert [] + (x.out + e.out) == x.out + e.out;
  }

  /** A quick swipe begins, is applied once and ends in the frame that recognises it. */
  lemma Swiped(m: Memory, t: State, input: Input, f: Frame)
    requires input != Enter && input != Exit && f.enoughHistory
    requires Target(Recognition, input, m, f) == Some(t) && (t == SwipeVertical || t == SwipeHorizontal)
    ensures Run(Recognition, m, input, f) ==
      Outcome(Cooldown, Memory(false, f.now), [Begin(GestureOf(t).value), ApplyDesktopSwipe, End], 2)
  {
    var m0 := MemoryAfter(Recognition, input, m, f);
    var x := OnExit(Recognition, m0, f);
    var e := OnEnter(t, x.m, f);
    CooldownEntered(t, e.m, f);
    var g := GestureOf(t).value;
    assert [] + [Begin(g), ApplyDesktopSwipe] + [End] == [Begin(g), ApplyDesktopSwipe, End];
    assert [] + [Begin(g), ApplyDesktopSwipe, End] == [Begin(g), ApplyDesktopSwipe, End];
  }

  lemma CooldownEntered(t: State, m: Memory, f: Frame)
    requires t == SwipeVertical || t == SwipeHorizontal
    ensures Settle(t, m, Some(Cooldown), f) == Outcome(Cooldown, m.(cooldownStart := f.now), [End], 1)
  {
    var m1 := m.(cooldownStart := f.now);
    NothingSettles(Cooldown, m1, f);
    assert [End] + [] + [] == [End];
  }

  // ------------------------------------------------------ what a frame leads to

  /** The result of a frame, without counting transitions. */
  ghost predicate LeadsTo(r: Outcome, s: State, out: seq<Event>) { r.s == s && r.out == out }

  lemma RestOfFrame(p: Outcome, f: Frame)
    requires p.s == Recognition || p.s == TwoHovering || (p.s == Cooldown && f.now - p.m.cooldownStart < 500 * MILLISECONDS) || p.s == PalmSwipe
    requires !(p.s == TwoHovering && FavoriteTouches(f))
    ensures LeadsTo(After(After(p, TouchInput(f), f), Some(ProcessFrame), f), p.s, p.out)
    ensures p.s != Recognition ==> After(After(p, TouchInput(f), f), Some(ProcessFrame), f).m == p.m
  {
    var m := p.m;
    if TouchInput(f).Some? {
      Ignored(p.s, p.m, TouchInput(f).value, f);
      m := MemoryAfter(p.s, TouchInput(f).value, p.m, f);
    }
    Ignored(p.s, m, ProcessFrame, f);
    assert p.out + [] == p.out;
  }

  lemma TouchedScrolls(p: Outcome, f: Frame)
    requires p.s == TwoHovering && FavoriteTouches(f)
    ensures var r := After(After(p, TouchInput(f), f), Some(ProcessFrame), f);
      LeadsTo(r, TwoScrolling, p.out + [Begin(Scroll), ApplyScroll]) && r.m == p.m.(justScrolled := true)
  {
    Moved(TwoHovering, p.m, Touching, f);
    var r := Run(TwoHovering, p.m, Touching, f);
    Ignored(TwoScrolling, r.m, ProcessFrame, f);
    assert [] + [Begin(Scroll)] == [Begin(Scroll)];
    assert p.out + [Begin(Scroll)] + [ApplyScroll] == p.out + [Begin(Scroll), ApplyScroll];
  }

  /** Recognition and a frame's count event. */
  lemma RecognitionStep(m: Memory, count: Option<Input>, f: Frame)
    requires count.Some? ==> count.value != Enter && count.value != Exit
    ensures var r := Stepped(Recognition, m, count, f);
      if !f.enoughHistory || count.None? then LeadsTo(r, Recognition, [])
      else match count.value
        case CountTwo =>
          if FavoriteTouches(f) then LeadsTo(r, TwoScrolling, [Begin(Scroll), ApplyScroll]) && r.m.justScrolled
          else LeadsTo(r, TwoHovering, []) && !r.m.justScrolled
        case CountPalm => LeadsTo(r, PalmSwipe, [Begin(DesktopSwipeHorizontal)])
        case CountThreePlus =>
          (match f.direction
           case Horizontal => LeadsTo(r, Cooldown, [Begin(DesktopSwipeHorizontal), ApplyDesktopSwipe, End]) && r.m == Memory(false, f.now)
           case Vertical => LeadsTo(r, Cooldown, [Begin(DesktopSwipeVertical), ApplyDesktopSwipe, End]) && r.m == Memory(false, f.now)
           case NoDirection => LeadsTo(r, Recognition, []))
        case _ => LeadsTo(r, Recognition, [])
  {
    var p := Counted(Recognition, m, count, f);
    if count.None? || Target(Recognition, count.value, m, f).None? {
      if count.Some? { Ignored(Recognition, m, count.value, f); }
      RestOfFrame(p, f);
    } else {
      RecognitionMoves(m, count.value, f);
      if p.s == TwoHovering && FavoriteTouches(f) { TouchedScrolls(p, f); } else { RestOfFrame(p, f); }
    }
    assert [] + [Begin(Scroll), ApplyScroll] == [Begin(Scroll), ApplyScroll];
  }

  /** All that a frame can do in recognition. */
  lemma RecognitionFrame(m: Memory, f: Frame)
    requires ValidFrame(f)
    ensures var r := RunAll(Recognition, m, FrameInputs(f), f);
      && (f.enoughHistory && Mostly(f, ThreePlus) && f.direction == Horizontal ==>
            LeadsTo(r, Cooldown, [Begin(DesktopSwipeHorizontal), ApplyDesktopSwipe, End]) && r.m == Memory(false, f.now))
      && (f.enoughHistory && Mostly(f, ThreePlus) && f.direction == Vertical ==>
            LeadsTo(r, Cooldown, [Begin(DesktopSwipeVertical), ApplyDesktopSwipe, End]) && r.m == Memory(false, f.now))
      && (f.enoughHistory && Mostly(f, Palm) ==> LeadsTo(r, PalmSwipe, [Begin(DesktopSwipeHorizontal)]))
      && (f.enoughHistory && Mostly(f, Two) ==>
            if FavoriteTouches(f) then LeadsTo(r, TwoScrolling, [Begin(Scroll), ApplyScroll]) && r.m.justScrolled
            else LeadsTo(r, TwoHovering, []) && !r.m.justScrolled)
      && (!f.enoughHistory || !(Mostly(f, Two) || Mostly(f, Palm) || (Mostly(f, ThreePlus) && f.direction != NoDirection)) ==>
            LeadsTo(r, Recognition, []))
  {
    FrameIsStep(Recognition, m, f);
    CountLeaves(f);
    RecognitionStep(m, CountInput(f.window), f);
  }

  lemma TwoLeadsToHovering(m: Memory, f: Frame)
    requires f.enoughHistory
    ensures var r := Counted(Recognition, m, Some(CountTwo), f); LeadsTo(r, TwoHovering, []) && !r.m.justScrolled
  {
    Moved(Recognition, m, CountTwo, f);
    CountedIsRun(Recognition, m, CountTwo, f);
  }

  lemma PalmLeadsToSwipe(m: Memory, f: Frame)
    requires f.enoughHistory
    ensures LeadsTo(Counted(Recognition, m, Some(CountPalm), f), PalmSwipe, [Begin(DesktopSwipeHorizontal)])
  {
    Moved(Recognition, m, CountPalm, f);
    CountedIsRun(Recognition, m, CountPalm, f);
    NothingBefore([Begin(DesktopSwipeHorizontal)]);
  }

  lemma ThreeLeadToSwipe(m: Memory, f: Frame)
    requires f.enoughHistory && f.direction != NoDirection
    ensures var r := Counted(Recognition, m, Some(CountThreePlus), f);
      && LeadsTo(r, Cooldown, [Begin(if f.direction == Horizontal then DesktopSwipeHorizontal else DesktopSwipeVertical), ApplyDesktopSwipe, End])
      && r.m == Memory(false, f.now)
  {
    Swiped(m, if f.direction == Horizontal then SwipeHorizontal else SwipeVertical, CountThreePlus, f);
    CountedIsRun(Recognition, m, CountThreePlus, f);
  }

  /** The count event that leaves recognition. */
  lemma RecognitionMoves(m: Memory, input: Input, f: Frame)
    requires f.enoughHistory && input != Enter && input != Exit && Target(Recognition, input, m, f).Some?
    ensures var r := Counted(Recognition, m, Some(input), f);
      match input
      case CountTwo => LeadsTo(r, TwoHovering, []) && !r.m.justScrolled
      case CountPalm => LeadsTo(r, PalmSwipe, [Begin(DesktopSwipeHorizontal)])
      case CountThreePlus =>
        && LeadsTo(r, Cooldown, [Begin(if f.direction == Horizontal then DesktopSwipeHorizontal else DesktopSwipeVertical), ApplyDesktopSwipe, End])
        && r.m == Memory(false, f.now)
      case _ => false
  {
    match input
    case CountTwo => TwoLeadsToHovering(m, f);
    case CountPalm => PalmLeadsToSwipe(m, f);
    case CountThreePlus => ThreeLeadToSwipe(m, f);
  }

  lemma NothingBefore(out: seq<Event>)
    ensures [] + out == out
  {}

  lemma CountedIsRun(s: State, m: Memory, input: Input, f: Frame)
    ensures var r, c := Run(s, m, input, f), Counted(s, m, Some(input), f); c.s == r.s && c.m == r.m && c.out == r.out
  {
    NothingBefore(Run(s, m, input, f).out);
  }

  /** Two fingers that hover: denied, they cool down if they have just scrolled; touching, they scroll. */
  lemma HoveringFrame(m: Memory, f: Frame)
    requires ValidFrame(f)
    ensures var r := RunAll(TwoHovering, m, FrameInputs(f), f);
      if Denies(f, Two) then
        LeadsTo(r, if m.justScrolled then Cooldown else Recognition, []) && (m.justScrolled ==> r.m.cooldownStart == f.now)
      else if FavoriteTouches(f) then LeadsTo(r, TwoScrolling, [Begin(Scroll), ApplyScroll]) && r.m.justScrolled
      else LeadsTo(r, TwoHovering, []) && r.m == m
  {
    FrameIsStep(TwoHovering, m, f);
    CountTells(f, Two);
    HoveringStep(m, CountInput(f.window), f);
  }

  /** The events that `CountInput` may be. */
  predicate IsCount(count: Option<Input>) {
    count.Some? ==> count.value in {CountTwo, CountThreePlus, CountOther, CountPalm, CountUncertain}
  }

  lemma HoveringStep(m: Memory, count: Option<Input>, f: Frame)
    requires IsCount(count)
    ensures var r := Stepped(TwoHovering, m, count, f);
      if count.Some? && count != Some(CountTwo) then
        LeadsTo(r, if m.justScrolled then Cooldown else Recognition, []) && (m.justScrolled ==> r.m.cooldownStart == f.now)
      else if FavoriteTouches(f) then LeadsTo(r, TwoScrolling, [Begin(Scroll), ApplyScroll]) && r.m.justScrolled
      else LeadsTo(r, TwoHovering, []) && r.m == m
  {
    var p := Counted(TwoHovering, m, count, f);
    if count.Some? {
      if count.value == CountTwo { Ignored(TwoHovering, m, CountTwo, f); } else { Moved(TwoHovering, m, count.value, f); }
    }
    if p.s == TwoHovering && FavoriteTouches(f) { TouchedScrolls(p, f); } else { RestOfFrame(p, f); }
    assert [] + [Begin(Scroll), ApplyScroll] == [Begin(Scroll), ApplyScroll];
  }

  /** Two fingers that scroll: denied or lifted they stop, otherwise every frame scrolls on. */
  lemma ScrollingFrame(m: Memory, f: Frame)
    requires ValidFrame(f)
    ensures var r := RunAll(TwoScrolling, m, FrameInputs(f), f);
      if Denies(f, Two) then LeadsTo(r, Recognition, [End])
      else if f.noTouching then LeadsTo(r, TwoHovering, [End]) && r.m == m
      else LeadsTo(r, TwoScrolling, [ApplyScroll]) && r.m == m
  {
    FrameIsStep(TwoScrolling, m, f);
    CountTells(f, Two);
    ScrollingStep(m, CountInput(f.window), f);
  }

  lemma ScrollingStep(m: Memory, count: Option<Input>, f: Frame)
    requires IsCount(count)
    ensures var r := Stepped(TwoScrolling, m, count, f);
      if count.Some? && count != Some(CountTwo) then LeadsTo(r, Recognition, [End])
      else if f.noTouching then LeadsTo(r, TwoHovering, [End]) && r.m == m
      else LeadsTo(r, TwoScrolling, [ApplyScroll]) && r.m == m
  {
    var p := Counted(TwoScrolling, m, count, f);
    if count.Some? && count != Some(CountTwo) {
      Moved(TwoScrolling, m, count.value, f);
      assert [End] + [] == [End] && [] + [End] == [End];
      RestOfFrame(p, f);
    } else {
      if count.Some? { Ignored(TwoScrolling, m, CountTwo, f); }
      ScrollingRest(p, f);
    }
  }

  lemma ScrollingRest(p: Outcome, f: Frame)
    requires p.s == TwoScrolling && p.out == []
    ensures var r := After(After(p, TouchInput(f), f), Some(ProcessFrame), f);
      r.m == p.m && if f.noTouching then LeadsTo(r, TwoHovering, [End]) else LeadsTo(r, TwoScrolling, [ApplyScroll])
  {
    if f.noTouching {
      Moved(TwoScrolling, p.m, NotTouching, f);
      var q := After(p, Some(NotTouching), f);
      assert [End] + [] == [End] && [] + [End] == [End];
      Ignored(TwoHovering, q.m, ProcessFrame, f);
    } else {
      if f.favoriteTouching { Ignored(TwoScrolling, p.m, Touching, f); }
      Ignored(TwoScrolling, p.m, ProcessFrame, f);
      assert [] + [ApplyScroll] == [ApplyScroll];
    }
  }

  /** A palm swipes until it is denied; a long enough history is then applied once, before the end. */
  lemma PalmFrame(m: Memory, f: Frame)
    requires ValidFrame(f)
    ensures var r := RunAll(PalmSwipe, m, FrameInputs(f), f);
      if Denies(f, Palm) then
        LeadsTo(r, Cooldown, if f.longHistory then [ApplyDesktopSwipe, End] else [End]) && r.m.cooldownStart == f.now
      else LeadsTo(r, PalmSwipe, []) && r.m == m
  {
    FrameIsStep(PalmSwipe, m, f);
    CountTells(f, Palm);
    PalmStep(m, CountInput(f.window), f);
  }

  lemma PalmStep(m: Memory, count: Option<Input>, f: Frame)
    requires IsCount(count)
    ensures var r := Stepped(PalmSwipe, m, count, f);
      if count.Some? && count != Some(CountPalm) then
        LeadsTo(r, Cooldown, if f.longHistory then [ApplyDesktopSwipe, End] else [End]) && r.m.cooldownStart == f.now
      else LeadsTo(r, PalmSwipe, []) && r.m == m
  {
    var p := Counted(PalmSwipe, m, count, f);
    if count.Some? && count != Some(CountPalm) {
      Moved(PalmSwipe, m, count.value, f);
      var out := Calls(PalmSwipe, Exit, f);
      assert out + [] == out && [] + out == out;
    } else if count.Some? {
      Ignored(PalmSwipe, m, CountPalm, f);
    }
    RestOfFrame(p, f);
  }

  /** The cooldown makes no call and is over once half a second has passed. */
  lemma CooldownFrame(m: Memory, f: Frame)
    requires ValidFrame(f)
    ensures var r := RunAll(Cooldown, m, FrameInputs(f), f);
      LeadsTo(r, if f.now - m.cooldownStart >= 500 * MILLISECONDS then Recognition else Cooldown, []) && r.m.cooldownStart == m.cooldownStart
  {
    FrameIsStep(Cooldown, m, f);
    CooldownStep(m, CountInput(f.window), f);
  }

  lemma CooldownStep(m: Memory, count: Option<Input>, f: Frame)
    requires count.Some? ==> count.value !in {Enter, Exit, LostFocus, ProcessFrame}
    ensures var r := Stepped(Cooldown, m, count, f);
      LeadsTo(r, if f.now - m.cooldownStart >= 500 * MILLISECONDS then Recognition else Cooldown, []) && r.m.cooldownStart == m.cooldownStart
  {
    if count.Some? { Ignored(Cooldown, m, count.value, f); }
    if TouchInput(f).Some? { Ignored(Cooldown, m, TouchInput(f).value, f); }
    if f.now - m.cooldownStart >= 500 * MILLISECONDS { Moved(Cooldown, m, ProcessFrame, f); } else { Ignored(Cooldown, m, ProcessFrame, f); }
  }

  // ---------------------------------------------------------- over a whole run

  /** The quick swipes are never rested in. */
  predicate IsResting(s: State) { s != SwipeVertical && s != SwipeHorizontal }

  lemma FrameRests(s: State, m: Memory, f: Frame)
    requires ValidFrame(f) && IsResting(s)
    ensures IsResting(RunAll(s, m, FrameInputs(f), f).s)
  {
    match s
    case Recognition => RecognitionFrame(m, f);
    case Cooldown => CooldownFrame(m, f);
    case TwoHovering => HoveringFrame(m, f);
    case TwoScrolling => ScrollingFrame(m, f);
    case PalmSwipe => PalmFrame(m, f);
  }

  /** Losing focus ends what is open and leads back to recognition; a palm's swipe is still applied once if it is long enough. */
  lemma LossOfFocus(s: State, m: Memory, f: Frame)
    requires IsResting(s)
    ensures LeadsTo(RunAll(s, m, [LostFocus], f), Recognition,
      match s
      case TwoScrolling => [End]
      case PalmSwipe => if f.longHistory then [ApplyDesktopSwipe, End] else [End]
      case _ => [])
  {
    LossIsOneRun(s, m, f);
    if s == Recognition { Ignored(s, m, LostFocus, f); } else { Moved(s, m, LostFocus, f); }
    var out := Calls(s, Exit, f);
    assert out + [] == out;
  }

  lemma StepRests(s: State, m: Memory, p: Step)
    requires ValidFrame(p.frame) && IsResting(s)
    ensures IsResting(RunAll(s, m, StepInputs(p), p.frame).s)
  {
    if p.focus { FrameRests(s, m, p.frame); } else { LossOfFocus(s, m, p.frame); }
  }

  lemma {:induction false} EveryRunRests(m: Memory, steps: seq<Step>)
    requires ValidSteps(steps)
    ensures IsResting(Play(m, steps).s)
    decreases |steps|
  {
    if steps != [] {
      var p := Play(m, steps[..|steps| - 1]);
      EveryRunRests(m, steps[..|steps| - 1]);
      StepRests(p.s, p.m, steps[|steps| - 1]);
    }
  }

  /** Some frame showed mostly `c`, and since then focus was kept and no frame has spoken against it. */
  ghost predicate Shown(steps: seq<Step>, c: Category)
    requires ValidSteps(steps)
  {
    steps != [] &&
    var before, last := steps[..|steps| - 1], steps[|steps| - 1];
    last.focus && (Mostly(last.frame, c) || (Shown(before, c) && !Denies(last.frame, c)))
  }

  /** What the resting states of two fingers and of the palm were told. */
  predicate Shows(s: State, c: Category) {
    match s
    case TwoHovering | TwoScrolling => c == Two
    case PalmSwipe => c == Palm
    case _ => false
  }

  lemma FrameShows(s: State, m: Memory, f: Frame, c: Category)
    requires ValidFrame(f) && IsResting(s) && Shows(RunAll(s, m, FrameInputs(f), f).s, c)
    ensures Mostly(f, c) || (Shows(s, c) && !Denies(f, c))
  {
    match s
    case Recognition => RecognitionFrame(m, f);
    case Cooldown => CooldownFrame(m, f);
    case TwoHovering => HoveringFrame(m, f);
    case TwoScrolling => ScrollingFrame(m, f);
    case PalmSwipe => PalmFrame(m, f);
  }

  /** In every run two fingers hover or scroll, and a palm swipes, only as long as the windows have shown it. */
  lemma {:induction false} RestIsShown(m: Memory, steps: seq<Step>, c: Category)
    requires ValidSteps(steps) && Shows(Play(m, steps).s, c)
    ensures Shown(steps, c)
    decreases |steps|
  {
    if steps != [] {
      var before, last := steps[..|steps| - 1], steps[|steps| - 1];
      var p := Play(m, before);
      EveryRunRests(m, before);
      if last.focus {
        FrameShows(p.s, p.m, last.frame, c);
        if !Mostly(last.frame, c) { RestIsShown(m, before, c); }
      } else {
        LossOfFocus(p.s, p.m, last.frame);
      }
    }
  }

  /** The last step of a run calls for a call. */
  ghost predicate Warrants(steps: seq<Step>, e: Event)
    requires ValidSteps(steps) && steps != []
  {
    var last := steps[|steps| - 1];
    match e
    case Begin(DesktopSwipeVertical) => last.focus && last.frame.enoughHistory && Mostly(last.frame, ThreePlus) && last.frame.direction == Vertical
    case Begin(DesktopSwipeHorizontal) =>
      last.focus && last.frame.enoughHistory && (Mostly(last.frame, Palm) || (Mostly(last.frame, ThreePlus) && last.frame.direction == Horizontal))
    case Begin(Scroll) => last.focus && FavoriteTouches(last.frame) && Shown(steps, Two)
    case Begin(_) => false
    case ClickDown(_) => false
    case ClickUp(_) => false
    case _ => true
  }

  /** The same for one frame, from a resting state. */
  ghost predicate FrameWarrants(s: State, f: Frame, r: Outcome, e: Event)
    requires ValidFrame(f)
  {
    match e
    case Begin(DesktopSwipeVertical) => f.enoughHistory && Mostly(f, ThreePlus) && f.direction == Vertical
    case Begin(DesktopSwipeHorizontal) => f.enoughHistory && (Mostly(f, Palm) || (Mostly(f, ThreePlus) && f.direction == Horizontal))
    case Begin(Scroll) => FavoriteTouches(f) && r.s == TwoScrolling
    case Begin(_) => false
    case ClickDown(_) => false
    case ClickUp(_) => false
    case _ => true
  }

  /** The count event that recognition answers with a call. */
  lemma RecognitionAnswers(m: Memory, count: Option<Input>, f: Frame, e: Event)
    requires count.Some? ==> count.value != Enter && count.value != Exit
    requires e in Stepped(Recognition, m, count, f).out
    ensures f.enoughHistory && count.Some?
    ensures match count.value
      case CountTwo => (e == Begin(Scroll) || e == ApplyScroll) && FavoriteTouches(f) && Stepped(Recognition, m, count, f).s == TwoScrolling
      case CountPalm => e == Begin(DesktopSwipeHorizontal)
      case CountThreePlus =>
        || e == ApplyDesktopSwipe || e == End
        || (f.direction == Horizontal && e == Begin(DesktopSwipeHorizontal)) || (f.direction == Vertical && e == Begin(DesktopSwipeVertical))
      case _ => false
  {
    RecognitionStep(m, count, f);
  }

  lemma RecognitionIsWarranted(m: Memory, f: Frame, e: Event)
    requires ValidFrame(f) && e in RunAll(Recognition, m, FrameInputs(f), f).out
    ensures FrameWarrants(Recognition, f, RunAll(Recognition, m, FrameInputs(f), f), e)
  {
    FrameIsStep(Recognition, m, f);
    CountLeaves(f);
    RecognitionAnswers(m, CountInput(f.window), f, e);
  }

  lemma HoveringIsWarranted(m: Memory, f: Frame, e: Event)
    requires ValidFrame(f) && e in RunAll(TwoHovering, m, FrameInputs(f), f).out
    ensures FrameWarrants(TwoHovering, f, RunAll(TwoHovering, m, FrameInputs(f), f), e)
  {
    HoveringFrame(m, f);
  }

  lemma FrameIsWarranted(s: State, m: Memory, f: Frame, e: Event)
    requires ValidFrame(f) && IsResting(s) && e in RunAll(s, m, FrameInputs(f), f).out
    ensures FrameWarrants(s, f, RunAll(s, m, FrameInputs(f), f), e)
  {
    match s
    case Recognition => RecognitionIsWarranted(m, f, e);
    case Cooldown => CooldownFrame(m, f);
    case TwoHovering => HoveringIsWarranted(m, f, e);
    case TwoScrolling => ScrollingFrame(m, f);
    case PalmSwipe => PalmFrame(m, f);
  }

  /** In every run every gesture begun in a step is called for by what that step and the steps before it have shown. */
  lemma OpeningsAreWarranted(m: Memory, steps: seq<Step>, e: Event)
    requires ValidSteps(steps) && steps != [] && e in LastCalls(m, steps)
    ensures Warrants(steps, e)
  {
    var before, last := steps[..|steps| - 1], steps[|steps| - 1];
    var p := Play(m, before);
    EveryRunRests(m, before);
    if last.focus {
      FrameIsWarranted(p.s, p.m, last.frame, e);
      if e == Begin(Scroll) { RestIsShown(m, steps, Two); }
    } else {
      LossOfFocus(p.s, p.m, last.frame);
    }
  }

  /** Two fingers have scrolled since they were first seen. */
  predicate Scrolled(m: Memory, steps: seq<Step>)
    requires ValidSteps(steps)
  {
    steps != [] && Shows(Play(m, steps).s, Two) && (Begin(Scroll) in LastCalls(m, steps) || Scrolled(m, steps[..|steps| - 1]))
  }

  /** What a frame does to the memory of a scroll. */
  lemma FrameRemembersScroll(s: State, m: Memory, f: Frame)
    requires ValidFrame(f) && IsResting(s) && (s == TwoScrolling ==> m.justScrolled)
    ensures var r := RunAll(s, m, FrameInputs(f), f);
      Shows(r.s, Two) ==>
        && (r.m.justScrolled <==> Begin(Scroll) in r.out || (Shows(s, Two) && m.justScrolled))
        && (r.s == TwoScrolling ==> r.m.justScrolled)
  {
    match s
    case Recognition => RecognitionFrame(m, f);
    case Cooldown => CooldownFrame(m, f);
    case TwoHovering => HoveringFrame(m, f);
    case TwoScrolling => ScrollingFrame(m, f);
    case PalmSwipe => PalmFrame(m, f);
  }

  lemma {:induction false} ScrollIsRemembered(m: Memory, steps: seq<Step>)
    requires ValidSteps(steps)
    ensures var p := Play(m, steps);
      Shows(p.s, Two) ==> (p.m.justScrolled <==> Scrolled(m, steps)) && (p.s == TwoScrolling ==> p.m.justScrolled)
    decreases |steps|
  {
    if steps != [] {
      var before, last := steps[..|steps| - 1], steps[|steps| - 1];
      var p := Play(m, before);
      EveryRunRests(m, before);
      ScrollIsRemembered(m, before);
      if last.focus { FrameRemembersScroll(p.s, p.m, last.frame); } else { LossOfFocus(p.s, p.m, last.frame); }
    }
  }

  /** In every run two hovering fingers that are denied cool down exactly when they have scrolled. */
  lemma DeniedCoolsDownIff(m: Memory, steps: seq<Step>, f: Frame)
    requires ValidSteps(steps) && ValidFrame(f) && Play(m, steps).s == TwoHovering && Denies(f, Two)
    ensures var r := RunAll(TwoHovering, Play(m, steps).m, FrameInputs(f), f);
      LeadsTo(r, if Scrolled(m, steps) then Cooldown else Recognition, [])
  {
    ScrollIsRemembered(m, steps);
    HoveringFrame(Play(m, steps).m, f);
  }
}
