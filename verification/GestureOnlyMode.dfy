/**
  `GestureOnlyMode` with its `StateMachine` (source/Utility/StateMachine.h:127-257), its count history and its bucket array as
  one object.
 */
module GestureOnlyMode {
  import opened ValueTree
  import opened GestureTrace
  import opened Observations
  import opened GestureOnlyChart
  import H = TimedHistory

  function Index(c: Category): nat { match c case Two => 0 case ThreePlus => 1 case Other => 2 case Palm => 3 }

  function CategoriesOf(s: seq<H.Timed<Category>>): (w: seq<Category>)
    ensures |w| == |s| && forall i | 0 <= i < |s| :: w[i] == s[i].1
  {
    if s == [] then [] else CategoriesOf(s[..|s| - 1]) + [s[|s| - 1].1]
  }

  /** The categories of the frames less than 100 ms old, when the history reaches back that far. */
  function WindowOf(s: seq<H.Timed<Category>>): Option<seq<Category>> {
    var end := H.FindFrom(s, 100 * MILLISECONDS, 0);
    if end < |s| then Some(CategoriesOf(s[..end])) else None
  }

  /** The category of a frame (source/GestureInteraction/GestureOnlyMode.cpp:47-54). */
  function CategoryOf(palm: bool, relevantPointables: nat): Category {
    if palm then Palm else if relevantPointables == 0 then Other else if relevantPointables <= 2 then Two else ThreePlus
  }

  /** There is a window once some frame is 100 ms old, and it shows the newer ones, newest first. */
  lemma WindowShowsYoungFrames(s: seq<H.Timed<Category>>)
    ensures WindowOf(s).Some? <==> exists i :: 0 <= i < |s| && H.Age(s, i) >= 100 * MILLISECONDS
    ensures WindowOf(s).Some? ==>
      var w := WindowOf(s).value;
      && |w| < |s| && H.Age(s, |w|) >= 100 * MILLISECONDS
      && forall i | 0 <= i < |w| :: H.Age(s, i) < 100 * MILLISECONDS && w[i] == s[i].1
  {
    var end := H.FindFrom(s, 100 * MILLISECONDS, 0);
    if end < |s| { assert H.Age(s, end) >= 100 * MILLISECONDS; }
  }

  /** The window is what the unpurged history would give, and never empty: the newest frame has age 0. */
  lemma WindowIsOfWholeHistory(h: H.TimedHistory<Category>)
    requires h.Valid() && h.floor >= 100 * MILLISECONDS
    ensures WindowOf(h.frames) == WindowOf(h.all)
    ensures WindowOf(h.frames).Some? ==> WindowOf(h.frames).value != []
  {
    var age := 100 * MILLISECONDS;
    var k, m := H.FindFrom(h.frames, age, 0), H.FindFrom(h.all, age, 0);
    assert forall i | 0 <= i < |h.frames| :: H.Age(h.frames, i) == H.Age(h.all, i);
    if k < |h.frames| {
      assert h.frames[..k] == h.all[..k];
      assert H.Age(h.frames, 0) == 0;
    }
  }

  /** The frame as the mode sees it: with the window of its whole history. */
  function SeenFrame(f: Frame, all: seq<H.Timed<Category>>): Frame { f.(window := WindowOf(all)) }

  class GestureOnlyMode {
    const timedCountHistory: H.TimedHistory<Category>
    const pointableCountBucket: array<real>
    var current: Option<State>
    var next: Option<State>
    var justScrolled: bool
    var cooldownStartTime: int
    var calls: seq<Event>

    constructor ()
      ensures fresh(timedCountHistory) && fresh(pointableCountBucket)
      ensures Valid() && current == None && calls == [] && timedCountHistory.all == []
    {
      timedCountHistory := new H.TimedHistory<Category>(500 * MILLISECONDS);
      pointableCountBucket := new real[4];
      current := None;
      next := None;
      justScrolled := false;
      cooldownStartTime := 0;
      calls := [];
    }

    ghost predicate Valid()
      reads this, timedCountHistory
    {
      timedCountHistory.Valid() && timedCountHistory.floor == timedCountHistory.historyDuration == 500 * MILLISECONDS
      && pointableCountBucket.Length == 4
    }

    function Fields(): Memory
      reads this
    {
      Memory(justScrolled, cooldownStartTime)
    }

    twostate predicate Reacted(s: State, input: Input, f: Frame)
      reads this
    {
      var r := React(s, input, old(Fields()), f);
      Fields() == r.m && next == r.next && calls == old(calls) + r.out && current == old(current)
    }

    method Emit(e: Event)
      modifies this`calls
      ensures calls == old(calls) + [e]
    {
      calls := calls + [e];
    }

    /** This handler looks at no input before it has reset its flag and found enough history. */
    method StateGestureRecognition(input: Input, f: Frame)
      requires next == None
      modifies this
      ensures Reacted(Recognition, input, f)
    {
      justScrolled := false;
      if !f.enoughHistory {
        return;
      }
      match input
      case CountPalm => next := Some(PalmSwipe);
      case CountTwo => next := Some(TwoHovering);
      case CountThreePlus =>
        if f.direction == Horizontal {
          next := Some(SwipeHorizontal);
        } else if f.direction == Vertical {
          next := Some(SwipeVertical);
        }
      case _ =>
    }

    method StateCooldown(input: Input, f: Frame)
      requires next == None
      modifies this
      ensures Reacted(Cooldown, input, f)
    {
      if input == LostFocus {
        next := Some(Recognition);
        return;
      }
      if input == Enter {
        cooldownStartTime := f.now;
      }
      if input == Enter || input == ProcessFrame {
        if f.now - cooldownStartTime >= 500 * MILLISECONDS {
          next := Some(Recognition);
        }
      }
    }

    method StateTwoHovering(input: Input, f: Frame)
      requires next == None
      modifies this
      ensures Reacted(TwoHovering, input, f)
    {
      match input
      case LostFocus => next := Some(Recognition);
      case Touching => next := Some(TwoScrolling);
      case CountOther | CountPalm | CountThreePlus | CountUncertain =>
        if justScrolled {
          next := Some(Cooldown);
        } else {
          next := Some(Recognition);
        }
      case _ =>
    }

    method StateTwoScrolling(input: Input, f: Frame)
      requires next == None
      modifies this
      ensures Reacted(TwoScrolling, input, f)
    {
      match input
      case LostFocus => next := Some(Recognition);
      case Enter =>
        justScrolled := true;
        Emit(Begin(Scroll));
      case Exit => Emit(End);
      case NotTouching => next := Some(TwoHovering);
      case CountUncertain | CountThreePlus | CountOther | CountPalm => next := Some(Recognition);
      case ProcessFrame => Emit(ApplyScroll);
      case _ =>
    }

    /** The vertical and the horizontal swipe share one shape. */
    method StateSwipe(s: State, g: Gesture, input: Input, f: Frame)
      requires next == None
      requires (s, g) in {(SwipeVertical, DesktopSwipeVertical), (SwipeHorizontal, DesktopSwipeHorizontal)}
      modifies this
      ensures Reacted(s, input, f)
    {
      if input == LostFocus {
        next := Some(Recognition);
        return;
      }
      if input == Enter {
        Emit(Begin(g));
      }
      if input == Enter || input == ProcessFrame {
        if f.enoughHistory {
          Emit(ApplyDesktopSwipe);
          next := Some(Cooldown);
        }
      }
      if input == Exit {
        Emit(End);
      }
      assert calls == old(calls) + Calls(s, input, f);
    }

    method StatePalmSwipe(input: Input, f: Frame)
      requires next == None
      modifies this
      ensures Reacted(PalmSwipe, input, f)
    {
      match input
      case LostFocus => next := Some(Recognition);
      case Enter => Emit(Begin(DesktopSwipeHorizontal));
      case Exit =>
        if f.longHistory {
          Emit(ApplyDesktopSwipe);
        }
        Emit(End);
        assert calls == old(calls) + Calls(PalmSwipe, Exit, f);
      case CountUncertain | CountTwo | CountThreePlus | CountOther => next := Some(Cooldown);
      case _ =>
    }

    /** The call through the member pointer `m_current_state`; every handler handles every input. */
    method CallCurrentState(input: Input, f: Frame)
      requires current.Some? && next == None
      modifies this
      ensures Reacted(old(current).value, input, f)
    {
      match current.value
      case Recognition => StateGestureRecognition(input, f);
      case Cooldown => StateCooldown(input, f);
      case TwoHovering => StateTwoHovering(input, f);
      case TwoScrolling => StateTwoScrolling(input, f);
      case SwipeVertical => StateSwipe(SwipeVertical, DesktopSwipeVertical, input, f);
      case SwipeHorizontal => StateSwipe(SwipeHorizontal, DesktopSwipeHorizontal, input, f);
      case PalmSwipe => StatePalmSwipe(input, f);
    }

    /** The exit/enter loop of `RunCurrentStatePrivate` (source/Utility/StateMachine.h:228-253). */
    method PerformTransitions(f: Frame)
      requires current.Some?
      modifies this
      ensures var r := Settle(old(current).value, old(Fields()), old(next), f);
        current == Some(r.s) && Fields() == r.m && calls == old(calls) + r.out
      ensures next == None
    {
      ghost var target := Settle(current.value, Fields(), next, f);
      while next.Some?
        invariant current.Some?
        invariant var r := Settle(current.value, Fields(), next, f);
          r.s == target.s && r.m == target.m && calls + r.out == old(calls) + target.out
        decreases if next.None? then 0 else 1 + Rank(next.value, f)
      {
        ghost var s, m, t, before := current.value, Fields(), next.value, calls;
        ghost var x := OnExit(s, m, f);
        ghost var e := OnEnter(t, x.m, f);
        var realNextState := next;
        next := None;
        CallCurrentState(Exit, f);
        assert next == None; // "You must not transition while exiting a state"
        current := realNextState;
        CallCurrentState(Enter, f);
        Assoc(before, x.out, e.out);
        Assoc(before, x.out + e.out, Settle(t, e.m, e.next, f).out);
      }
    }

    method RunCurrentState(input: Input, f: Frame)
      requires current.Some? && input != Enter && input != Exit
      modifies this
      ensures var r := Run(old(current).value, old(Fields()), input, f);
        current == Some(r.s) && Fields() == r.m && calls == old(calls) + r.out
    {
      next := None;
      ghost var s, r := current.value, React(current.value, input, Fields(), f);
      CallCurrentState(input, f);
      Assoc(old(calls), r.out, Settle(s, r.m, r.next, f).out);
      PerformTransitions(f);
    }

    /** `Initialize`: entering the first state makes no call and asks for nothing. */
    method Initialize(f: Frame)
      requires current == None
      modifies this
      ensures current == Some(Recognition) && !justScrolled && calls == old(calls) && cooldownStartTime == old(cooldownStartTime)
    {
      current := Some(Recognition);
      next := None;
      CallCurrentState(Enter, f);
      PerformTransitions(f);
    }

    method Shutdown(f: Frame)
      modifies this
      ensures current == None
      ensures calls == old(calls) + if old(current).None? then [] else OnExit(old(current).value, old(Fields()), f).out
    {
      if current.Some? {
        next := None;
        CallCurrentState(Exit, f);
        assert next == None; // "You must not transition while exiting a state"
        current := None;
      }
    }

    /** Count the categories of the frames before `frameWindowEnd` (source/GestureInteraction/GestureOnlyMode.cpp:68-77). */
    method CountBuckets(frames: seq<H.Timed<Category>>, frameWindowEnd: nat)
      requires pointableCountBucket.Length == 4 && frameWindowEnd <= |frames|
      requires forall k | 0 <= k < 4 :: pointableCountBucket[k] == 0.0
      modifies pointableCountBucket
      ensures forall c :: pointableCountBucket[Index(c)] == Occurrences(CategoriesOf(frames[..frameWindowEnd]), c) as real
    {
      var bucket := pointableCountBucket;
      ghost var window := CategoriesOf(frames[..frameWindowEnd]);
      var frameCount := 0;
      while frameCount < frameWindowEnd
        invariant 0 <= frameCount <= frameWindowEnd
        invariant forall c :: bucket[Index(c)] == Occurrences(window[..frameCount], c) as real
      {
        assert window[..frameCount + 1][..frameCount] == window[..frameCount];
        bucket[Index(frames[frameCount].1)] := bucket[Index(frames[frameCount].1)] + 1.0;
        frameCount := frameCount + 1;
      }
      assert window[..frameCount] == window;
    }

    /** Turn the counts into shares (source/GestureInteraction/GestureOnlyMode.cpp:79-81). */
    method DivideBuckets(ghost window: seq<Category>, frameCount: nat)
      requires pointableCountBucket.Length == 4 && frameCount == |window| > 0
      requires forall c :: pointableCountBucket[Index(c)] == Occurrences(window, c) as real
      modifies pointableCountBucket
      ensures forall c :: pointableCountBucket[Index(c)] == Share(Some(window), c)
    {
      var bucket := pointableCountBucket;
      var i := 0;
      while i < 4
        invariant 0 <= i <= 4
        invariant forall c :: bucket[Index(c)] == (if Index(c) < i then Share(Some(window), c) else Occurrences(window, c) as real)
      {
        bucket[i] := bucket[i] / frameCount as real;
        i := i + 1;
      }
    }

    /** The bucket loops (source/GestureInteraction/GestureOnlyMode.cpp:67-85). */
    method MakeBuckets()
      requires Valid()
      modifies pointableCountBucket
      ensures WindowOf(timedCountHistory.frames).Some? ==> WindowOf(timedCountHistory.frames).value != []
      ensures forall c :: pointableCountBucket[Index(c)] == Share(WindowOf(timedCountHistory.frames), c)
    {
      for i := 0 to 4
        invariant forall k | 0 <= k < i :: pointableCountBucket[k] == 0.0
      {
        pointableCountBucket[i] := 0.0;
      }
      WindowIsOfWholeHistory(timedCountHistory);
      var frames := timedCountHistory.frames;
      var frameWindowEnd := timedCountHistory.GetFrameHavingAgeAtLeast(100 * MILLISECONDS);
      if frameWindowEnd != |frames| {
        assert frameWindowEnd > 0; // "assert(frameCount > 0)"
        CountBuckets(frames, frameWindowEnd);
        DivideBuckets(CategoriesOf(frames[..frameWindowEnd]), frameWindowEnd);
      } else {
        pointableCountBucket[2] := 1.0;
      }
    }

    method Categorize(palm: bool, relevantPointables: nat) returns (category: Category)
      ensures category == CategoryOf(palm, relevantPointables)
      ensures category == Palm <==> palm
      ensures category == Two <==> !palm && 1 <= relevantPointables <= 2
      ensures category == ThreePlus <==> !palm && relevantPointables >= 3
    {
      category := Other;
      if palm {
        category := Palm;
      } else if relevantPointables > 0 && relevantPointables <= 2 {
        category := Two;
      } else if relevantPointables > 2 {
        category := ThreePlus;
      }
    }

    /** The first half of `processFrameInternal`: record the frame, enter the first state, decide the frame's inputs. */
    method TakeFrame(f0: Frame, palm: bool, relevantPointables: nat) returns (inputs: seq<Input>)
      requires Valid()
      requires timedCountHistory.frames != [] ==> f0.now >= timedCountHistory.frames[0].0
      modifies this, timedCountHistory, pointableCountBucket
      ensures Valid()
      ensures timedCountHistory.all == [(f0.now, CategoryOf(palm, relevantPointables))] + old(timedCountHistory.all)
      ensures ValidFrame(SeenFrame(f0, timedCountHistory.all)) && inputs == FrameInputs(SeenFrame(f0, timedCountHistory.all))
      ensures current == Some(if old(current).None? then Recognition else old(current).value)
      ensures Fields() == if old(current).None? then old(Fields()).(justScrolled := false) else old(Fields())
      ensures calls == old(calls)
    {
      var category := Categorize(palm, relevantPointables);
      timedCountHistory.AddFrame(f0.now, category);
      if current.None? {
        Initialize(f0);
      }
      MakeBuckets();
      WindowIsOfWholeHistory(timedCountHistory);
      inputs := SelectInputs(f0, SeenFrame(f0, timedCountHistory.all));
    }

    /** `processFrameInternal`; `f0` carries what is read from the frame, its window comes from the history. */
    method ProcessFrameInternal(f0: Frame, palm: bool, relevantPointables: nat) returns (inputs: seq<Input>)
      requires Valid()
      requires timedCountHistory.frames != [] ==> f0.now >= timedCountHistory.frames[0].0
      modifies this, timedCountHistory, pointableCountBucket
      ensures Valid()
      ensures timedCountHistory.all == [(f0.now, CategoryOf(palm, relevantPointables))] + old(timedCountHistory.all)
      ensures ValidFrame(SeenFrame(f0, timedCountHistory.all)) && inputs == FrameInputs(SeenFrame(f0, timedCountHistory.all))
      ensures Ran(old(current), old(Fields()), old(calls), inputs, SeenFrame(f0, timedCountHistory.all))
    {
      inputs := TakeFrame(f0, palm, relevantPointables);
      SendInputs(inputs, f0, SeenFrame(f0, timedCountHistory.all));
    }

    /** From the given state, fields and calls, the machine has run the inputs; an uninitialized one starts in `Recognition`. */
    ghost predicate Ran(before: Option<State>, fields: Memory, called: seq<Event>, inputs: seq<Input>, f: Frame)
      reads this
    {
      var r := RunAll(if before.None? then Recognition else before.value,
                      if before.None? then fields.(justScrolled := false) else fields, inputs, f);
      current == Some(r.s) && Fields() == r.m && calls == called + r.out
    }

    /** The events of one frame, in order (source/GestureInteraction/GestureOnlyMode.cpp:87-122). */
    method SelectInputs(f0: Frame, ghost f: Frame) returns (inputs: seq<Input>)
      requires Valid() && ValidFrame(f) && f == f0.(window := f.window)
      requires forall c :: pointableCountBucket[Index(c)] == Share(f.window, c)
      ensures inputs == FrameInputs(f)
    {
      var bucket := pointableCountBucket;
      assert bucket[0] == Share(f.window, Two) && bucket[1] == Share(f.window, ThreePlus);
      assert bucket[2] == Share(f.window, Other) && bucket[3] == Share(f.window, Palm);
      inputs := [];
      if bucket[0] >= BUCKET_THRESHOLD {
        inputs := [CountTwo];
      } else if bucket[1] >= BUCKET_THRESHOLD {
        inputs := [CountThreePlus];
      } else if bucket[2] >= BUCKET_THRESHOLD {
        inputs := [CountOther];
      } else if bucket[3] >= BUCKET_THRESHOLD {
        inputs := [CountPalm];
      } else if bucket[0] < BUCKET_THRESHOLD_LOW && bucket[1] < BUCKET_THRESHOLD_LOW
             && bucket[2] < BUCKET_THRESHOLD_LOW && bucket[3] < BUCKET_THRESHOLD_LOW {
        inputs := [CountUncertain];
      }
      if f0.noTouching {
        inputs := inputs + [NotTouching];
      } else if f0.favoriteTouching {
        inputs := inputs + [Touching];
      }
      inputs := inputs + [ProcessFrame];
    }

    method SendInputs(inputs: seq<Input>, f0: Frame, ghost f: Frame)
      requires current.Some? && f == f0.(window := f.window)
      requires ByUser(inputs)
      modifies this
      ensures Ran(old(current), old(Fields()), old(calls), inputs, f)
    {
      ghost var t := RunAll(current.value, Fields(), inputs, f);
      var i := 0;
      while i < |inputs|
        invariant 0 <= i <= |inputs| && current.Some?
        invariant var r := RunAll(current.value, Fields(), inputs[i..], f);
          r.s == t.s && r.m == t.m && calls + r.out == old(calls) + t.out
      {
        ghost var r, before := Run(current.value, Fields(), inputs[i], f), calls;
        RunIgnoresWindow(current.value, Fields(), inputs[i], f0, f);
        RunCurrentState(inputs[i], f0);
        assert inputs[i..][1..] == inputs[i + 1..];
        Assoc(before, r.out, RunAll(r.s, r.m, inputs[i + 1..], f).out);
        i := i + 1;
      }
    }

    /** `stopActiveEvents`. */
    method StopActiveEvents(f: Frame)
      requires current.Some?
      modifies this
      ensures var r := Run(old(current).value, old(Fields()), LostFocus, f);
        current == Some(r.s) && Fields() == r.m && calls == old(calls) + r.out
    {
      RunCurrentState(LostFocus, f);
    }
  }

  /** The handlers never look at the window. */
  lemma RunIgnoresWindow(s: State, m: Memory, input: Input, f0: Frame, f: Frame)
    requires f == f0.(window := f.window)
    ensures Run(s, m, input, f0) == Run(s, m, input, f)
  {
    var r := React(s, input, m, f);
    assert r == React(s, input, m, f0);
    SettleIgnoresWindow(s, r.m, r.next, f0, f);
  }

  lemma {:induction false} SettleIgnoresWindow(s: State, m: Memory, next: Option<State>, f0: Frame, f: Frame)
    requires f == f0.(window := f.window)
    ensures Settle(s, m, next, f0) == Settle(s, m, next, f)
    decreases if next.None? then 0 else 1 + Rank(next.value, f)
  {
    if next.Some? {
      var x := OnExit(s, m, f);
      var e := OnEnter(next.value, x.m, f);
      assert x == OnExit(s, m, f0) && e == OnEnter(next.value, x.m, f0);
      SettleIgnoresWindow(next.value, e.m, e.next, f0, f);
    }
  }
}
