/**
  The state machine and the count buckets of source/GestureInteraction/GestureOnlyMode.cpp:46-127 and 248-554.
 */
module GestureOnlyChart {
  import opened ValueTree
  import opened GestureTrace
  import opened Observations
  import opened Reals

  // ------------------------------------------------------------- the buckets

  datatype Category = Two | ThreePlus | Other | Palm

  const BUCKET_THRESHOLD := 0.75
  const BUCKET_THRESHOLD_LOW := 0.50

  function Occurrences(window: seq<Category>, c: Category): nat {
    if window == [] then 0 else (if window[|window| - 1] == c then 1 else 0) + Occurrences(window[..|window| - 1], c)
  }

  /** The part of a category in the window; without enough history everything counts as `Other`. */
  function Share(window: Option<seq<Category>>, c: Category): real
    requires window.Some? ==> window.value != []
  {
    match window
    case None => if c == Other then 1.0 else 0.0
    case Some(w) => Occurrences(w, c) as real / |w| as real
  }

  lemma {:induction false} OccurrencesAddUp(w: seq<Category>)
    ensures Occurrences(w, Two) + Occurrences(w, ThreePlus) + Occurrences(w, Other) + Occurrences(w, Palm) == |w|
  {
    if w != [] { OccurrencesAddUp(w[..|w| - 1]); }
  }

  lemma SumOfQuotients(a: real, b: real, c: real, d: real, n: real)
    requires n > 0.0 && a + b + c + d == n
    ensures a / n + b / n + c / n + d / n == 1.0
  {
    assert a / n + b / n + c / n + d / n == (a + b + c + d) / n;
  }

  lemma ShareIsNonNegative(window: Option<seq<Category>>, c: Category)
    requires window.Some? ==> window.value != []
    ensures Share(window, c) >= 0.0
  {
    if window.Some? { QuotientIsNonNegative(Occurrences(window.value, c) as real, |window.value| as real); }
  }

  /** The shares of the four categories are never negative and always sum to 1. */
  lemma SharesSumToOne(window: Option<seq<Category>>)
    requires window.Some? ==> window.value != []
    ensures Share(window, Two) + Share(window, ThreePlus) + Share(window, Other) + Share(window, Palm) == 1.0
    ensures forall c :: Share(window, c) >= 0.0
  {
    forall c ensures Share(window, c) >= 0.0 { ShareIsNonNegative(window, c); }
    if window.Some? {
      var w := window.value;
      OccurrencesAddUp(w);
      SumOfQuotients(Occurrences(w, Two) as real, Occurrences(w, ThreePlus) as real, Occurrences(w, Other) as real, Occurrences(w, Palm) as real, |w| as real);
    }
  }

  datatype Input =
    | Enter | Exit | ProcessFrame | LostFocus
    | CountUncertain | CountTwo | CountThreePlus | CountOther | CountPalm
    | Touching | NotTouching

  function CountInputOf(c: Category): Input {
    match c case Two => CountTwo case ThreePlus => CountThreePlus case Other => CountOther case Palm => CountPalm
  }

  /** The threshold event, tried in the source's order. */
  function CountInput(window: Option<seq<Category>>): Option<Input>
    requires window.Some? ==> window.value != []
  {
    if Share(window, Two) >= BUCKET_THRESHOLD then Some(CountTwo)
    else if Share(window, ThreePlus) >= BUCKET_THRESHOLD then Some(CountThreePlus)
    else if Share(window, Other) >= BUCKET_THRESHOLD then Some(CountOther)
    else if Share(window, Palm) >= BUCKET_THRESHOLD then Some(CountPalm)
    else if Share(window, Two) < BUCKET_THRESHOLD_LOW && Share(window, ThreePlus) < BUCKET_THRESHOLD_LOW
         && Share(window, Other) < BUCKET_THRESHOLD_LOW && Share(window, Palm) < BUCKET_THRESHOLD_LOW then Some(CountUncertain)
    else None
  }

  /** The order of the tests is immaterial: an event names a category exactly when that category is over the threshold. */
  lemma ThresholdEventsExclude(window: Option<seq<Category>>, c: Category)
    requires window.Some? ==> window.value != []
    ensures CountInput(window) == Some(CountInputOf(c)) <==> Share(window, c) >= BUCKET_THRESHOLD
    ensures CountInput(window) == Some(CountUncertain) <==> forall d :: Share(window, d) < BUCKET_THRESHOLD_LOW
  {
    SharesSumToOne(window);
    if Share(window, Two) < BUCKET_THRESHOLD_LOW && Share(window, ThreePlus) < BUCKET_THRESHOLD_LOW
         && Share(window, Other) < BUCKET_THRESHOLD_LOW && Share(window, Palm) < BUCKET_THRESHOLD_LOW {
      forall d ensures Share(window, d) < BUCKET_THRESHOLD_LOW {
        match d case Two => case ThreePlus => case Other => case Palm =>
      }
    }
  }

  // ------------------------------------------------------- the state machine

  datatype State = Recognition | Cooldown | TwoHovering | TwoScrolling | SwipeVertical | SwipeHorizontal | PalmSwipe

  /** What the handlers and `processFrameInternal` read from a frame and the histories. */
  datatype Frame = Frame(
    now: int,                         // timestamp, in microseconds
    window: Option<seq<Category>>,    // the categories of the last 100 ms, if the history is that long
    noTouching: bool,                 // no relevant pointable is touching
    favoriteTouching: bool,           // the favourite hand, or else the favourite pointable, is touching
    enoughHistory: bool,              // the frame history holds a frame at least 100 ms old
    longHistory: bool,                // ... and one at least 150 ms old
    direction: Direction)             // what wins in the translation since the frame of 100 ms ago

  ghost predicate ValidFrame(f: Frame) { f.window.Some? ==> f.window.value != [] }

  datatype Memory = Memory(justScrolled: bool, cooldownStart: int)

  datatype Reaction = Reaction(m: Memory, next: Option<State>, out: seq<Event>)

  function GestureOf(s: State): Option<Gesture> {
    match s
    case TwoScrolling => Some(Scroll)
    case SwipeVertical => Some(DesktopSwipeVertical)
    case SwipeHorizontal | PalmSwipe => Some(DesktopSwipeHorizontal)
    case _ => None
  }

  predicate CountsAgainst(s: State, input: Input) {
    match s
    case TwoHovering | TwoScrolling => input in {CountUncertain, CountThreePlus, CountOther, CountPalm}
    case PalmSwipe => input in {CountUncertain, CountTwo, CountThreePlus, CountOther}
    case _ => false
  }

  function Target(s: State, input: Input, m: Memory, f: Frame): Option<State> {
    match s
    case Recognition =>
      if !f.enoughHistory then None
      else if input == CountPalm then Some(PalmSwipe)
      else if input == CountTwo then Some(TwoHovering)
      else if input == CountThreePlus && f.direction == Horizontal then Some(SwipeHorizontal)
      else if input == CountThreePlus && f.direction == Vertical then Some(SwipeVertical)
      else None
    case Cooldown =>
      // on entry the start time is set first, and no time has passed since
      if input == LostFocus || (input == ProcessFrame && f.now - m.cooldownStart >= 500 * MILLISECONDS) then Some(Recognition) else None
    case TwoHovering =>
      if input == LostFocus then Some(Recognition)
      else if input == Touching then Some(TwoScrolling)
      else if CountsAgainst(s, input) then Some(if m.justScrolled then Cooldown else Recognition)
      else None
    case TwoScrolling =>
      if input == LostFocus || CountsAgainst(s, input) then Some(Recognition)
      else if input == NotTouching then Some(TwoHovering)
      else None
    case SwipeVertical | SwipeHorizontal =>
      if input == LostFocus then Some(Recognition)
      else if (input == Enter || input == ProcessFrame) && f.enoughHistory then Some(Cooldown)
      else None
    case PalmSwipe =>
      if input == LostFocus then Some(Recognition) else if CountsAgainst(s, input) then Some(Cooldown) else None
  }

  function MemoryAfter(s: State, input: Input, m: Memory, f: Frame): Memory {
    if s == Recognition then m.(justScrolled := false)
    else if s == Cooldown && input == Enter then m.(cooldownStart := f.now)
    else if s == TwoScrolling && input == Enter then m.(justScrolled := true)
    else m
  }

  function Calls(s: State, input: Input, f: Frame): seq<Event> {
    if GestureOf(s).None? then []
    else
      var g := GestureOf(s).value;
      var quick := s == SwipeVertical || s == SwipeHorizontal;
      if input == Enter then if quick && f.enoughHistory then [Begin(g), ApplyDesktopSwipe] else [Begin(g)]
      else if input == Exit then if s == PalmSwipe && f.longHistory then [ApplyDesktopSwipe, End] else [End]
      else if input == ProcessFrame then
        if s == TwoScrolling then [ApplyScroll] else if quick && f.enoughHistory then [ApplyDesktopSwipe] else []
      else []
  }

  function React(s: State, input: Input, m: Memory, f: Frame): Reaction {
    Reaction(MemoryAfter(s, input, m, f), if input == Exit then None else Target(s, input, m, f), Calls(s, input, f))
  }

  /** Only the quick swipes move on when entered. */
  function Rank(s: State, f: Frame): nat {
    if (s == SwipeVertical || s == SwipeHorizontal) && f.enoughHistory then 1 else 0
  }

  datatype Outcome = Outcome(s: State, m: Memory, out: seq<Event>, moves: nat)

  function OnEnter(s: State, m: Memory, f: Frame): Reaction { React(s, Enter, m, f) }

  function OnExit(s: State, m: Memory, f: Frame): Reaction { React(s, Exit, m, f) }

  /** The loop of `RunCurrentStatePrivate`, from the point where a handler has asked for `next`. */
  function Settle(s: State, m: Memory, next: Option<State>, f: Frame): (r: Outcome)
    ensures r.moves <= if next.None? then 0 else 1 + Rank(next.value, f)
    decreases if next.None? then 0 else 1 + Rank(next.value, f)
  {
    match next
    case None => Outcome(s, m, [], 0)
    case Some(t) =>
      var x := OnExit(s, m, f);
      var e := OnEnter(t, x.m, f);
      var r := Settle(t, e.m, e.next, f);
      Outcome(r.s, r.m, x.out + e.out + r.out, 1 + r.moves)
  }

  /** One input: at most two transitions. */
  function Run(s: State, m: Memory, input: Input, f: Frame): (r: Outcome)
    ensures r.moves <= 2
  {
    var r := React(s, input, m, f);
    var t := Settle(s, r.m, r.next, f);
    Outcome(t.s, t.m, r.out + t.out, t.moves)
  }

  /** `Enter` and `Exit` are sent by the machine alone. */
  ghost predicate ByUser(inputs: seq<Input>) { forall i | 0 <= i < |inputs| :: inputs[i] != Enter && inputs[i] != Exit }

  /** The inputs one frame sends. */
  function FrameInputs(f: Frame): (inputs: seq<Input>)
    requires ValidFrame(f)
    ensures ByUser(inputs) && LostFocus !in inputs
  {
    (match CountInput(f.window) case None => [] case Some(i) => [i])
    + (if f.noTouching then [NotTouching] else if f.favoriteTouching then [Touching] else [])
    + [ProcessFrame]
  }

  function RunAll(s: State, m: Memory, inputs: seq<Input>, f: Frame): Outcome
    decreases |inputs|
  {
    if inputs == [] then Outcome(s, m, [], 0)
    else
      var r := Run(s, m, inputs[0], f);
      var t := RunAll(r.s, r.m, inputs[1..], f);
      Outcome(t.s, t.m, r.out + t.out, r.moves + t.moves)
  }

  // ---------------------------------------------- the calls over a whole run

  function MonitorOf(s: State): Monitor { Monitor(GestureOf(s), false) }

  lemma ExitCloses(s: State, m: Memory, f: Frame)
    ensures Watch(MonitorOf(s), OnExit(s, m, f).out) == Some(QUIET)
  {
    WatchOne(MonitorOf(s), End);
    WatchTwo(MonitorOf(s), ApplyDesktopSwipe, End);
  }

  lemma EnterOpens(s: State, m: Memory, f: Frame)
    ensures Watch(QUIET, OnEnter(s, m, f).out) == Some(MonitorOf(s))
  {
    if GestureOf(s).Some? {
      WatchOne(QUIET, Begin(GestureOf(s).value));
      WatchTwo(QUIET, Begin(GestureOf(s).value), ApplyDesktopSwipe);
    }
  }

  lemma {:induction false} SettlingIsDisciplined(s: State, m: Memory, next: Option<State>, f: Frame)
    ensures var r := Settle(s, m, next, f); Watch(MonitorOf(s), r.out) == Some(MonitorOf(r.s))
    decreases if next.None? then 0 else 1 + Rank(next.value, f)
  {
    if next.Some? {
      var t := next.value;
      var x := OnExit(s, m, f);
      var e := OnEnter(t, x.m, f);
      ExitCloses(s, m, f);
      EnterOpens(t, x.m, f);
      WatchConcat(MonitorOf(s), x.out, e.out);
      SettlingIsDisciplined(t, e.m, e.next, f);
      WatchConcat(MonitorOf(s), x.out + e.out, Settle(t, e.m, e.next, f).out);
    }
  }

  lemma ReactionIsDisciplined(s: State, m: Memory, input: Input, f: Frame)
    requires input != Enter && input != Exit
    ensures Watch(MonitorOf(s), React(s, input, m, f).out) == Some(MonitorOf(s))
  {
    var out := React(s, input, m, f).out;
    if out != [] { WatchOne(MonitorOf(s), out[0]); }
  }

  lemma RunIsDisciplined(s: State, m: Memory, input: Input, f: Frame)
    requires input != Enter && input != Exit
    ensures var r := Run(s, m, input, f); Watch(MonitorOf(s), r.out) == Some(MonitorOf(r.s))
  {
    var r := React(s, input, m, f);
    ReactionIsDisciplined(s, m, input, f);
    SettlingIsDisciplined(s, r.m, r.next, f);
    WatchConcat(MonitorOf(s), r.out, Settle(s, r.m, r.next, f).out);
  }

  lemma {:induction false} RunAllIsDisciplined(s: State, m: Memory, inputs: seq<Input>, f: Frame)
    requires ByUser(inputs)
    ensures var r := RunAll(s, m, inputs, f); Watch(MonitorOf(s), r.out) == Some(MonitorOf(r.s))
    decreases |inputs|
  {
    if inputs != [] {
      var r := Run(s, m, inputs[0], f);
      RunIsDisciplined(s, m, inputs[0], f);
      RunAllIsDisciplined(r.s, r.m, inputs[1..], f);
      WatchConcat(MonitorOf(s), r.out, RunAll(r.s, r.m, inputs[1..], f).out);
    }
  }

  /** A frame to process, or the loss of focus. */
  datatype Step = Step(frame: Frame, focus: bool)

  function StepInputs(p: Step): (inputs: seq<Input>)
    requires ValidFrame(p.frame)
    ensures ByUser(inputs)
  {
    if p.focus then FrameInputs(p.frame) else [LostFocus]
  }

  ghost predicate ValidSteps(steps: seq<Step>) { forall i | 0 <= i < |steps| :: ValidFrame(steps[i].frame) }

  /** Any number of steps after construction; the machine enters `Recognition` with the first frame, which emits nothing. */
  function Play(m: Memory, steps: seq<Step>): Outcome
    requires ValidSteps(steps)
  {
    if steps == [] then Outcome(Recognition, m, [], 0)
    else
      var last := steps[|steps| - 1];
      var p := Play(m, steps[..|steps| - 1]);
      var r := RunAll(p.s, p.m, StepInputs(last), last.frame);
      Outcome(r.s, r.m, p.out + r.out, p.moves + r.moves)
  }

  /**
    Every run: gestures alternate strictly, every `apply` call falls inside a gesture of its own kind, no click is
    made, and shutdown closes whatever is open.
   */
  lemma {:induction false} EveryRunIsDisciplined(m: Memory, steps: seq<Step>, f: Frame)
    requires ValidSteps(steps)
    ensures var r := Play(m, steps);
      && Watch(QUIET, r.out) == Some(Monitor(GestureOf(r.s), false))
      && Watch(QUIET, r.out + OnExit(r.s, r.m, f).out) == Some(QUIET)
  {
    var r := Play(m, steps);
    if steps != [] {
      var last, before := steps[|steps| - 1], steps[..|steps| - 1];
      EveryRunIsDisciplined(m, before, f);
      var p := Play(m, before);
      RunAllIsDisciplined(p.s, p.m, StepInputs(last), last.frame);
      WatchConcat(QUIET, p.out, RunAll(p.s, p.m, StepInputs(last), last.frame).out);
    }
    WatchConcat(QUIET, r.out, OnExit(r.s, r.m, f).out);
    ExitCloses(r.s, r.m, f);
  }

  // ------------------------------------------------------ spacing of swipes

  /** The number of desktop swipes that begin in a list of calls. */
  function SwipeBegins(out: seq<Event>): nat {
    if out == [] then 0
    else (if out[|out| - 1].Begin? && IsSwipe(Some(out[|out| - 1].gesture)) then 1 else 0) + SwipeBegins(out[..|out| - 1])
  }

  lemma {:induction false} SwipeBeginsConcat(a: seq<Event>, b: seq<Event>)
    ensures SwipeBegins(a + b) == SwipeBegins(a) + SwipeBegins(b)
  {
    if b == [] {
      assert a + b == a;
    } else {
      assert (a + b)[..|a + b| - 1] == a + b[..|b| - 1];
      SwipeBeginsConcat(a, b[..|b| - 1]);
    }
  }

  /** How old the last swipe is at least, by state: `last` is when it began. */
  ghost predicate Spaced(s: State, m: Memory, last: Option<int>, now: int) {
    && s != SwipeVertical && s != SwipeHorizontal
    && (last.Some? ==>
         && last.value <= now
         && (s == Cooldown ==> m.cooldownStart >= last.value)
         && (s == Recognition || s == TwoHovering || s == TwoScrolling ==> now - last.value >= 500 * MILLISECONDS))
  }

  /** A swipe begins only 500 ms after the last one; `begins` swipes have begun and `s`, `m` are the result. */
  ghost predicate KeptSpacing(begins: nat, s: State, m: Memory, last: Option<int>, now: int) {
    if begins == 0 then Spaced(s, m, last, now)
    else begins == 1 && Spaced(s, m, Some(now), now) && (last.Some? ==> now - last.value >= 500 * MILLISECONDS)
  }

  lemma BeginsOfOne(e: Event)
    ensures SwipeBegins([e]) == if e.Begin? && IsSwipe(Some(e.gesture)) then 1 else 0
  {
    assert [e][..0] == [];
  }

  lemma BeginsOfTwo(d: Event, e: Event)
    ensures SwipeBegins([d, e]) == SwipeBegins([d]) + SwipeBegins([e])
  {
    assert [d, e] == [d] + [e];
    SwipeBeginsConcat([d], [e]);
  }

  /** Neither a processed frame nor a count begins a swipe without a transition. */
  lemma BeginsOfReaction(s: State, m: Memory, input: Input, f: Frame)
    requires input != Enter
    ensures SwipeBegins(React(s, input, m, f).out) == 0
  {
    BeginsOfOne(End);
    BeginsOfOne(ApplyScroll);
    BeginsOfOne(ApplyDesktopSwipe);
    BeginsOfTwo(ApplyDesktopSwipe, End);
  }

  /** A transition: a quick swipe goes straight on to the cooldown, everything else stays where it is. */
  lemma SettlingEndsIn(s: State, m: Memory, t: State, f: Frame)
    ensures var r := Settle(s, m, Some(t), f);
      var m1 := MemoryAfter(t, Enter, MemoryAfter(s, Exit, m, f), f);
      && r.s == (if Rank(t, f) == 1 then Cooldown else t)
      && r.m == (if Rank(t, f) == 1 then m1.(cooldownStart := f.now) else m1)
  {
    var e := OnEnter(t, OnExit(s, m, f).m, f);
    if e.next.Some? { CooldownSettles(t, e.m, f); }
  }

  lemma BeginsOfThree(a: seq<Event>, b: seq<Event>, c: seq<Event>)
    ensures SwipeBegins(a + b + c) == SwipeBegins(a) + SwipeBegins(b) + SwipeBegins(c)
  {
    SwipeBeginsConcat(a, b);
    SwipeBeginsConcat(a + b, c);
  }

  /** Entering a state leads nowhere, or from a quick swipe to the cooldown. */
  lemma EnterTargets(t: State, m: Memory, f: Frame)
    ensures var e := OnEnter(t, m, f);
      e.next == None || (e.next == Some(Cooldown) && (t == SwipeVertical || t == SwipeHorizontal))
  {}

  lemma NothingSettles(t: State, m: Memory, f: Frame)
    ensures Settle(t, m, None, f) == Outcome(t, m, [], 0)
  {}

  lemma BeginsAfterEnter(t: State, m: Memory, f: Frame)
    ensures var e := OnEnter(t, m, f); SwipeBegins(Settle(t, e.m, e.next, f).out) == 0
  {
    var e := OnEnter(t, m, f);
    EnterTargets(t, m, f);
    if e.next.Some? { CooldownSettles(t, e.m, f); } else { NothingSettles(t, e.m, f); }
  }

  lemma SettlingBegins(s: State, m: Memory, t: State, f: Frame)
    ensures SwipeBegins(Settle(s, m, Some(t), f).out) == if IsSwipe(GestureOf(t)) then 1 else 0
  {
    var x := OnExit(s, m, f);
    var e := OnEnter(t, x.m, f);
    BeginsOfThree(x.out, e.out, Settle(t, e.m, e.next, f).out);
    BeginsOfReaction(s, m, Exit, f);
    BeginsOfEnter(t, x.m, f);
    BeginsAfterEnter(t, x.m, f);
  }

  lemma {:induction false} CooldownSettles(s: State, m: Memory, f: Frame)
    requires s == SwipeVertical || s == SwipeHorizontal
    ensures var r := Settle(s, m, Some(Cooldown), f);
      SwipeBegins(r.out) == 0 && r.s == Cooldown && r.m == m.(cooldownStart := f.now)
  {
    var m1 := m.(cooldownStart := f.now);
    assert Settle(Cooldown, m1, None, f) == Outcome(Cooldown, m1, [], 0);
    assert [End] + [] + [] == [End];
    BeginsOfOne(End);
  }

  lemma TransitionKeepsSpacing(s: State, m: Memory, input: Input, f: Frame, last: Option<int>)
    requires input != Enter && input != Exit && input != LostFocus
    requires Spaced(s, m, last, f.now) && Target(s, input, m, f).Some?
    ensures var t := Target(s, input, m, f).value;
      var m1 := MemoryAfter(t, Enter, MemoryAfter(s, Exit, MemoryAfter(s, input, m, f), f), f);
      KeptSpacing(if IsSwipe(GestureOf(t)) then 1 else 0,
                  if Rank(t, f) == 1 then Cooldown else t,
                  if Rank(t, f) == 1 then m1.(cooldownStart := f.now) else m1, last, f.now)
  {}

  /** One input without loss of focus. */
  lemma {:induction false} InputKeepsSpacing(s: State, m: Memory, input: Input, f: Frame, last: Option<int>)
    requires input != Enter && input != Exit && input != LostFocus
    requires Spaced(s, m, last, f.now)
    ensures var r := Run(s, m, input, f); KeptSpacing(SwipeBegins(r.out), r.s, r.m, last, f.now)
  {
    var r := React(s, input, m, f);
    BeginsOfReaction(s, m, input, f);
    SwipeBeginsConcat(r.out, Settle(s, r.m, r.next, f).out);
    if r.next.Some? {
      SettlingEndsIn(s, r.m, r.next.value, f);
      SettlingBegins(s, r.m, r.next.value, f);
      TransitionKeepsSpacing(s, m, input, f, last);
    }
  }

  lemma {:induction false} InputsKeepSpacing(s: State, m: Memory, inputs: seq<Input>, f: Frame, last: Option<int>)
    requires ByUser(inputs) && LostFocus !in inputs
    requires Spaced(s, m, last, f.now)
    ensures var r := RunAll(s, m, inputs, f); KeptSpacing(SwipeBegins(r.out), r.s, r.m, last, f.now)
    decreases |inputs|
  {
    if inputs != [] {
      var r := Run(s, m, inputs[0], f);
      InputKeepsSpacing(s, m, inputs[0], f, last);
      InputsKeepSpacing(r.s, r.m, inputs[1..], f, if SwipeBegins(r.out) == 0 then last else Some(f.now));
      SwipeBeginsConcat(r.out, RunAll(r.s, r.m, inputs[1..], f).out);
    }
  }

  /** Time never goes back. */
  ghost predicate Timely(steps: seq<Step>) {
    && ValidSteps(steps)
    && (forall i, j | 0 <= i <= j < |steps| :: steps[i].frame.now <= steps[j].frame.now)
  }

  /** What the last step of a run emits. */
  function LastCalls(m: Memory, steps: seq<Step>): seq<Event>
    requires ValidSteps(steps) && steps != []
  {
    var p := Play(m, steps[..|steps| - 1]);
    RunAll(p.s, p.m, StepInputs(steps[|steps| - 1]), steps[|steps| - 1].frame).out
  }

  /** When the last desktop swipe of a run began. */
  function LastSwipe(m: Memory, steps: seq<Step>): Option<int>
    requires ValidSteps(steps)
  {
    if steps == [] then None
    else if SwipeBegins(LastCalls(m, steps)) > 0 then Some(steps[|steps| - 1].frame.now)
    else LastSwipe(m, steps[..|steps| - 1])
  }

  predicate LongAgo(last: Option<int>, now: int) { last.None? || now - last.value >= 500 * MILLISECONDS }

  /** No step begins two desktop swipes, or one less than 500 ms after the last. */
  ghost predicate SwipesSpaced(m: Memory, steps: seq<Step>)
    requires ValidSteps(steps)
  {
    steps == [] ||
    var before, now := steps[..|steps| - 1], steps[|steps| - 1].frame.now;
    && SwipesSpaced(m, before)
    && SwipeBegins(LastCalls(m, steps)) <= 1
    && (SwipeBegins(LastCalls(m, steps)) == 1 ==> LongAgo(LastSwipe(m, before), now))
  }

  /** Focus is only ever lost when no desktop swipe has begun within the last 500 ms. */
  ghost predicate Patient(m: Memory, steps: seq<Step>)
    requires ValidSteps(steps)
  {
    steps == [] ||
    var before, last := steps[..|steps| - 1], steps[|steps| - 1];
    Patient(m, before) && (last.focus || LongAgo(LastSwipe(m, before), last.frame.now))
  }

  /** Going back to recognition begins no swipe. */
  lemma RecognitionBeginsNone(s: State, m: Memory, f: Frame)
    ensures var r := Settle(s, m, Some(Recognition), f); r.s == Recognition && SwipeBegins(r.out) == 0
  {
    SettlingEndsIn(s, m, Recognition, f);
    SettlingBegins(s, m, Recognition, f);
  }

  /** Losing focus leads back to recognition and begins no swipe. */
  lemma LostFocusRests(s: State, m: Memory, f: Frame)
    ensures var r := Run(s, m, LostFocus, f); r.s == Recognition && SwipeBegins(r.out) == 0
  {
    var r := React(s, LostFocus, m, f);
    assert r.out == [] && (if s == Recognition then r.next.None? else r.next == Some(Recognition));
    var t := Settle(s, r.m, r.next, f);
    if s != Recognition { RecognitionBeginsNone(s, r.m, f); }
    assert [] + t.out == t.out;
  }

  /** So `stopActiveEvents` always leaves nothing active. */
  lemma LostFocusIsQuiet(s: State, m: Memory, f: Frame)
    ensures GestureOf(Run(s, m, LostFocus, f).s) == None
  {
    LostFocusRests(s, m, f);
  }

  lemma SpacedInRecognitionIff(s: State, m: Memory, m1: Memory, last: Option<int>, now: int)
    requires Spaced(s, m, last, now)
    ensures Spaced(Recognition, m1, last, now) <==> LongAgo(last, now)
  {}

  /** Losing focus begins no swipe, and keeps the spacing exactly when the last swipe is long enough ago. */
  lemma LostFocusKeepsSpacingIff(s: State, m: Memory, f: Frame, last: Option<int>)
    requires Spaced(s, m, last, f.now)
    ensures var r := Run(s, m, LostFocus, f);
      && r.s == Recognition && SwipeBegins(r.out) == 0
      && (Spaced(r.s, r.m, last, f.now) <==> LongAgo(last, f.now))
  {
    LostFocusRests(s, m, f);
    SpacedInRecognitionIff(s, m, Run(s, m, LostFocus, f).m, last, f.now);
  }

  lemma LossIsOneRun(s: State, m: Memory, f: Frame)
    ensures var r, a := Run(s, m, LostFocus, f), RunAll(s, m, [LostFocus], f); a.s == r.s && a.m == r.m && a.out == r.out
  {
    var r := Run(s, m, LostFocus, f);
    assert [LostFocus][1..] == [];
    assert RunAll(r.s, r.m, [], f) == Outcome(r.s, r.m, [], 0);
    assert r.out + [] == r.out;
  }

  /** One step from a state that keeps the spacing: where it leads, and what it does to the spacing. */
  lemma StepKeepsSpacing(s: State, m: Memory, p: Step, last: Option<int>)
    requires ValidFrame(p.frame) && Spaced(s, m, last, p.frame.now)
    requires p.focus || LongAgo(last, p.frame.now)
    ensures var r := RunAll(s, m, StepInputs(p), p.frame); KeptSpacing(SwipeBegins(r.out), r.s, r.m, last, p.frame.now)
  {
    if p.focus {
      InputsKeepSpacing(s, m, FrameInputs(p.frame), p.frame, last);
    } else {
      LossIsOneRun(s, m, p.frame);
      LostFocusKeepsSpacingIff(s, m, p.frame, last);
    }
  }

  lemma {:induction false} PatientRunIsSpaced(m: Memory, steps: seq<Step>)
    requires Timely(steps) && Patient(m, steps)
    ensures SwipesSpaced(m, steps)
    ensures var r := Play(m, steps); steps != [] ==> Spaced(r.s, r.m, LastSwipe(m, steps), steps[|steps| - 1].frame.now)
    decreases |steps|
  {
    if steps != [] {
      var before, last := steps[..|steps| - 1], steps[|steps| - 1];
      var p := Play(m, before);
      PatientRunIsSpaced(m, before);
      StepStartsSpaced(m, before, last.frame.now);
      StepKeepsSpacing(p.s, p.m, last, LastSwipe(m, before));
    }
  }

  /** What such a run has come to when the next step begins. */
  lemma StepStartsSpaced(m: Memory, steps: seq<Step>, now: int)
    requires ValidSteps(steps)
    requires var r := Play(m, steps);
      steps != [] ==> Spaced(r.s, r.m, LastSwipe(m, steps), steps[|steps| - 1].frame.now) && steps[|steps| - 1].frame.now <= now
    ensures var r := Play(m, steps); Spaced(r.s, r.m, LastSwipe(m, steps), now)
  {
    if steps != [] {
      var r := Play(m, steps);
      SpacedLater(r.s, r.m, LastSwipe(m, steps), steps[|steps| - 1].frame.now, now);
    }
  }

  lemma SpacedLater(s: State, m: Memory, last: Option<int>, now: int, later: int)
    requires Spaced(s, m, last, now) && now <= later
    ensures Spaced(s, m, last, later)
  {}

  /**
    With nondecreasing timestamps, and focus lost only when no swipe began in the 500 ms before, a step begins at
    most one desktop swipe, and only when the last one began at least 500 ms before.
   */
  lemma SwipesAreSpaced(m: Memory, steps: seq<Step>)
    requires Timely(steps) && Patient(m, steps) && steps != []
    ensures SwipeBegins(LastCalls(m, steps)) <= 1
    ensures SwipeBegins(LastCalls(m, steps)) == 1 ==>
      LongAgo(LastSwipe(m, steps[..|steps| - 1]), steps[|steps| - 1].frame.now)
  {
    PatientRunIsSpaced(m, steps);
  }

  lemma QuickSwipe(m: Memory, f: Frame)
    requires f.enoughHistory && f.direction == Horizontal
    ensures var r := Run(Recognition, m, CountThreePlus, f); r.s == Cooldown && SwipeBegins(r.out) == 1
  {
    var r := React(Recognition, CountThreePlus, m, f);
    SettlingEndsIn(Recognition, r.m, SwipeHorizontal, f);
    SettlingBegins(Recognition, r.m, SwipeHorizontal, f);
    assert [] + Settle(Recognition, r.m, r.next, f).out == Settle(Recognition, r.m, r.next, f).out;
  }

  /** Three fingers that have moved sideways for long enough. */
  function SwipingFrame(now: int): (f: Frame)
    ensures f.now == now && ValidFrame(f)
  {
    Frame(now, Some([ThreePlus]), true, false, true, true, Horizontal)
  }

  lemma SwipingFrameSwipes(m: Memory, now: int)
    ensures SwipeBegins(RunAll(Recognition, m, FrameInputs(SwipingFrame(now)), SwipingFrame(now)).out) >= 1
  {
    var f := SwipingFrame(now);
    var inputs := FrameInputs(f);
    assert Occurrences([ThreePlus], ThreePlus) == 1 by { assert [ThreePlus][..0] == []; }
    ThresholdEventsExclude(f.window, ThreePlus);
    assert inputs[0] == CountThreePlus;
    QuickSwipe(m, f);
    var r := Run(Recognition, m, CountThreePlus, f);
    SwipeBeginsConcat(r.out, RunAll(r.s, r.m, inputs[1..], f).out);
  }

  /** The frame `f` may come after the first `k` steps, and the swipes stay spaced if it does. */
  ghost predicate SpacedAfter(m: Memory, steps: seq<Step>, k: nat, f: Frame)
    requires ValidSteps(steps) && k <= |steps|
  {
    ValidFrame(f) && (k > 0 ==> steps[k - 1].frame.now <= f.now) ==> SwipesSpaced(m, steps[..k] + [Step(f, true)])
  }

  /** Whatever frame comes next, after whatever part of the run, the swipes stay spaced. */
  ghost predicate AlwaysSpaced(m: Memory, steps: seq<Step>)
    requires ValidSteps(steps)
  {
    forall k: nat, f | k <= |steps| :: SpacedAfter(m, steps, k, f)
  }

  lemma {:induction false} PatientPrefix(m: Memory, steps: seq<Step>, k: nat)
    requires Timely(steps) && Patient(m, steps) && k <= |steps|
    ensures Timely(steps[..k]) && Patient(m, steps[..k])
    decreases |steps|
  {
    if k == |steps| {
      assert steps[..k] == steps;
    } else {
      PatientPrefix(m, steps[..|steps| - 1], k);
      assert steps[..|steps| - 1][..k] == steps[..k];
    }
  }

  /** A loss of focus leaves the last swipe what it was. */
  lemma LossKeepsLastSwipe(m: Memory, steps: seq<Step>)
    requires ValidSteps(steps) && steps != [] && !steps[|steps| - 1].focus
    ensures Play(m, steps).s == Recognition && LastSwipe(m, steps) == LastSwipe(m, steps[..|steps| - 1])
  {
    var p, f := Play(m, steps[..|steps| - 1]), steps[|steps| - 1].frame;
    LossIsOneRun(p.s, p.m, f);
    LostFocusRests(p.s, p.m, f);
  }

  /** One more step, which begins a swipe too soon. */
  lemma TooSoon(m: Memory, steps: seq<Step>, p: Step)
    requires ValidSteps(steps) && ValidFrame(p.frame)
    ensures var r := Play(m, steps);
      LongAgo(LastSwipe(m, steps), p.frame.now)
      || SwipeBegins(RunAll(r.s, r.m, StepInputs(p), p.frame).out) == 0
      || !SwipesSpaced(m, steps + [p])
  {
    var more := steps + [p];
    assert more[..|more| - 1] == steps && more[|more| - 1] == p;
  }

  /** A loss of focus too soon after a swipe lets the very next frame begin another. */
  lemma ImpatienceShows(m: Memory, steps: seq<Step>)
    requires ValidSteps(steps) && steps != []
    ensures Patient(m, steps[..|steps| - 1]) && !Patient(m, steps) ==>
      !SpacedAfter(m, steps, |steps|, SwipingFrame(steps[|steps| - 1].frame.now))
  {
    if Patient(m, steps[..|steps| - 1]) && !Patient(m, steps) {
      var now := steps[|steps| - 1].frame.now;
      LossKeepsLastSwipe(m, steps);
      SwipingFrameSwipes(Play(m, steps).m, now);
      assert steps[..|steps|] == steps;
      TooSoon(m, steps, Step(SwipingFrame(now), true));
    }
  }

  lemma {:induction false} ImpatientIsNotSpaced(m: Memory, steps: seq<Step>)
    requires Timely(steps) && !Patient(m, steps)
    ensures !AlwaysSpaced(m, steps)
    decreases |steps|
  {
    var before := steps[..|steps| - 1];
    if Patient(m, before) {
      ImpatienceShows(m, steps);
    } else {
      ImpatientIsNotSpaced(m, before);
      var k: nat, f :| k <= |before| && !SpacedAfter(m, before, k, f);
      assert steps[..k] == before[..k];
      assert !SpacedAfter(m, steps, k, f);
    }
  }

  lemma OneMoreFrameIsSpaced(m: Memory, steps: seq<Step>, k: nat, f: Frame)
    requires Timely(steps) && Patient(m, steps) && k <= |steps|
    ensures SpacedAfter(m, steps, k, f)
  {
    if ValidFrame(f) && (k > 0 ==> steps[k - 1].frame.now <= f.now) {
      PatientPrefix(m, steps, k);
      var more := steps[..k] + [Step(f, true)];
      assert more[..|more| - 1] == steps[..k];
      PatientRunIsSpaced(m, more);
    }
  }

  /**
    Exactly when the swipes of a run are safe: whatever frame may come after any part of it, no two desktop swipes
    begin less than 500 ms apart, if and only if focus is never lost less than 500 ms after one began.
   */
  lemma AlwaysSpacedIffPatient(m: Memory, steps: seq<Step>)
    requires Timely(steps)
    ensures AlwaysSpaced(m, steps) <==> Patient(m, steps)
  {
    if Patient(m, steps) {
      forall k: nat, f | k <= |steps| ensures SpacedAfter(m, steps, k, f) {
        OneMoreFrameIsSpaced(m, steps, k, f);
      }
    } else {
      ImpatientIsNotSpaced(m, steps);
    }
  }

  /** The failing schedule itself: two swipes begin at one and the same time. */
  lemma LostFocusBreaksSpacing(m: Memory, f: Frame)
    requires f.enoughHistory && f.direction == Horizontal
    ensures var first := Run(Recognition, m, CountThreePlus, f);
      var lost := Run(first.s, first.m, LostFocus, f);
      var second := Run(lost.s, lost.m, CountThreePlus, f);
      SwipeBegins(first.out) == 1 && SwipeBegins(second.out) == 1
  {
    QuickSwipe(m, f);
    var first := Run(Recognition, m, CountThreePlus, f);
    LostFocusRests(first.s, first.m, f);
    QuickSwipe(Run(Cooldown, first.m, LostFocus, f).m, f);
  }

  lemma BeginsOfEnter(s: State, m: Memory, f: Frame)
    ensures SwipeBegins(OnEnter(s, m, f).out) == if IsSwipe(GestureOf(s)) then 1 else 0
  {
    if GestureOf(s).Some? {
      var begin := Begin(GestureOf(s).value);
      BeginsOfOne(begin);
      BeginsOfOne(ApplyDesktopSwipe);
      BeginsOfTwo(begin, ApplyDesktopSwipe);
    }
  }
}
