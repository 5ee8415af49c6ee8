/**
  The gesture, scroll and momentum phases of source/OSInteraction/LPGesture.cpp:67-470, one call at a time.

  Floats are reals.  What a call posts to the operating system is represented by the whole pixels and lines it
  emits; the event records themselves are platform output.
 */
module GesturePhases {
  import opened ValueTree
  import opened GestureTrace

  datatype Platform = Apple | Linux | Windows(charsPerNotch: int, linesPerNotch: int)

  datatype Phase = PhaseUndefined | PhaseBegan | PhaseChanged | PhaseEnded

  datatype Point = Point(x: real, y: real)

  const ZERO := Point(0.0, 0.0)

  datatype State = State(
    kind: Option<Gesture>,     // m_type, None being GestureNone
    phase: Phase,
    momentumPhase: Phase,
    momentum: Point,
    history: seq<Point>,       // at most HISTORY_SIZE, oldest first
    partialLine: Point,
    partialPixel: Point,
    perLine: Point,            // pixels per line (on Windows, lines per notch)
    eventTimer: int)           // Windows only

  const HISTORY_SIZE := 11
  const PIXELS_PER_MM := 120.0 / 25.4
  const MOMENTUM_FPS := 125.0
  const TICK := 8000
  const WINDOWS_UPDATE_RATE := 1666   // 100000 / 60

  const FRESH := State(None, PhaseUndefined, PhaseUndefined, ZERO, [], ZERO, ZERO, Point(1.0, 1.0), 0)

  function Abs(x: real): real { if x < 0.0 then -x else x }

  function Max(a: real, b: real): real { if a < b then b else a }

  function Largest(p: Point): real { Max(Abs(p.x), Abs(p.y)) }

  /** `round`: halves away from zero. */
  function Round(x: real): int { if x >= 0.0 then (x + 0.5).Floor else -(-x + 0.5).Floor }

  function PerLine(p: Platform): Point {
    match p
    case Apple => Point(10.0, 10.0)
    case Linux => Point(12.0, 12.0)
    case Windows(c, l) => Point(if c > 0 then c as real else 3.0, if l > 0 then l as real else 3.0)
  }

  /** The result of a call: whether it was accepted, what it emitted and what it took in, in pixels and lines. */
  datatype Outcome = Outcome(s: State, ok: bool, pixelsX: int, pixelsY: int, linesX: int, linesY: int, taken: Point)

  function Quietly(s: State, ok: bool): Outcome { Outcome(s, ok, 0, 0, 0, 0, ZERO) }

  function Pixels(d: Point): Point { Point(d.x * PIXELS_PER_MM, d.y * PIXELS_PER_MM) }

  predicate IsSlow(d: Point) { Abs(Pixels(d).x) < 1.5 && Abs(Pixels(d).y) < 1.5 }

  predicate IsTiny(d: Point) { Abs(d.x) <= 0.0000001 && Abs(d.y) <= 0.0000001 }

  function Damped(m: Point): Point {
    if m.x > 0.4 || m.y > 0.4 then Point(m.x * 0.98, m.y * 0.98) else Point(m.x * 0.96, m.y * 0.96)
  }

  /** The entry a scroll adds to the momentum history: its speed in distance per tick. */
  function Speed(d: Point, timeDiff: int): Point
    requires timeDiff > 0
  {
    var k := 1000000.0 / timeDiff as real / MOMENTUM_FPS;
    Point(d.x * k, d.y * k)
  }

  function Enqueued(h: seq<Point>, p: Point): seq<Point> { (if |h| >= HISTORY_SIZE then h[1..] else h) + [p] }

  /** The phases, momentum and history before anything is emitted; `None` when the call is refused after it. */
  function Prepare(s: State, d: Point, timeDiff: int): (State, bool) {
    if s.momentumPhase != PhaseUndefined then
      if IsSlow(d) then
        var s1 := s.(history := [], momentum := ZERO);
        if s.momentumPhase == PhaseBegan then (s1.(momentumPhase := PhaseUndefined), s.phase == PhaseEnded)
        else (s1.(momentumPhase := PhaseEnded), true)
      else (s.(momentum := Damped(s.momentum)), true)
    else if s.phase != PhaseEnded then
      if IsTiny(d) then (s.(history := [], momentum := ZERO), false)
      else if 0 < timeDiff < 1000000 then (s.(history := Enqueued(s.history, Speed(d, timeDiff))), true)
      else (s.(history := [], momentum := ZERO), true)
    else (s, true)
  }

  function Lines(s: State, d: Point): Point
    requires s.perLine.x > 0.0 && s.perLine.y > 0.0
  {
    Point(Pixels(d).x / s.perLine.x, Pixels(d).y / s.perLine.y)
  }

  /** On Windows whole lines wait for the timer. */
  predicate LinesDue(p: Platform, s: State, timeDiff: int) { p.Windows? ==> s.eventTimer + timeDiff >= WINDOWS_UPDATE_RATE }

  function NextPhases(s: State): State {
    if s.phase == PhaseBegan then s.(phase := PhaseChanged)
    else if s.momentumPhase == PhaseBegan then s.(momentumPhase := PhaseChanged)
    else if s.momentumPhase == PhaseEnded then s.(momentumPhase := PhaseUndefined)
    else s
  }

  /** Whole pixels and lines go out, the rest is kept. */
  function Emitted(p: Platform, s: State, d: Point, timeDiff: int): Outcome
    requires s.perLine.x > 0.0 && s.perLine.y > 0.0
  {
    var pixel := Point(s.partialPixel.x + Pixels(d).x, s.partialPixel.y + Pixels(d).y);
    var line := Point(s.partialLine.x + Lines(s, d).x, s.partialLine.y + Lines(s, d).y);
    var px, py := Round(pixel.x), Round(pixel.y);
    var lx, ly := if LinesDue(p, s, timeDiff) then line.x.Floor else 0, if LinesDue(p, s, timeDiff) then line.y.Floor else 0;
    var s1 := s.(partialPixel := Point(pixel.x - px as real, pixel.y - py as real),
                 partialLine := Point(line.x - lx as real, line.y - ly as real),
                 eventTimer := if !p.Windows? then s.eventTimer else if LinesDue(p, s, timeDiff) then 0 else s.eventTimer + timeDiff);
    Outcome(s1, true, px, py, lx, ly, d)
  }

  function Flush(p: Platform, s: State, d: Point, timeDiff: int): Outcome
    requires s.perLine.x > 0.0 && s.perLine.y > 0.0
  {
    var r := Emitted(p, s, d, timeDiff);
    r.(s := NextPhases(r.s))
  }

  predicate TakesScroll(s: State) { s.kind == Some(Scroll) || s.momentumPhase != PhaseUndefined }

  function ApplyScrollTo(p: Platform, s: State, d: Point, timeDiff: int): Outcome
    requires s.perLine.x > 0.0 && s.perLine.y > 0.0
  {
    if !TakesScroll(s) then Quietly(s, false)
    else
      var (s1, go) := Prepare(s, d, timeDiff);
      if go then Flush(p, s1, d, timeDiff) else Quietly(s1, false)
  }

  /** `applyZoom`, `applyRotation` and `applyDesktopSwipe` only ever move the phase on. */
  function ApplyTo(s: State, fits: bool): Outcome {
    if !fits then Quietly(s, false)
    else Quietly(if s.phase == PhaseBegan then s.(phase := PhaseChanged) else s, true)
  }

  function StopMomentum(p: Platform, s: State): Outcome
    requires s.perLine.x > 0.0 && s.perLine.y > 0.0
  {
    if s.momentumPhase != PhaseUndefined then ApplyScrollTo(p, s, ZERO, 0) else Quietly(s, true)
  }

  function BeginGesture(p: Platform, s: State, g: Gesture): Outcome
    requires s.perLine.x > 0.0 && s.perLine.y > 0.0
  {
    if s.kind.Some? then Quietly(s, false)
    else
      var r := StopMomentum(p, s);
      var s1 := State(Some(g), PhaseBegan, PhaseUndefined, ZERO, [], ZERO, ZERO, PerLine(p), r.s.eventTimer);
      r.(s := if g == Zoom || g == Rotate then s1.(phase := PhaseChanged) else s1, ok := true)
  }

  /** One entry considered: its x first, then its y. */
  function Better(best: Point, largest: real, p: Point): (Point, real) {
    var (b1, l1) := if Abs(p.x) > largest then (p, Abs(p.x)) else (best, largest);
    if Abs(p.y) > l1 then (p, Abs(p.y)) else (b1, l1)
  }

  function Pick(h: seq<Point>, best: Point, largest: real): Point
    decreases |h|
  {
    if h == [] then best else var (b, l) := Better(best, largest, h[0]); Pick(h[1..], b, l)
  }

  function EndGesture(p: Platform, s: State): Outcome
    requires s.perLine.x > 0.0 && s.perLine.y > 0.0
  {
    if s.kind.None? || (s.phase != PhaseBegan && s.phase != PhaseChanged) then Quietly(s, false)
    else if s.kind != Some(Scroll) then Quietly(s.(kind := None, phase := PhaseUndefined), true)
    else
      var r := ApplyScrollTo(p, s.(phase := PhaseEnded), ZERO, 0);
      r.(s := r.s.(kind := None, phase := PhaseUndefined, history := [], momentum := Pick(r.s.history, ZERO, 0.0),
                   momentumPhase := if r.s.history != [] then PhaseBegan else r.s.momentumPhase), ok := true)
  }

  /** One heartbeat: `applyMomentum`. */
  function Tick(p: Platform, s: State): Outcome
    requires s.perLine.x > 0.0 && s.perLine.y > 0.0
  {
    if s.momentumPhase == PhaseUndefined then Quietly(s, false) else ApplyScrollTo(p, s, s.momentum, TICK)
  }

  // ---------------------------------------------------------- every call

  /** A call of a gesture mode, with the distances a scroll carries, or a heartbeat. */
  datatype Call = FromMode(e: Event, d: Point, timeDiff: int) | Heartbeat

  /** What holds between calls. */
  ghost predicate Resting(s: State) {
    && (s.kind.None? <==> s.phase == PhaseUndefined)
    && s.phase != PhaseEnded && s.momentumPhase != PhaseEnded
    && (s.kind.Some? ==> s.momentumPhase == PhaseUndefined)
    && s.perLine.x > 0.0 && s.perLine.y > 0.0
  }

  function Serve(p: Platform, s: State, c: Call): Outcome
    requires s.perLine.x > 0.0 && s.perLine.y > 0.0
  {
    match c
    case Heartbeat => Tick(p, s)
    case FromMode(e, d, t) =>
      match e
      case Begin(g) => BeginGesture(p, s, g)
      case End => EndGesture(p, s)
      case ApplyScroll => ApplyScrollTo(p, s, d, t)
      case ApplyZoom => ApplyTo(s, s.kind == Some(Zoom))
      case ApplyRotation => ApplyTo(s, s.kind == Some(Rotate))
      case ApplyDesktopSwipe => ApplyTo(s, IsSwipe(s.kind))
      case ClickDown(_) | ClickUp(_) => Quietly(s, true)
  }

  lemma ScrollRests(p: Platform, s: State, d: Point, timeDiff: int)
    requires Resting(s)
    ensures Resting(ApplyScrollTo(p, s, d, timeDiff).s) && ApplyScrollTo(p, s, d, timeDiff).s.kind == s.kind
  {}

  lemma EndRests(p: Platform, s: State)
    requires Resting(s)
    ensures Resting(EndGesture(p, s).s)
  {}

  /** Between calls the type is none exactly when the phase is undefined, and no call breaks that. */
  lemma ServingRests(p: Platform, s: State, c: Call)
    requires Resting(s)
    ensures Resting(Serve(p, s, c).s)
  {
    match c
    case Heartbeat => ScrollRests(p, s, s.momentum, TICK);
    case FromMode(e, d, t) =>
      match e
      case End => EndRests(p, s);
      case ApplyScroll => ScrollRests(p, s, d, t);
      case _ =>
  }

  /** A call the discipline allows succeeds; a scroll may still be refused for being too small. */
  lemma AllowedCallSucceeds(p: Platform, s: State, c: Call, m: Monitor)
    requires Resting(s) && s.kind == m.open
    requires c.FromMode? && Observe(m, c.e).Some?
    ensures Serve(p, s, c).s.kind == Observe(m, c.e).value.open
    ensures Serve(p, s, c).ok || (c.e == ApplyScroll && IsTiny(c.d))
  {}

  lemma HeartbeatKeepsType(p: Platform, s: State)
    requires Resting(s)
    ensures Serve(p, s, Heartbeat).s.kind == s.kind
  {
    ScrollRests(p, s, s.momentum, TICK);
  }

  /** The calls of the mode, without the heartbeats in between. */
  function EventsOf(calls: seq<Call>): seq<Event> {
    if calls == [] then []
    else EventsOf(calls[..|calls| - 1]) + (match calls[|calls| - 1] case Heartbeat => [] case FromMode(e, _, _) => [e])
  }

  function Plus(a: Point, b: Point): Point { Point(a.x + b.x, a.y + b.y) }

  /** What a list of calls and heartbeats takes in and puts out. */
  datatype Account = Account(s: State, taken: Point, pixelsX: int, pixelsY: int, linesX: int, linesY: int)

  function Entered(a: Account, r: Outcome): Account {
    Account(r.s, Plus(a.taken, r.taken), a.pixelsX + r.pixelsX, a.pixelsY + r.pixelsY, a.linesX + r.linesX, a.linesY + r.linesY)
  }

  function Run(p: Platform, s: State, calls: seq<Call>): (a: Account)
    requires Resting(s)
    ensures Resting(a.s)
  {
    if calls == [] then Account(s, ZERO, 0, 0, 0, 0)
    else
      var a := Run(p, s, calls[..|calls| - 1]);
      ServingRests(p, a.s, calls[|calls| - 1]);
      Entered(a, Serve(p, a.s, calls[|calls| - 1]))
  }

  /** One more call of the mode, or one more heartbeat. */
  lemma MoreEvents(calls: seq<Call>)
    requires calls != [] && Watch(QUIET, EventsOf(calls)).Some?
    ensures var before, c := calls[..|calls| - 1], calls[|calls| - 1];
      && Watch(QUIET, EventsOf(before)).Some?
      && Watch(QUIET, EventsOf(calls)) ==
           if c.FromMode? then Observe(Watch(QUIET, EventsOf(before)).value, c.e) else Watch(QUIET, EventsOf(before))
  {
    var before, c := calls[..|calls| - 1], calls[|calls| - 1];
    if c.Heartbeat? {
      assert EventsOf(before) + [] == EventsOf(before);
    } else {
      WatchConcat(QUIET, EventsOf(before), [c.e]);
      if Watch(QUIET, EventsOf(before)).Some? { WatchOne(Watch(QUIET, EventsOf(before)).value, c.e); }
    }
  }

  lemma {:induction false} PrefixIsWatched(calls: seq<Call>, i: nat)
    requires i <= |calls| && Watch(QUIET, EventsOf(calls)).Some?
    ensures Watch(QUIET, EventsOf(calls[..i])).Some?
    decreases |calls|
  {
    if i == |calls| {
      assert calls[..i] == calls;
    } else {
      MoreEvents(calls);
      PrefixIsWatched(calls[..|calls| - 1], i);
      assert calls[..|calls| - 1][..i] == calls[..i];
    }
  }

  lemma {:induction false} OpenGestureIsTheModes(p: Platform, calls: seq<Call>)
    requires Watch(QUIET, EventsOf(calls)).Some?
    ensures Run(p, FRESH, calls).s.kind == Watch(QUIET, EventsOf(calls)).value.open
    decreases |calls|
  {
    if calls != [] {
      MoreEvents(calls);
      var before, c := calls[..|calls| - 1], calls[|calls| - 1];
      OpenGestureIsTheModes(p, before);
      KindFollows(p, Run(p, FRESH, before).s, c, Watch(QUIET, EventsOf(before)).value);
    }
  }

  lemma KindFollows(p: Platform, s: State, c: Call, m: Monitor)
    requires Resting(s) && s.kind == m.open && (c.FromMode? ==> Observe(m, c.e).Some?)
    ensures Serve(p, s, c).s.kind == if c.FromMode? then Observe(m, c.e).value.open else m.open
  {
    if c.Heartbeat? { HeartbeatKeepsType(p, s); } else { AllowedCallSucceeds(p, s, c, m); }
  }

  /**
    From construction, under any placement of heartbeats: as long as the mode's calls keep the discipline, the
    open gesture is the mode's, and every call made succeeds unless it is a scroll of almost nothing.
   */
  lemma DisciplinedCallsSucceed(p: Platform, calls: seq<Call>)
    requires Watch(QUIET, EventsOf(calls)).Some?
    ensures Run(p, FRESH, calls).s.kind == Watch(QUIET, EventsOf(calls)).value.open
    ensures forall i | 0 <= i < |calls| && calls[i].FromMode? ::
      Serve(p, Run(p, FRESH, calls[..i]).s, calls[i]).ok || (calls[i].e == ApplyScroll && IsTiny(calls[i].d))
  {
    OpenGestureIsTheModes(p, calls);
    forall i | 0 <= i < |calls| && calls[i].FromMode?
      ensures Serve(p, Run(p, FRESH, calls[..i]).s, calls[i]).ok || (calls[i].e == ApplyScroll && IsTiny(calls[i].d))
    {
      CallSucceeds(p, calls, i);
    }
  }

  lemma CallSucceeds(p: Platform, calls: seq<Call>, i: nat)
    requires Watch(QUIET, EventsOf(calls)).Some?
    requires i < |calls| && calls[i].FromMode?
    ensures Serve(p, Run(p, FRESH, calls[..i]).s, calls[i]).ok || (calls[i].e == ApplyScroll && IsTiny(calls[i].d))
  {
    PrefixIsWatched(calls, i + 1);
    assert calls[..i + 1][..i] == calls[..i];
    MoreEvents(calls[..i + 1]);
    OpenGestureIsTheModes(p, calls[..i]);
    AllowedCallSucceeds(p, Run(p, FRESH, calls[..i]).s, calls[i], Watch(QUIET, EventsOf(calls[..i])).value);
  }
}
