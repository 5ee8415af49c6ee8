/**
  What the three gesture modes send to the operating system (source/GestureInteraction/GestureInteractionManager.cpp:287-317),
  and the discipline those calls must keep.
 */
module GestureTrace {
  import opened ValueTree

  datatype Gesture = Scroll | Zoom | Rotate | DesktopSwipeHorizontal | DesktopSwipeVertical

  datatype Event =
    | ClickDown(number: int)
    | ClickUp(number: int)
    | Begin(gesture: Gesture)
    | End
    | ApplyScroll
    | ApplyZoom
    | ApplyRotation
    | ApplyDesktopSwipe

  /** An observer of the calls: the gesture that is open and whether the button is down. */
  datatype Monitor = Monitor(open: Option<Gesture>, down: bool)

  const QUIET := Monitor(None, false)

  predicate IsSwipe(g: Option<Gesture>) { g == Some(DesktopSwipeHorizontal) || g == Some(DesktopSwipeVertical) }

  /** The call that moves an open gesture on. */
  function ApplyOf(g: Gesture): Event {
    match g
    case Scroll => ApplyScroll
    case Zoom => ApplyZoom
    case Rotate => ApplyRotation
    case _ => ApplyDesktopSwipe
  }

  /** One call: `None` when it breaks the discipline. */
  function Observe(m: Monitor, e: Event): Option<Monitor> {
    match e
    case ClickDown(n) => if !m.down && 1 <= n <= 3 then Some(m.(down := true)) else None
    case ClickUp(_) => if m.down then Some(m.(down := false)) else None
    case Begin(g) => if m.open.None? then Some(m.(open := Some(g))) else None
    case End => if m.open.Some? then Some(m.(open := None)) else None
    case ApplyScroll => if m.open == Some(Scroll) then Some(m) else None
    case ApplyZoom => if m.open == Some(Zoom) then Some(m) else None
    case ApplyRotation => if m.open == Some(Rotate) then Some(m) else None
    case ApplyDesktopSwipe => if IsSwipe(m.open) then Some(m) else None
  }

  function Watch(m: Monitor, events: seq<Event>): Option<Monitor>
    decreases |events|
  {
    if events == [] then Some(m)
    else match Observe(m, events[0]) case None => None case Some(m1) => Watch(m1, events[1..])
  }

  lemma {:induction false} WatchConcat(m: Monitor, a: seq<Event>, b: seq<Event>)
    ensures Watch(m, a + b) == match Watch(m, a) case None => None case Some(m1) => Watch(m1, b)
    decreases |a|
  {
    if a == [] {
      assert a + b == b;
    } else {
      assert (a + b)[1..] == a[1..] + b;
      match Observe(m, a[0])
      case None =>
      case Some(m1) => WatchConcat(m1, a[1..], b);
    }
  }

  lemma WatchOne(m: Monitor, e: Event)
    ensures Watch(m, [e]) == Observe(m, e)
  {
    assert [e][1..] == [];
  }

  lemma WatchTwo(m: Monitor, d: Event, e: Event)
    ensures Watch(m, [d, e]) == match Observe(m, d) case None => None case Some(m1) => Observe(m1, e)
  {
    assert [d, e][1..] == [e];
    match Observe(m, d)
    case None =>
    case Some(m1) => WatchOne(m1, e);
  }

  lemma Assoc(a: seq<Event>, b: seq<Event>, c: seq<Event>)
    ensures (a + b) + c == a + (b + c)
  {}
}
