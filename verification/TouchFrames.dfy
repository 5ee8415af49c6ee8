/**
  What one call of `setTouches` announces (source/OSInteraction/TouchManager.cpp:48-83), the Windows 8 contact
  reports it turns into (source/OSInteraction/TouchManagerWin8.cpp:13-84), and both over whole runs.
 */
module TouchFrames {
  import opened ValueTree
  import opened TouchSets

  datatype Event = Added(touch: Touch) | Updated(prior: Touch, touch: Touch) | Removed(prior: Touch)

  function IdOf(e: Event): nat { if e.Added? then e.touch.id else e.prior.id }

  /** The loop over the touches held so far. */
  function Removals(held: seq<Touch>, next: seq<Touch>): seq<Event> {
    if held == [] then []
    else
      var t := held[|held| - 1];
      Removals(held[..|held| - 1], next) + (if Lookup(next, t.id).None? then [Removed(t)] else [])
  }

  /** What that loop leaves. */
  function Kept(held: seq<Touch>, next: seq<Touch>): seq<Touch> {
    if held == [] then []
    else
      var t := held[|held| - 1];
      Kept(held[..|held| - 1], next) + (if Lookup(next, t.id).None? then [] else [t])
  }

  function Arrival(held: seq<Touch>, t: Touch): Event {
    match Lookup(held, t.id) case None => Added(t) case Some(o) => Updated(o, t)
  }

  /** The loop over the new touches. */
  function Arrivals(held: seq<Touch>, next: seq<Touch>): seq<Event> {
    if next == [] then [] else Arrivals(held, next[..|next| - 1]) + [Arrival(held, next[|next| - 1])]
  }

  function FrameEvents(held: seq<Touch>, next: seq<Touch>): seq<Event> { Removals(held, next) + Arrivals(held, next) }

  // ------------------------------------------------- the events of one id

  function OnId(events: seq<Event>, id: nat): seq<Event> {
    if events == [] then []
    else OnId(events[..|events| - 1], id) + (if IdOf(events[|events| - 1]) == id then [events[|events| - 1]] else [])
  }

  lemma {:induction false} OnIdConcat(a: seq<Event>, b: seq<Event>, id: nat)
    ensures OnId(a + b, id) == OnId(a, id) + OnId(b, id)
    decreases |b|
  {
    if b == [] {
      assert a + b == a;
    } else {
      OnIdConcat(a, b[..|b| - 1], id);
      assert (a + b)[..|a + b| - 1] == a + b[..|b| - 1];
    }
  }

  lemma OnIdOne(e: Event, id: nat)
    ensures OnId([e], id) == if IdOf(e) == id then [e] else []
  {
    assert [e][..0] == [];
  }

  /** What a touch that was `a` and becomes `b` has to see. */
  function Expected(a: Option<Touch>, b: Option<Touch>): seq<Event> {
    match (a, b)
    case (None, None) => []
    case (None, Some(t)) => [Added(t)]
    case (Some(o), None) => [Removed(o)]
    case (Some(o), Some(t)) => [Updated(o, t)]
  }

  lemma LastIsNew(s: seq<Touch>)
    requires Ordered(s) && s != []
    ensures Lookup(s[..|s| - 1], s[|s| - 1].id).None?
  {
    LookupIsElement(s[..|s| - 1], s[|s| - 1].id);
  }

  lemma {:induction false} RemovalsOnId(held: seq<Touch>, next: seq<Touch>, id: nat)
    requires Ordered(held)
    ensures OnId(Removals(held, next), id) ==
      if Lookup(held, id).Some? && Lookup(next, id).None? then [Removed(Lookup(held, id).value)] else []
    decreases |held|
  {
    if held != [] {
      var before, t := held[..|held| - 1], held[|held| - 1];
      var gone := if Lookup(next, t.id).None? then [Removed(t)] else [];
      RemovalsOnId(before, next, id);
      LastIsNew(held);
      OnIdConcat(Removals(before, next), gone, id);
      OnIdOne(Removed(t), id);
      assert OnId([], id) == [];
    }
  }

  lemma {:induction false} ArrivalsOnId(held: seq<Touch>, next: seq<Touch>, id: nat)
    requires Ordered(next)
    ensures OnId(Arrivals(held, next), id) ==
      if Lookup(next, id).Some? then Expected(Lookup(held, id), Lookup(next, id)) else []
    decreases |next|
  {
    if next != [] {
      var before, t := next[..|next| - 1], next[|next| - 1];
      ArrivalsOnId(held, before, id);
      LookupIsElement(before, t.id);
      OnIdConcat(Arrivals(held, before), [Arrival(held, t)], id);
      OnIdOne(Arrival(held, t), id);
    }
  }

  /** In one frame an id sees exactly the one event its change of state calls for. */
  lemma FrameOnId(held: seq<Touch>, next: seq<Touch>, id: nat)
    requires Ordered(held) && Ordered(next)
    ensures OnId(FrameEvents(held, next), id) == Expected(Lookup(held, id), Lookup(next, id))
  {
    RemovalsOnId(held, next, id);
    ArrivalsOnId(held, next, id);
    OnIdConcat(Removals(held, next), Arrivals(held, next), id);
  }

  // -------------------------------------------------- the life of one touch

  ghost predicate AllOrdered(frames: seq<seq<Touch>>) { forall i | 0 <= i < |frames| :: Ordered(frames[i]) }

  /** The set held after a run from construction. */
  function Held(frames: seq<seq<Touch>>): seq<Touch> { if frames == [] then [] else frames[|frames| - 1] }

  /** Everything announced in a run. */
  function RunEvents(frames: seq<seq<Touch>>): seq<Event> {
    if frames == [] then []
    else RunEvents(frames[..|frames| - 1]) + FrameEvents(Held(frames[..|frames| - 1]), frames[|frames| - 1])
  }

  /** Add, any number of updates each from the value last announced, remove, and so on. */
  function Live(state: Option<Touch>, e: Event): Option<Option<Touch>> {
    match e
    case Added(t) => if state.None? then Some(Some(t)) else None
    case Updated(o, t) => if state == Some(o) && o.id == t.id then Some(Some(t)) else None
    case Removed(o) => if state == Some(o) then Some(None) else None
  }

  function LiveAll(state: Option<Touch>, events: seq<Event>): Option<Option<Touch>> {
    if events == [] then Some(state)
    else match LiveAll(state, events[..|events| - 1]) case None => None case Some(s) => Live(s, events[|events| - 1])
  }

  lemma {:induction false} LiveAllConcat(state: Option<Touch>, a: seq<Event>, b: seq<Event>)
    ensures LiveAll(state, a + b) == match LiveAll(state, a) case None => None case Some(s) => LiveAll(s, b)
    decreases |b|
  {
    if b == [] {
      assert a + b == a;
    } else {
      LiveAllConcat(state, a, b[..|b| - 1]);
      assert (a + b)[..|a + b| - 1] == a + b[..|b| - 1];
    }
  }

  lemma LiveExpected(a: Option<Touch>, b: Option<Touch>)
    requires a.Some? && b.Some? ==> a.value.id == b.value.id
    ensures LiveAll(a, Expected(a, b)) == Some(b)
  {
    var e := Expected(a, b);
    if e != [] { assert e[..0] == []; }
  }

  /** Over any run every id sees add, updates, remove in that order, and ends as the last set passed says. */
  lemma {:induction false} EveryTouchLives(frames: seq<seq<Touch>>, id: nat)
    requires AllOrdered(frames)
    ensures LiveAll(None, OnId(RunEvents(frames), id)) == Some(Lookup(Held(frames), id))
    decreases |frames|
  {
    if frames != [] {
      var before, next := frames[..|frames| - 1], frames[|frames| - 1];
      EveryTouchLives(before, id);
      FrameOnId(Held(before), next, id);
      OnIdConcat(RunEvents(before), FrameEvents(Held(before), next), id);
      LiveAllConcat(None, OnId(RunEvents(before), id), OnId(FrameEvents(Held(before), next), id));
      LiveExpected(Lookup(Held(before), id), Lookup(next, id));
    }
  }

  // ------------------------------------------------------ contact reports

  const MAX_TOUCH_COUNT := 256

  /** The fields of a contact that vary. */
  datatype Report = Report(pointerId: nat, inRange: bool, inContact: bool, down: bool, up: bool, update: bool, x: int, y: int)

  /** Conversion of a double to a LONG: towards zero. */
  function Truncate(x: real): int { if x >= 0.0 then x.Floor else -(-x).Floor }

  function Translate(t: Touch, inRange: bool, inContact: bool, down: bool, up: bool, update: bool): Report {
    Report(t.id % MAX_TOUCH_COUNT, inRange, inContact, down, up, update, Truncate(t.x - 0.5), Truncate(t.y + 0.5))
  }

  function ReportOf(e: Event): Report {
    match e
    case Added(t) => if t.touching then Translate(t, true, true, true, false, false) else Translate(t, true, false, false, false, true)
    case Removed(o) => if o.touching then Translate(o, false, false, false, true, false) else Translate(o, false, false, false, false, true)
    case Updated(o, t) =>
      if t.touching && o.touching then Translate(t, true, true, false, false, true)
      else if t.touching then Translate(t, true, true, true, false, false)
      else if o.touching then Translate(o, true, false, false, true, false)
      else Translate(t, true, false, false, false, true)
  }

  function ReportsOf(events: seq<Event>): (r: seq<Report>)
    ensures |r| == |events|
  {
    seq(|events|, i requires 0 <= i < |events| => ReportOf(events[i]))
  }

  /** DOWN only when up, UP only when down, and an update says which it is. */
  function Contact(down: bool, r: Report): Option<bool> {
    if r.down then if down then None else Some(true)
    else if r.up then if down then Some(false) else None
    else if r.inContact == down then Some(down) else None
  }

  function ContactAll(down: bool, reports: seq<Report>): Option<bool> {
    if reports == [] then Some(down)
    else match ContactAll(down, reports[..|reports| - 1]) case None => None case Some(d) => Contact(d, reports[|reports| - 1])
  }

  lemma {:induction false} ContactAllConcat(down: bool, a: seq<Report>, b: seq<Report>)
    ensures ContactAll(down, a + b) == match ContactAll(down, a) case None => None case Some(d) => ContactAll(d, b)
    decreases |b|
  {
    if b == [] {
      assert a + b == a;
    } else {
      ContactAllConcat(down, a, b[..|b| - 1]);
      assert (a + b)[..|a + b| - 1] == a + b[..|b| - 1];
    }
  }

  predicate IsDown(t: Option<Touch>) { t.Some? && t.value.touching }

  lemma ContactExpected(a: Option<Touch>, b: Option<Touch>)
    ensures ContactAll(IsDown(a), ReportsOf(Expected(a, b))) == Some(IsDown(b))
  {
    var r := ReportsOf(Expected(a, b));
    if r != [] { assert r[..0] == []; }
  }

  lemma ReportsOfConcat(a: seq<Event>, b: seq<Event>)
    ensures ReportsOf(a + b) == ReportsOf(a) + ReportsOf(b)
  {}

  /** Over any run the reports of one touch alternate DOWN and UP, DOWN first, and end as the last set passed says. */
  lemma {:induction false} EveryTouchAlternates(frames: seq<seq<Touch>>, id: nat)
    requires AllOrdered(frames)
    ensures ContactAll(false, ReportsOf(OnId(RunEvents(frames), id))) == Some(IsDown(Lookup(Held(frames), id)))
    decreases |frames|
  {
    if frames != [] {
      var before, next := frames[..|frames| - 1], frames[|frames| - 1];
      EveryTouchAlternates(before, id);
      FrameOnId(Held(before), next, id);
      var a, b := OnId(RunEvents(before), id), OnId(FrameEvents(Held(before), next), id);
      OnIdConcat(RunEvents(before), FrameEvents(Held(before), next), id);
      ReportsOfConcat(a, b);
      ContactAllConcat(false, ReportsOf(a), ReportsOf(b));
      ContactExpected(Lookup(Held(before), id), Lookup(next, id));
    }
  }

  /** After `clearTouches` no touch is down. */
  lemma NoneDownAfterClear(frames: seq<seq<Touch>>, id: nat)
    requires AllOrdered(frames) && Held(frames) == []
    ensures ContactAll(false, ReportsOf(OnId(RunEvents(frames), id))) == Some(false)
  {
    EveryTouchAlternates(frames, id);
  }

  // ------------------------------------------------ where and how a report lands

  /** The fraction is dropped. */
  ghost predicate IsTruncationOf(n: int, x: real) {
    if x >= 0.0 then n as real <= x < n as real + 1.0 else n as real - 1.0 < x <= n as real
  }

  /** The pixel of a touch, half a pixel to the left and half a pixel down, under its pointer. */
  ghost predicate LandsAt(r: Report, t: Touch) {
    r.pointerId == t.id % 256 && IsTruncationOf(r.x, t.x - 0.5) && IsTruncationOf(r.y, t.y + 0.5)
  }

  lemma TranslatedLands(t: Touch, inRange: bool, inContact: bool, down: bool, up: bool, update: bool)
    ensures LandsAt(Translate(t, inRange, inContact, down, up, update), t)
  {}

  /** The touch whose place is reported: the new one, but a finger that lifts is reported where it last touched. */
  function Reported(a: Option<Touch>, b: Option<Touch>): Touch
    requires a.Some? || b.Some?
  {
    if b.None? || (IsDown(a) && !IsDown(b)) then a.value else b.value
  }

  /** The one report of a frame on a touch that was `a` and becomes `b`. */
  ghost predicate Tells(r: Report, a: Option<Touch>, b: Option<Touch>)
    requires a.Some? || b.Some?
  {
    && LandsAt(r, Reported(a, b))
    && (r.inRange <==> b.Some?)
    && (r.inContact <==> IsDown(b))
    && (r.down <==> IsDown(b) && !IsDown(a))
    && (r.up <==> IsDown(a) && !IsDown(b))
    && (r.update <==> !r.down && !r.up)
  }

  lemma ExpectedTells(a: Option<Touch>, b: Option<Touch>)
    ensures var r := ReportsOf(Expected(a, b)); if a.None? && b.None? then r == [] else |r| == 1 && Tells(r[0], a, b)
  {
    if a.Some? || b.Some? {
      var r := ReportsOf(Expected(a, b))[0];
      TranslatedLands(Reported(a, b), r.inRange, r.inContact, r.down, r.up, r.update);
    }
  }

  /** In one frame an id is reported once if it was or is held, at its place and for what became of it, and else not at all. */
  lemma FrameTells(held: seq<Touch>, next: seq<Touch>, id: nat)
    requires Ordered(held) && Ordered(next)
    ensures var r, a, b := ReportsOf(OnId(FrameEvents(held, next), id)), Lookup(held, id), Lookup(next, id);
      if a.None? && b.None? then r == [] else |r| == 1 && Tells(r[0], a, b)
  {
    FrameOnId(held, next, id);
    ExpectedTells(Lookup(held, id), Lookup(next, id));
  }

  /** Over any run the last report on a touch is in range exactly when it is still held. */
  lemma {:induction false} LastReportIsInRangeIff(frames: seq<seq<Touch>>, id: nat)
    requires AllOrdered(frames)
    ensures var r := ReportsOf(OnId(RunEvents(frames), id));
      Lookup(Held(frames), id).Some? <==> r != [] && r[|r| - 1].inRange
    decreases |frames|
  {
    if frames != [] {
      var before, next := frames[..|frames| - 1], frames[|frames| - 1];
      LastReportIsInRangeIff(before, id);
      FrameTells(Held(before), next, id);
      var a, b := OnId(RunEvents(before), id), OnId(FrameEvents(Held(before), next), id);
      OnIdConcat(RunEvents(before), FrameEvents(Held(before), next), id);
      ReportsOfConcat(a, b);
    }
  }

  // ------------------------------------------- pointer ids are taken modulo 256

  function OnPointer(events: seq<Event>, p: nat): seq<Event> {
    if events == [] then []
    else OnPointer(events[..|events| - 1], p) + (if IdOf(events[|events| - 1]) % MAX_TOUCH_COUNT == p then [events[|events| - 1]] else [])
  }

  predicate Involved(held: seq<Touch>, next: seq<Touch>, id: nat) { Lookup(held, id).Some? || Lookup(next, id).Some? }

  /** No two ids of the frame, old or new, share a pointer. */
  ghost predicate Apart(held: seq<Touch>, next: seq<Touch>) {
    forall a: nat, b: nat | Involved(held, next, a) && Involved(held, next, b) && a % MAX_TOUCH_COUNT == b % MAX_TOUCH_COUNT :: a == b
  }

  lemma {:induction false} PointerHasTwo(events: seq<Event>, a: nat, b: nat)
    requires a != b && a % MAX_TOUCH_COUNT == b % MAX_TOUCH_COUNT
    ensures |OnPointer(events, a % MAX_TOUCH_COUNT)| >= |OnId(events, a)| + |OnId(events, b)|
    decreases |events|
  {
    if events != [] { PointerHasTwo(events[..|events| - 1], a, b); }
  }

  lemma {:induction false} PointerHasOne(events: seq<Event>, a: nat)
    requires forall e | e in events && IdOf(e) % MAX_TOUCH_COUNT == a % MAX_TOUCH_COUNT :: IdOf(e) == a
    ensures OnPointer(events, a % MAX_TOUCH_COUNT) == OnId(events, a)
    decreases |events|
  {
    if events != [] { PointerHasOne(events[..|events| - 1], a); }
  }

  lemma {:induction false} EventIsOnItsId(events: seq<Event>, e: Event)
    requires e in events
    ensures OnId(events, IdOf(e)) != []
    decreases |events|
  {
    if e != events[|events| - 1] { EventIsOnItsId(events[..|events| - 1], e); }
  }

  lemma EventsAreInvolved(held: seq<Touch>, next: seq<Touch>)
    requires Ordered(held) && Ordered(next)
    ensures forall e | e in FrameEvents(held, next) :: Involved(held, next, IdOf(e))
  {
    forall e | e in FrameEvents(held, next) ensures Involved(held, next, IdOf(e)) {
      EventIsOnItsId(FrameEvents(held, next), e);
      FrameOnId(held, next, IdOf(e));
    }
  }

  /** When the ids are apart a pointer sees what its one touch sees. */
  lemma PointerFollowsTouch(held: seq<Touch>, next: seq<Touch>, id: nat)
    requires Ordered(held) && Ordered(next) && Apart(held, next) && Involved(held, next, id)
    ensures OnPointer(FrameEvents(held, next), id % MAX_TOUCH_COUNT) == Expected(Lookup(held, id), Lookup(next, id))
  {
    EventsAreInvolved(held, next);
    PointerHasOne(FrameEvents(held, next), id);
    FrameOnId(held, next, id);
  }

  lemma {:induction false} IdlePointer(events: seq<Event>, p: nat)
    requires forall e | e in events :: IdOf(e) % MAX_TOUCH_COUNT != p
    ensures OnPointer(events, p) == []
    decreases |events|
  {
    if events != [] { IdlePointer(events[..|events| - 1], p); }
  }

  /** A frame sends at most one report per pointer exactly when its ids are apart. */
  lemma OneReportPerPointerIff(held: seq<Touch>, next: seq<Touch>)
    requires Ordered(held) && Ordered(next)
    ensures (forall p :: |OnPointer(FrameEvents(held, next), p)| <= 1) <==> Apart(held, next)
  {
    var events := FrameEvents(held, next);
    if Apart(held, next) {
      forall p ensures |OnPointer(events, p)| <= 1 {
        OneReport(held, next, p);
      }
    } else {
      var a: nat, b: nat :| Involved(held, next, a) && Involved(held, next, b) && a % MAX_TOUCH_COUNT == b % MAX_TOUCH_COUNT && a != b;
      FrameOnId(held, next, a);
      FrameOnId(held, next, b);
      PointerHasTwo(events, a, b);
      assert |OnPointer(events, a % MAX_TOUCH_COUNT)| > 1;
    }
  }

  lemma OneReport(held: seq<Touch>, next: seq<Touch>, p: nat)
    requires Ordered(held) && Ordered(next) && Apart(held, next)
    ensures |OnPointer(FrameEvents(held, next), p)| <= 1
  {
    var events := FrameEvents(held, next);
    if e :| e in events && IdOf(e) % MAX_TOUCH_COUNT == p {
      EventsAreInvolved(held, next);
      PointerFollowsTouch(held, next, IdOf(e));
    } else {
      IdlePointer(events, p);
    }
  }

  ghost predicate PointerDown(s: seq<Touch>, p: nat) { exists id: nat :: IsDown(Lookup(s, id)) && id % MAX_TOUCH_COUNT == p }

  lemma PointerIsItsTouch(held: seq<Touch>, next: seq<Touch>, s: seq<Touch>, id: nat)
    requires Apart(held, next) && Involved(held, next, id) && (s == held || s == next)
    ensures PointerDown(s, id % MAX_TOUCH_COUNT) == IsDown(Lookup(s, id))
  {
    if PointerDown(s, id % MAX_TOUCH_COUNT) {
      var b: nat :| IsDown(Lookup(s, b)) && b % MAX_TOUCH_COUNT == id % MAX_TOUCH_COUNT;
      assert Involved(held, next, b);
    }
  }

  lemma PointerStep(held: seq<Touch>, next: seq<Touch>, p: nat)
    requires Ordered(held) && Ordered(next) && Apart(held, next)
    ensures ContactAll(PointerDown(held, p), ReportsOf(OnPointer(FrameEvents(held, next), p))) == Some(PointerDown(next, p))
  {
    if id: nat :| Involved(held, next, id) && id % MAX_TOUCH_COUNT == p {
      PointerFollowsTouch(held, next, id);
      ContactExpected(Lookup(held, id), Lookup(next, id));
      PointerIsItsTouch(held, next, held, id);
      PointerIsItsTouch(held, next, next, id);
    } else {
      EventsAreInvolved(held, next);
      IdlePointer(FrameEvents(held, next), p);
      assert forall id: nat :: IsDown(Lookup(held, id)) || IsDown(Lookup(next, id)) ==> Involved(held, next, id);
    }
  }

  lemma {:induction false} OnPointerConcat(a: seq<Event>, b: seq<Event>, p: nat)
    ensures OnPointer(a + b, p) == OnPointer(a, p) + OnPointer(b, p)
    decreases |b|
  {
    if b == [] {
      assert a + b == a;
    } else {
      OnPointerConcat(a, b[..|b| - 1], p);
      assert (a + b)[..|a + b| - 1] == a + b[..|b| - 1];
    }
  }

  ghost predicate AllApart(frames: seq<seq<Touch>>) {
    frames == [] || (AllApart(frames[..|frames| - 1]) && Apart(Held(frames[..|frames| - 1]), frames[|frames| - 1]))
  }

  /** Over any run whose frames keep their ids apart, every pointer alternates as well. */
  lemma {:induction false} EveryPointerAlternates(frames: seq<seq<Touch>>, p: nat)
    requires AllOrdered(frames) && AllApart(frames)
    ensures ContactAll(false, ReportsOf(OnPointer(RunEvents(frames), p))) == Some(PointerDown(Held(frames), p))
    decreases |frames|
  {
    if frames != [] {
      var before, next := frames[..|frames| - 1], frames[|frames| - 1];
      EveryPointerAlternates(before, p);
      PointerStep(Held(before), next, p);
      var a, b := OnPointer(RunEvents(before), p), OnPointer(FrameEvents(Held(before), next), p);
      OnPointerConcat(RunEvents(before), FrameEvents(Held(before), next), p);
      ReportsOfConcat(a, b);
      ContactAllConcat(false, ReportsOf(a), ReportsOf(b));
    }
  }
}
