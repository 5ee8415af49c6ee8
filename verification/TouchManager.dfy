/**
  The touch manager of source/OSInteraction/TouchManager.cpp with its Windows 8 half
  (source/OSInteraction/TouchManagerWin8.cpp), proved against TouchFrames.
 */
module TouchManager {
  import opened ValueTree
  import opened TouchSets
  import opened TouchFrames

  class TouchManager {
    var touches: seq<Touch>
    var touchQueue: seq<Report>
    ghost var announced: seq<Event>
    ghost var injected: seq<seq<Report>>

    /** Between calls nothing is queued. */
    ghost predicate Valid()
      reads this
    {
      Ordered(touches) && touchQueue == []
    }

    constructor ()
      ensures Valid() && touches == [] && announced == [] && injected == []
    {
      touches, touchQueue, announced, injected := [], [], [], [];
    }

    method TranslateAndSend(t: Touch, inRange: bool, inContact: bool, down: bool, up: bool, update: bool)
      modifies this`touchQueue
      ensures touchQueue == old(touchQueue) + [Translate(t, inRange, inContact, down, up, update)]
    {
      var x, y := Truncate(t.x - 0.5), Truncate(t.y + 0.5);
      touchQueue := touchQueue + [Report(t.id % MAX_TOUCH_COUNT, inRange, inContact, down, up, update, x, y)];
    }

    method AddTouch(t: Touch)
      modifies this`touchQueue, this`announced
      ensures announced == old(announced) + [Added(t)] && touchQueue == old(touchQueue) + [ReportOf(Added(t))]
    {
      if t.touching {
        TranslateAndSend(t, true, true, true, false, false);
      } else {
        TranslateAndSend(t, true, false, false, false, true);
      }
      announced := announced + [Added(t)];
    }

    method UpdateTouch(o: Touch, t: Touch)
      modifies this`touchQueue, this`announced
      ensures announced == old(announced) + [Updated(o, t)] && touchQueue == old(touchQueue) + [ReportOf(Updated(o, t))]
    {
      if t.touching && o.touching {
        TranslateAndSend(t, true, true, false, false, true);
      } else if t.touching && !o.touching {
        TranslateAndSend(t, true, true, true, false, false);
      } else if !t.touching && o.touching {
        TranslateAndSend(o, true, false, false, true, false);
      } else {
        TranslateAndSend(t, true, false, false, false, true);
      }
      announced := announced + [Updated(o, t)];
    }

    method RemoveTouch(o: Touch)
      modifies this`touchQueue, this`announced
      ensures announced == old(announced) + [Removed(o)] && touchQueue == old(touchQueue) + [ReportOf(Removed(o))]
    {
      if o.touching {
        TranslateAndSend(o, false, false, false, true, false);
      } else {
        TranslateAndSend(o, false, false, false, false, true);
      }
      announced := announced + [Removed(o)];
    }

    method FinishFrame()
      modifies this`touchQueue, this`injected
      ensures touchQueue == []
      ensures injected == if old(touchQueue) != [] then old(injected) + [old(touchQueue)] else old(injected)
    {
      if touchQueue != [] {
        injected := injected + [touchQueue];
        touchQueue := [];
      }
    }

    method RemoveMissing(next: seq<Touch>)
      requires Valid()
      modifies this`touches, this`touchQueue, this`announced
      ensures touches == Kept(old(touches), next)
      ensures announced == old(announced) + Removals(old(touches), next)
      ensures touchQueue == ReportsOf(Removals(old(touches), next))
    {
      ghost var held := touches;
      ghost var done := 0;
      var i := 0;
      while i < |touches|
        invariant done <= |held| && i == |Kept(held[..done], next)|
        invariant touches == Kept(held[..done], next) + held[done..]
        invariant announced == old(announced) + Removals(held[..done], next)
        invariant touchQueue == ReportsOf(Removals(held[..done], next))
        decreases |held| - done
      {
        RemovalStep(held, next, done);
        var t := touches[i];
        if Lookup(next, t.id).None? {
          RemoveTouch(t);
          touches := touches[..i] + touches[i + 1..];
        } else {
          i := i + 1;
        }
        done := done + 1;
      }
      assert held[..done] == held;
    }

    /** One new touch. */
    method Take(t: Touch)
      requires Ordered(touches)
      modifies this`touches, this`touchQueue, this`announced
      ensures Ordered(touches)
      ensures forall id :: Lookup(touches, id) == if id == t.id then Some(t) else Lookup(old(touches), id)
      ensures announced == old(announced) + [Arrival(old(touches), t)]
      ensures touchQueue == old(touchQueue) + [ReportOf(Arrival(old(touches), t))]
    {
      var prior := Lookup(touches, t.id);
      PutStep(touches, t);
      if prior.None? {
        AddTouch(t);
        touches := Put(touches, t);
      } else {
        UpdateTouch(prior.value, t);
        touches := Drop(touches, t.id);
        touches := Put(touches, t);
      }
    }

    method SetTouches(next: seq<Touch>)
      requires Valid() && Ordered(next)
      modifies this
      ensures Valid() && touches == next
      ensures announced == old(announced) + FrameEvents(old(touches), next)
      ensures var events := FrameEvents(old(touches), next);
        injected == if events != [] then old(injected) + [ReportsOf(events)] else old(injected)
    {
      ghost var held := touches;
      RemoveMissing(next);
      ghost var gone := Removals(held, next);
      KeptHolds(held, next);
      for j := 0 to |next|
        invariant Ordered(touches)
        invariant forall id :: Lookup(touches, id) == Midway(held, next, j, id)
        invariant announced == old(announced) + (gone + Arrivals(held, next[..j]))
        invariant touchQueue == ReportsOf(gone + Arrivals(held, next[..j]))
        invariant injected == old(injected)
      {
        MidwayIsBefore(held, next, j);
        ghost var sofar := touches;
        Take(next[j]);
        MidwayStep(held, next, j, sofar, touches);
        ArrivalStep(held, next, j, gone);
      }
      MidwayAtEnd(held, next, touches);
      assert next[..|next|] == next;
      FinishFrame();
    }

    method ClearTouches()
      requires Valid()
      modifies this
      ensures Valid() && touches == []
      ensures announced == old(announced) + FrameEvents(old(touches), [])
    {
      if touches != [] {
        SetTouches([]);
      }
    }
  }

  // ------------------------------------------------- the set half way through

  /** One turn of the loop that removes: `done` touches looked at, the rest still to come. */
  lemma RemovalStep(held: seq<Touch>, next: seq<Touch>, done: nat)
    requires done < |held|
    ensures var k, r, t := Kept(held[..done], next), Removals(held[..done], next), held[done];
      && (k + held[done..])[|k|] == t
      && (if Lookup(next, t.id).None? then
            && Kept(held[..done + 1], next) == k && Removals(held[..done + 1], next) == r + [Removed(t)]
            && (k + held[done..])[..|k|] + (k + held[done..])[|k| + 1..] == k + held[done + 1..]
            && ReportsOf(r + [Removed(t)]) == ReportsOf(r) + [ReportOf(Removed(t))]
          else
            && Kept(held[..done + 1], next) == k + [t] && Removals(held[..done + 1], next) == r
            && k + held[done..] == k + [t] + held[done + 1..])
  {
    assert held[..done + 1][..done] == held[..done];
    assert Removals(held[..done], next) + [] == Removals(held[..done], next);
    assert Kept(held[..done], next) + [] == Kept(held[..done], next);
  }

  /** What a lookup finds after the first `j` new touches. */
  function Midway(held: seq<Touch>, next: seq<Touch>, j: nat, id: nat): Option<Touch>
    requires j <= |next|
  {
    if Lookup(next[..j], id).Some? then Lookup(next[..j], id) else Lookup(Kept(held, next), id)
  }

  lemma {:induction false} KeptIsOrdered(held: seq<Touch>, next: seq<Touch>)
    requires Ordered(held)
    ensures forall t | t in Kept(held, next) :: t in held
    ensures Ordered(Kept(held, next))
    decreases |held|
  {
    if held != [] {
      var before, t := held[..|held| - 1], held[|held| - 1];
      KeptIsOrdered(before, next);
      var k := Kept(before, next);
      assert forall i | 0 <= i < |k| :: k[i] in before && k[i].id < t.id;
    }
  }

  lemma {:induction false} KeptIsHeld(held: seq<Touch>, next: seq<Touch>, id: nat)
    requires Ordered(held)
    ensures Lookup(Kept(held, next), id) == if Lookup(next, id).Some? then Lookup(held, id) else None
    decreases |held|
  {
    if held != [] {
      var before, t := held[..|held| - 1], held[|held| - 1];
      KeptIsHeld(before, next, id);
      var k := Kept(before, next);
      assert (k + [t])[..|k|] == k && k + [] == k;
    }
  }

  lemma KeptHolds(held: seq<Touch>, next: seq<Touch>)
    requires Ordered(held)
    ensures Ordered(Kept(held, next))
    ensures forall id :: Lookup(Kept(held, next), id) == Midway(held, next, 0, id)
  {
    KeptIsOrdered(held, next);
    assert next[..0] == [];
  }

  /** A new touch is met once, so what is found for it is what was held. */
  lemma MidwayIsBefore(held: seq<Touch>, next: seq<Touch>, j: nat)
    requires Ordered(held) && Ordered(next) && j < |next|
    ensures Midway(held, next, j, next[j].id) == Lookup(held, next[j].id)
  {
    var id := next[j].id;
    LookupIsElement(next[..j], id);
    LookupFinds(next, j);
    KeptIsHeld(held, next, id);
  }

  lemma PutStep(s: seq<Touch>, t: Touch)
    requires Ordered(s)
    ensures var r := Put(if Lookup(s, t.id).None? then s else Drop(s, t.id), t);
      Ordered(r) && forall id :: Lookup(r, id) == if id == t.id then Some(t) else Lookup(s, id)
  {
    var d := if Lookup(s, t.id).None? then s else Drop(s, t.id);
    DropHolds(s, t.id);
    PutHolds(d, t);
    forall id ensures Lookup(Put(d, t), id) == if id == t.id then Some(t) else Lookup(s, id) {
      LookupInDrop(s, t.id, id);
      LookupInPut(d, t, id);
    }
  }

  lemma MidwayStep(held: seq<Touch>, next: seq<Touch>, j: nat, s: seq<Touch>, r: seq<Touch>)
    requires j < |next|
    requires forall id :: Lookup(s, id) == Midway(held, next, j, id)
    requires forall id :: Lookup(r, id) == if id == next[j].id then Some(next[j]) else Lookup(s, id)
    ensures forall id :: Lookup(r, id) == Midway(held, next, j + 1, id)
  {
    assert next[..j + 1][..j] == next[..j];
  }

  lemma ArrivalStep(held: seq<Touch>, next: seq<Touch>, j: nat, gone: seq<Event>)
    requires j < |next|
    ensures var e := Arrival(held, next[j]);
      && gone + Arrivals(held, next[..j + 1]) == gone + Arrivals(held, next[..j]) + [e]
      && ReportsOf(gone + Arrivals(held, next[..j + 1])) == ReportsOf(gone + Arrivals(held, next[..j])) + [ReportOf(e)]
  {
    assert next[..j + 1][..j] == next[..j];
    ReportsOfConcat(gone + Arrivals(held, next[..j]), [Arrival(held, next[j])]);
    assert ReportsOf([Arrival(held, next[j])]) == [ReportOf(Arrival(held, next[j]))];
  }

  lemma MidwayAtEnd(held: seq<Touch>, next: seq<Touch>, s: seq<Touch>)
    requires Ordered(held) && Ordered(next) && Ordered(s)
    requires forall id :: Lookup(s, id) == Midway(held, next, |next|, id)
    ensures s == next
  {
    assert next[..|next|] == next;
    forall id ensures Lookup(s, id) == Lookup(next, id) {
      KeptIsHeld(held, next, id);
    }
    SameLookupsSameSet(s, next);
  }
}
