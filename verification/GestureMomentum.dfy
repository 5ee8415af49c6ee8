/**
  What the phases of GesturePhases mean for a scroll: where its momentum comes from, that it dies out, and that no
  distance is lost between one gesture and the next (source/OSInteraction/LPGesture.cpp:161-189, :316-470).
 */
module GestureMomentum {
  import opened ValueTree
  import opened GestureTrace
  import opened GesturePhases

  // ------------------------------------------------- the starting momentum

  lemma {:induction false} PickLeads(h: seq<Point>, best: Point)
    ensures var r := Pick(h, best, Largest(best));
      && (r == best || r in h)
      && Largest(best) <= Largest(r)
      && forall p | p in h :: Largest(p) <= Largest(r)
    decreases |h|
  {
    if h != [] {
      var (b, l) := Better(best, Largest(best), h[0]);
      assert l == Largest(b);
      PickLeads(h[1..], b);
      var r := Pick(h, best, Largest(best));
      assert forall p | p in h :: p == h[0] || p in h[1..];
    }
  }

  /** "Average the history" picks an entry with the largest component instead. */
  lemma PickIsLargest(h: seq<Point>)
    requires h != []
    ensures var r := Pick(h, ZERO, 0.0); r in h && forall p | p in h :: Largest(p) <= Largest(r)
  {
    PickLeads(h, ZERO);
    var r := Pick(h, ZERO, 0.0);
    assert Largest(h[0]) <= Largest(r);
    if r == ZERO {
      assert h[0] == ZERO;
    }
  }

  // ------------------------------------------------------- it dies out

  /** `n` heartbeats with no call in between. */
  function Coast(p: Platform, s: State, n: nat): (r: State)
    requires Resting(s)
    ensures Resting(r) && r.kind == s.kind
    decreases n
  {
    if n == 0 then s
    else
      ScrollRests(p, s, s.momentum, TICK);
      Coast(p, Tick(p, s).s, n - 1)
  }

  /** The distance `n` heartbeats cover in each direction, in millimetres. */
  function Travel(p: Platform, s: State, n: nat): Point
    requires Resting(s)
    decreases n
  {
    if n == 0 then ZERO
    else
      ScrollRests(p, s, s.momentum, TICK);
      var r := Tick(p, s);
      var rest := Travel(p, r.s, n - 1);
      Point(Abs(r.taken.x) + rest.x, Abs(r.taken.y) + rest.y)
  }

  ghost predicate Coasting(s: State) { Resting(s) && s.kind.None? }

  lemma DampedShrinks(m: Point)
    ensures Largest(Damped(m)) * 50.0 <= Largest(m) * 49.0
    ensures Abs(Damped(m).x) * 50.0 <= Abs(m.x) * 49.0 && Abs(Damped(m).y) * 50.0 <= Abs(m.y) * 49.0
  {}

  lemma SlowIsLargest(m: Point)
    ensures IsSlow(m) <==> Largest(m) * PIXELS_PER_MM < 1.5
  {}

  /** One heartbeat either stops the momentum or passes it on damped. */
  lemma TickStopsOrDamps(p: Platform, s: State)
    requires Coasting(s) && s.momentumPhase != PhaseUndefined
    ensures var r := Tick(p, s);
      && Coasting(r.s)
      && (IsSlow(s.momentum) ==> r.s.momentumPhase == PhaseUndefined && r.s.momentum == ZERO)
      && (!IsSlow(s.momentum) ==> r.s.momentumPhase == PhaseChanged && r.s.momentum == Damped(s.momentum))
      && (r.taken == s.momentum || r.taken == ZERO)
  {}

  lemma {:induction false} StoppedStays(p: Platform, s: State, n: nat)
    requires Coasting(s) && s.momentumPhase == PhaseUndefined
    ensures Coast(p, s, n) == s && Travel(p, s, n) == ZERO
  {
    if n != 0 { StoppedStays(p, s, n - 1); }
  }

  /** A momentum under `1.5 + 0.03 n` pixels per heartbeat is gone after `n + 1` heartbeats. */
  lemma {:induction false} MomentumStops(p: Platform, s: State, n: nat)
    requires Coasting(s) && s.momentumPhase != PhaseUndefined
    requires Largest(s.momentum) * PIXELS_PER_MM < 1.5 + 0.03 * n as real
    ensures Coast(p, s, n + 1).momentumPhase == PhaseUndefined
    decreases n
  {
    TickStopsOrDamps(p, s);
    SlowIsLargest(s.momentum);
    var s1 := Tick(p, s).s;
    if IsSlow(s.momentum) {
      StoppedStays(p, s1, n);
    } else {
      DampedShrinks(s.momentum);
      MomentumStops(p, s1, n - 1);
    }
  }

  /** However long it coasts, it covers at most 50 times its starting momentum. */
  lemma {:induction false} TravelIsBounded(p: Platform, s: State, n: nat)
    requires Coasting(s)
    ensures Travel(p, s, n).x <= 50.0 * Abs(s.momentum.x) && Travel(p, s, n).y <= 50.0 * Abs(s.momentum.y)
    decreases n
  {
    if s.momentumPhase == PhaseUndefined {
      StoppedStays(p, s, n);
    } else if n != 0 {
      TickStopsOrDamps(p, s);
      DampedShrinks(s.momentum);
      TravelIsBounded(p, Tick(p, s).s, n - 1);
    }
  }

  /**
    A scroll that ends with a history goes on with an entry of that history with the largest component; the
    heartbeats stop it in bounded time and within 50 times that entry, and a scroll that ends without one stays put.
   */
  lemma MomentumAfterScroll(p: Platform, s: State, n: nat)
    requires Resting(s) && s.kind == Some(Scroll)
    ensures var r := EndGesture(p, s).s;
      && Coasting(r)
      && (s.history == [] ==> r.momentumPhase == PhaseUndefined)
      && (s.history != [] ==>
            && r.momentumPhase == PhaseBegan && r.momentum in s.history
            && (forall q | q in s.history :: Largest(q) <= Largest(r.momentum))
            && (Largest(r.momentum) * PIXELS_PER_MM < 1.5 + 0.03 * n as real ==> Coast(p, r, n + 1).momentumPhase == PhaseUndefined)
            && Travel(p, r, n).x <= 50.0 * Abs(r.momentum.x) && Travel(p, r, n).y <= 50.0 * Abs(r.momentum.y))
  {
    EndRests(p, s);
    EndHandsOver(p, s);
    var r := EndGesture(p, s).s;
    if s.history != [] {
      PickIsLargest(s.history);
      TravelIsBounded(p, r, n);
      if Largest(r.momentum) * PIXELS_PER_MM < 1.5 + 0.03 * n as real {
        MomentumStops(p, r, n);
      }
    }
  }

  lemma EndHandsOver(p: Platform, s: State)
    requires Resting(s) && s.kind == Some(Scroll)
    ensures var r := EndGesture(p, s).s;
      && r.kind.None? && r.momentum == Pick(s.history, ZERO, 0.0)
      && r.momentumPhase == if s.history != [] then PhaseBegan else PhaseUndefined
  {}

  // ------------------------------------------------------ nothing is lost

  /** A distance in millimetres as lines. */
  function ToLines(per: Point, d: Point): Point
    requires per.x > 0.0 && per.y > 0.0
  {
    Point(Pixels(d).x / per.x, Pixels(d).y / per.y)
  }

  lemma ToLinesAdds(per: Point, a: Point, b: Point)
    requires per.x > 0.0 && per.y > 0.0
    ensures ToLines(per, Plus(a, b)) == Plus(ToLines(per, a), ToLines(per, b))
  {}

  ghost predicate NoBegin(calls: seq<Call>) { forall i | 0 <= i < |calls| :: !(calls[i].FromMode? && calls[i].e.Begin?) }

  /** What goes out plus what stays is what came in plus what was there. */
  ghost predicate Balances(s: State, r: Outcome)
    requires s.perLine.x > 0.0 && s.perLine.y > 0.0
  {
    && r.s.perLine == s.perLine
    && Plus(r.s.partialPixel, Point(r.pixelsX as real, r.pixelsY as real)) == Plus(s.partialPixel, Pixels(r.taken))
    && Plus(r.s.partialLine, Point(r.linesX as real, r.linesY as real)) == Plus(s.partialLine, ToLines(s.perLine, r.taken))
  }

  lemma EmissionBalances(p: Platform, s: State, d: Point, timeDiff: int)
    requires s.perLine.x > 0.0 && s.perLine.y > 0.0
    ensures Balances(s, Emitted(p, s, d, timeDiff))
  {}

  lemma QuietBalances(s: State, s1: State, ok: bool)
    requires s.perLine.x > 0.0 && s.perLine.y > 0.0
    requires s1.perLine == s.perLine && s1.partialPixel == s.partialPixel && s1.partialLine == s.partialLine
    ensures Balances(s, Quietly(s1, ok))
  {
    assert ToLines(s.perLine, ZERO) == ZERO;
  }

  lemma ScrollBalances(p: Platform, s: State, d: Point, timeDiff: int)
    requires s.perLine.x > 0.0 && s.perLine.y > 0.0
    ensures Balances(s, ApplyScrollTo(p, s, d, timeDiff))
  {
    var s1 := Prepare(s, d, timeDiff).0;
    EmissionBalances(p, s1, d, timeDiff);
    QuietBalances(s, s, false);
    QuietBalances(s, s1, false);
  }

  lemma EndBalances(p: Platform, s: State)
    requires s.perLine.x > 0.0 && s.perLine.y > 0.0
    ensures Balances(s, EndGesture(p, s))
  {
    QuietBalances(s, s, false);
    QuietBalances(s, s.(kind := None, phase := PhaseUndefined), true);
    ScrollBalances(p, s.(phase := PhaseEnded), ZERO, 0);
  }

  lemma CallBalances(p: Platform, s: State, c: Call)
    requires Resting(s) && !(c.FromMode? && c.e.Begin?)
    ensures Balances(s, Serve(p, s, c))
  {
    if c.Heartbeat? {
      QuietBalances(s, s, false);
      ScrollBalances(p, s, s.momentum, TICK);
    } else if c.e == End {
      EndBalances(p, s);
    } else if c.e == ApplyScroll {
      ScrollBalances(p, s, c.d, c.timeDiff);
    } else {
      var r := Serve(p, s, c);
      QuietBalances(s, r.s, r.ok);
    }
  }

  /** One more call, on an account that balances. */
  ghost predicate AccountBalances(s: State, a: Account)
    requires s.perLine.x > 0.0 && s.perLine.y > 0.0
  {
    && a.s.perLine == s.perLine
    && Plus(a.s.partialPixel, Point(a.pixelsX as real, a.pixelsY as real)) == Plus(s.partialPixel, Pixels(a.taken))
    && Plus(a.s.partialLine, Point(a.linesX as real, a.linesY as real)) == Plus(s.partialLine, ToLines(s.perLine, a.taken))
  }

  lemma {:induction false} EveryAccountBalances(p: Platform, s: State, calls: seq<Call>)
    requires Resting(s) && NoBegin(calls)
    ensures AccountBalances(s, Run(p, s, calls))
    decreases |calls|
  {
    if calls != [] {
      var before, c := calls[..|calls| - 1], calls[|calls| - 1];
      EveryAccountBalances(p, s, before);
      var a := Run(p, s, before);
      CallBalances(p, a.s, c);
      ToLinesAdds(s.perLine, a.taken, Serve(p, a.s, c).taken);
    }
  }

  /** The distance a call is given, if it accepts it: a scroll's own, and the momentum for a heartbeat. */
  function Accepted(p: Platform, s: State, c: Call): Point
    requires s.perLine.x > 0.0 && s.perLine.y > 0.0
  {
    if !Serve(p, s, c).ok then ZERO
    else if c.Heartbeat? then s.momentum
    else if c.e == ApplyScroll then c.d
    else ZERO
  }

  function TotalAccepted(p: Platform, s: State, calls: seq<Call>): Point
    requires Resting(s)
  {
    if calls == [] then ZERO
    else
      var before := calls[..|calls| - 1];
      Plus(TotalAccepted(p, s, before), Accepted(p, Run(p, s, before).s, calls[|calls| - 1]))
  }

  lemma AcceptedIsTaken(p: Platform, s: State, c: Call)
    requires Resting(s)
    ensures Serve(p, s, c).taken == Accepted(p, s, c)
  {}

  lemma {:induction false} TakenIsAccepted(p: Platform, s: State, calls: seq<Call>)
    requires Resting(s)
    ensures Run(p, s, calls).taken == TotalAccepted(p, s, calls)
    decreases |calls|
  {
    if calls != [] {
      var before := calls[..|calls| - 1];
      TakenIsAccepted(p, s, before);
      AcceptedIsTaken(p, Run(p, s, before).s, calls[|calls| - 1]);
    }
  }

  /** Along each axis: posted and kept back is what was kept back and what was accepted, `rate` being in pixels a millimetre. */
  ghost predicate BalancesAlong(kept: real, posted: int, before: real, d: real, rate: real, per: real) {
    per > 0.0 && kept + posted as real == before + d * rate / per
  }

  lemma BalanceAxes(s: State, a: Account)
    requires s.perLine.x > 0.0 && s.perLine.y > 0.0 && AccountBalances(s, a)
    ensures BalancesAlong(a.s.partialPixel.x, a.pixelsX, s.partialPixel.x, a.taken.x, 120.0 / 25.4, 1.0)
    ensures BalancesAlong(a.s.partialPixel.y, a.pixelsY, s.partialPixel.y, a.taken.y, 120.0 / 25.4, 1.0)
    ensures BalancesAlong(a.s.partialLine.x, a.linesX, s.partialLine.x, a.taken.x, 120.0 / 25.4, s.perLine.x)
    ensures BalancesAlong(a.s.partialLine.y, a.linesY, s.partialLine.y, a.taken.y, 120.0 / 25.4, s.perLine.y)
  {}

  /**
    From any moment until the next begin, heartbeats included: along each axis, the pixels and lines posted plus what is kept
    back are what was kept back before plus all distances accepted, at 120 pixels an inch and so many pixels a line.
   */
  lemma NothingIsLost(p: Platform, s: State, calls: seq<Call>)
    requires Resting(s) && NoBegin(calls)
    ensures var a, d := Run(p, s, calls), TotalAccepted(p, s, calls);
      && BalancesAlong(a.s.partialPixel.x, a.pixelsX, s.partialPixel.x, d.x, 120.0 / 25.4, 1.0)
      && BalancesAlong(a.s.partialPixel.y, a.pixelsY, s.partialPixel.y, d.y, 120.0 / 25.4, 1.0)
      && BalancesAlong(a.s.partialLine.x, a.linesX, s.partialLine.x, d.x, 120.0 / 25.4, s.perLine.x)
      && BalancesAlong(a.s.partialLine.y, a.linesY, s.partialLine.y, d.y, 120.0 / 25.4, s.perLine.y)
  {
    EveryAccountBalances(p, s, calls);
    TakenIsAccepted(p, s, calls);
    BalanceAxes(s, Run(p, s, calls));
  }

  // ---------------------------------------------- what is kept back is small

  predicate PixelsSettled(s: State) { -0.5 <= s.partialPixel.x <= 0.5 && -0.5 <= s.partialPixel.y <= 0.5 }

  predicate LinesSettled(s: State) { 0.0 <= s.partialLine.x < 1.0 && 0.0 <= s.partialLine.y < 1.0 }

  /** Rounding goes to the nearest whole number, and halfway away from zero. */
  lemma RoundIsNearest(x: real)
    ensures -0.5 <= x - Round(x) as real <= 0.5
    ensures x - Round(x) as real == 0.5 ==> x < 0.0
    ensures x - Round(x) as real == -0.5 ==> x > 0.0
  {}

  lemma FlushSettles(p: Platform, s: State, d: Point, timeDiff: int)
    requires s.perLine.x > 0.0 && s.perLine.y > 0.0
    ensures PixelsSettled(Flush(p, s, d, timeDiff).s)
    ensures LinesDue(p, s, timeDiff) ==> LinesSettled(Flush(p, s, d, timeDiff).s)
  {
    RoundIsNearest(s.partialPixel.x + Pixels(d).x);
    RoundIsNearest(s.partialPixel.y + Pixels(d).y);
  }

  /** On Windows the lines held back wait for the timer; elsewhere every accepted call lets whole lines go. */
  lemma ScrollSettles(p: Platform, s: State, d: Point, timeDiff: int)
    requires s.perLine.x > 0.0 && s.perLine.y > 0.0
    ensures var r := ApplyScrollTo(p, s, d, timeDiff);
      && (r.ok ==> PixelsSettled(r.s))
      && (r.ok && !p.Windows? ==> LinesSettled(r.s))
      && (r.ok && p.Windows? && s.eventTimer + timeDiff >= WINDOWS_UPDATE_RATE ==> LinesSettled(r.s) && r.s.eventTimer == 0)
      && (r.ok && p.Windows? && s.eventTimer + timeDiff < WINDOWS_UPDATE_RATE ==>
            r.linesX == 0 && r.linesY == 0 && r.s.eventTimer == s.eventTimer + timeDiff)
      && (!r.ok ==> r.s.partialPixel == s.partialPixel && r.s.partialLine == s.partialLine && r.s.eventTimer == s.eventTimer)
  {
    FlushSettles(p, Prepare(s, d, timeDiff).0, d, timeDiff);
  }

  lemma {:induction false} KeptIsSmall(p: Platform, calls: seq<Call>)
    ensures var s := Run(p, FRESH, calls).s; PixelsSettled(s) && (!p.Windows? ==> LinesSettled(s))
    decreases |calls|
  {
    if calls != [] {
      var before, c := calls[..|calls| - 1], calls[|calls| - 1];
      KeptIsSmall(p, before);
      CallKeepsSettled(p, Run(p, FRESH, before).s, c);
    }
  }

  lemma CallKeepsSettled(p: Platform, s: State, c: Call)
    requires Resting(s) && PixelsSettled(s) && (!p.Windows? ==> LinesSettled(s))
    ensures var r := Serve(p, s, c).s; PixelsSettled(r) && (!p.Windows? ==> LinesSettled(r))
  {
    match c
    case Heartbeat => ScrollSettles(p, s, s.momentum, TICK);
    case FromMode(e, d, t) =>
      match e
      case End => ScrollSettles(p, s.(phase := PhaseEnded), ZERO, 0);
      case ApplyScroll => ScrollSettles(p, s, d, t);
      case _ =>
  }

  // ------------------------------------------------- what a platform is sent

  /** How many pixels make a line, or how many lines a notch, along an axis. */
  ghost predicate IsPerLine(p: Platform, per: Point) {
    match p
    case Apple => per.x == 10.0 && per.y == 10.0
    case Linux => per.x == 12.0 && per.y == 12.0
    case Windows(chars, lines) =>
      && per.x == (if chars > 0 then chars as real else 3.0)
      && per.y == (if lines > 0 then lines as real else 3.0)
  }

  lemma ScrollBegins(p: Platform, s: State)
    requires Resting(s) && s.kind.None?
    ensures var b := BeginGesture(p, s, Scroll);
      && b.ok && Resting(b.s) && b.s.kind == Some(Scroll)
      && b.s.partialPixel == ZERO && b.s.partialLine == ZERO && IsPerLine(p, b.s.perLine)
      && b.s.history == [] && b.s.momentum == ZERO && b.s.momentumPhase == PhaseUndefined
  {}

  /** The first scroll after a begin starts from nothing kept back, and posts whole pixels and, when they are due, whole lines. */
  lemma FirstScrollPosts(p: Platform, s: State, d: Point, timeDiff: int)
    requires Resting(s) && s.kind.None? && !IsTiny(d)
    ensures var b := BeginGesture(p, s, Scroll).s;
      var r := ApplyScrollTo(p, b, d, timeDiff);
      && r.ok
      && r.pixelsX == Round(d.x * (120.0 / 25.4)) && r.pixelsY == Round(d.y * (120.0 / 25.4))
      && (LinesDue(p, b, timeDiff) ==>
            r.linesX == (d.x * (120.0 / 25.4) / b.perLine.x).Floor && r.linesY == (d.y * (120.0 / 25.4) / b.perLine.y).Floor)
  {
    ScrollBegins(p, s);
  }

  /** The gesture that is open has been moved on: zooming and rotating are as they begin, the others by an accepted call. */
  function IsMoved(p: Platform, calls: seq<Call>): bool {
    if calls == [] || Run(p, FRESH, calls).s.kind.None? then false
    else
      var before, c := calls[..|calls| - 1], calls[|calls| - 1];
      var s := Run(p, FRESH, before).s;
      if c.FromMode? && c.e.Begin? && s.kind.None? then c.e.gesture == Zoom || c.e.gesture == Rotate
      else IsMoved(p, before) || (c.FromMode? && !c.e.Begin? && !c.e.ClickDown? && !c.e.ClickUp? && Serve(p, s, c).ok)
  }

  lemma CallMoves(p: Platform, s: State, c: Call)
    requires Resting(s)
    ensures var r := Serve(p, s, c);
      r.s.kind.Some? ==>
        (r.s.phase == PhaseChanged <==>
          if c.FromMode? && c.e.Begin? && s.kind.None? then c.e.gesture == Zoom || c.e.gesture == Rotate
          else s.phase == PhaseChanged || (c.FromMode? && !c.e.Begin? && !c.e.ClickDown? && !c.e.ClickUp? && r.ok))
  {}

  /** In every run the phase of an open gesture says whether it has been moved on. */
  lemma {:induction false} PhaseSaysIsMoved(p: Platform, calls: seq<Call>)
    ensures var s := Run(p, FRESH, calls).s;
      s.phase == (if s.kind.None? then PhaseUndefined else if IsMoved(p, calls) then PhaseChanged else PhaseBegan)
    decreases |calls|
  {
    if calls != [] {
      var before, c := calls[..|calls| - 1], calls[|calls| - 1];
      PhaseSaysIsMoved(p, before);
      CallMoves(p, Run(p, FRESH, before).s, c);
    }
  }
}
