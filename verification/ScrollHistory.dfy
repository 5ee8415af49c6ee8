/**
  Where the momentum of a scroll comes from (source/OSInteraction/LPGesture.cpp:161-189, :350-368): which scrolls of the user
  it remembers, and that it goes the way one of them went.
 */
module ScrollHistory {
  import opened ValueTree
  import opened GestureTrace
  import opened GesturePhases
  import opened GestureMomentum
  import opened Reals

  /** What the user moved in a call, and the time it took in microseconds. */
  datatype Scrolled = Scrolled(d: Point, time: int)

  /** The speed at which the user moved, axis by axis, as a distance per heartbeat. */
  ghost predicate IsSpeedOf(p: Point, m: Scrolled) {
    m.time > 0 && p.x * m.time as real == m.d.x * 8000.0 && p.y * m.time as real == m.d.y * 8000.0
  }

  lemma SpeedIsSpeed(d: Point, timeDiff: int)
    requires timeDiff > 0
    ensures IsSpeedOf(Speed(d, timeDiff), Scrolled(d, timeDiff))
  {
    var t := timeDiff as real;
    var k := 1000000.0 / t / MOMENTUM_FPS;
    assert k * t == 8000.0 by { PerHeartbeat(t); }
    Scale(d.x, k, t);
    Scale(d.y, k, t);
  }

  lemma PerHeartbeat(t: real)
    requires t > 0.0
    ensures 1000000.0 / t / 125.0 * t == 8000.0
  {
    assert 1000000.0 / t / 125.0 == 8000.0 / t;
    assert 8000.0 / t * t == 8000.0;
  }

  lemma Scale(x: real, k: real, t: real)
    requires k * t == 8000.0
    ensures x * k * t == x * 8000.0
  {
    assert x * k * t == x * (k * t);
  }

  /** The newest so many. */
  function Newest<T>(s: seq<T>, n: nat): (r: seq<T>)
    ensures |r| == if |s| < n then |s| else n
  {
    if |s| <= n then s else s[|s| - n..]
  }

  /** No further than a ten-millionth of a millimetre along either axis. */
  predicate IsAlmostNothing(d: Point) { -0.0000001 <= d.x <= 0.0000001 && -0.0000001 <= d.y <= 0.0000001 }

  /** An accepted scroll adds its speed to at most ten older ones; after a pause of a second or none at all nothing is left. */
  lemma ScrollIsRecorded(p: Platform, s: State, d: Point, timeDiff: int)
    requires Resting(s) && s.kind == Some(Scroll) && |s.history| <= 11
    ensures var r := ApplyScrollTo(p, s, d, timeDiff);
      if IsAlmostNothing(d) then !r.ok && r.s.history == []
      else if 0 < timeDiff < 1000000 then
        r.ok && |r.s.history| > 0 && IsSpeedOf(r.s.history[|r.s.history| - 1], Scrolled(d, timeDiff))
        && r.s.history[..|r.s.history| - 1] == Newest(s.history, 10)
      else r.ok && r.s.history == []
  {
    if !IsTiny(d) && 0 < timeDiff < 1000000 {
      SpeedIsSpeed(d, timeDiff);
      var h := Enqueued(s.history, Speed(d, timeDiff));
      assert h[..|h| - 1] == Newest(s.history, 10);
      assert ApplyScrollTo(p, s, d, timeDiff).s.history == h;
    }
  }

  // ------------------------------------------------------------ over whole runs

  /** The scrolls of the open gesture since the last that was almost nothing or came after a pause. */
  function Remembered(p: Platform, calls: seq<Call>): seq<Scrolled> {
    if calls == [] || Run(p, FRESH, calls).s.kind != Some(Scroll) then []
    else
      var before, c := Remembered(p, calls[..|calls| - 1]), calls[|calls| - 1];
      if !(c.FromMode? && c.e == ApplyScroll) then before
      else if IsAlmostNothing(c.d) || !(0 < c.timeDiff < 1000000) then []
      else before + [Scrolled(c.d, c.timeDiff)]
  }

  /** The history holds the speeds of the last eleven scrolls remembered. */
  ghost predicate Records(h: seq<Point>, moves: seq<Scrolled>) {
    var last := Newest(moves, 11);
    |h| == |last| && forall i | 0 <= i < |h| :: IsSpeedOf(h[i], last[i])
  }

  lemma OneMoreRecord(h: seq<Point>, moves: seq<Scrolled>, h1: seq<Point>, m: Scrolled)
    requires Records(h, moves)
    requires |h1| > 0 && IsSpeedOf(h1[|h1| - 1], m) && h1[..|h1| - 1] == Newest(h, 10)
    ensures Records(h1, moves + [m])
  {
    var last, last1 := Newest(moves, 11), Newest(moves + [m], 11);
    assert last1 == Newest(last, 10) + [m];
    forall i | 0 <= i < |h1| ensures IsSpeedOf(h1[i], last1[i]) {
      if i < |h1| - 1 { assert h1[i] == h1[..|h1| - 1][i]; }
    }
  }

  /** Without an open scroll nothing is recorded, and only scrolling calls touch the record of an open one. */
  lemma OtherCallsKeep(p: Platform, s: State, c: Call)
    requires Resting(s) && (s.kind != Some(Scroll) ==> s.history == [])
    requires !(s.kind == Some(Scroll) && c.FromMode? && c.e == ApplyScroll)
    ensures var r := Serve(p, s, c).s; if r.kind == Some(Scroll) then r.history == s.history else r.history == []
  {}

  lemma {:induction false} HistoryRecords(p: Platform, calls: seq<Call>)
    ensures var s := Run(p, FRESH, calls).s;
      Records(s.history, Remembered(p, calls)) && (s.kind != Some(Scroll) ==> s.history == [])
    decreases |calls|
  {
    if calls != [] {
      var before, c := calls[..|calls| - 1], calls[|calls| - 1];
      var s := Run(p, FRESH, before).s;
      HistoryRecords(p, before);
      if s.kind == Some(Scroll) && c.FromMode? && c.e == ApplyScroll {
        ScrollIsRecorded(p, s, c.d, c.timeDiff);
        ScrollRests(p, s, c.d, c.timeDiff);
        var r := ApplyScrollTo(p, s, c.d, c.timeDiff).s;
        if r.history != [] { OneMoreRecord(s.history, Remembered(p, before), r.history, Scrolled(c.d, c.timeDiff)); }
      } else {
        OtherCallsKeep(p, s, c);
      }
    }
  }

  lemma SpeedIsUnique(p: Point, q: Point, m: Scrolled)
    requires IsSpeedOf(p, m) && IsSpeedOf(q, m)
    ensures p == q
  {
    Cancel(p.x, q.x, m.time as real);
    Cancel(p.y, q.y, m.time as real);
  }

  lemma Cancel(a: real, b: real, t: real)
    requires t > 0.0 && a * t == b * t
    ensures a == b
  {
    assert (a - b) * t == 0.0;
  }

  /**
    In every run, a scroll that ends goes on with the speed of one of the last eleven scrolls remembered, on both axes, and none
    of these was faster along any axis than it is along its faster one; without any it stops.
   */
  lemma MomentumIsOfARecentScroll(p: Platform, calls: seq<Call>)
    requires Run(p, FRESH, calls).s.kind == Some(Scroll)
    ensures var last := Newest(Remembered(p, calls), 11);
      var r := EndGesture(p, Run(p, FRESH, calls).s).s;
      if last == [] then r.momentumPhase == PhaseUndefined
      else
        && r.momentumPhase == PhaseBegan
        && (exists i :: 0 <= i < |last| && IsSpeedOf(r.momentum, last[i]))
        && (forall i, q | 0 <= i < |last| && IsSpeedOf(q, last[i]) :: Largest(q) <= Largest(r.momentum))
  {
    var s, last := Run(p, FRESH, calls).s, Newest(Remembered(p, calls), 11);
    HistoryRecords(p, calls);
    MomentumAfterScroll(p, s, 0);
    if last != [] {
      var r := EndGesture(p, s).s;
      var i :| 0 <= i < |s.history| && s.history[i] == r.momentum;
      assert IsSpeedOf(r.momentum, last[i]);
      forall j, q | 0 <= j < |last| && IsSpeedOf(q, last[j]) ensures Largest(q) <= Largest(r.momentum) {
        SpeedIsUnique(q, s.history[j], last[j]);
      }
    }
  }

  // ------------------------------------------------------------ which way it goes

  function Scaled(q: real, m: Point): Point { Point(q * m.x, q * m.y) }

  /** The part of the momentum that a heartbeat leaves: more of it while it is fast along a positive axis. */
  function Factor(m: Point): real { if m.x > 0.4 || m.y > 0.4 then 0.98 else 0.96 }

  /** Opposite momenta are damped alike exactly when both or neither is fast along a positive axis: the sign is not dropped. */
  lemma OppositesDampAlikeIff(m: Point)
    ensures Damped(Point(-m.x, -m.y)) == Point(-Damped(m).x, -Damped(m).y) <==> (m.x > 0.4 || m.y > 0.4 <==> m.x < -0.4 || m.y < -0.4)
  {}

  lemma TickScales(p: Platform, s: State)
    requires Coasting(s) && s.momentumPhase != PhaseUndefined && !IsSlow(s.momentum)
    ensures Tick(p, s).s.momentum == Scaled(Factor(s.momentum), s.momentum) && Tick(p, s).taken == s.momentum
  {}

  lemma ScaledTwice(q: real, k: real, m: Point)
    ensures Scaled(q, Scaled(k, m)) == Scaled(q * k, m)
  {}

  lemma FactorBounds(q: real, k: real, low: real, high: real)
    requires 0.96 <= k <= 0.98 && 0.0 <= low <= q <= high
    ensures 0.96 * low <= q * k <= 0.98 * high
  {
    Times(q, 0.96, k);
    Times(q, k, 0.98);
    Times(0.96, low, q);
    Times(0.98, q, high);
  }

  lemma {:induction false} PowIsNonNegative(x: real, n: nat)
    requires 0.0 <= x
    ensures 0.0 <= Pow(x, n)
  {
    if n != 0 {
      PowIsNonNegative(x, n - 1);
      Times(x, 0.0, Pow(x, n - 1));
    }
  }

  /** A momentum that is still there after some heartbeats was there, and fast, before the first of them. */
  lemma StillCoasting(p: Platform, s: State, n: nat)
    requires Coasting(s) && n > 0 && Coast(p, s, n).momentumPhase != PhaseUndefined
    ensures s.momentumPhase != PhaseUndefined && !IsSlow(s.momentum) && Coasting(Tick(p, s).s)
    ensures Coast(p, s, n) == Coast(p, Tick(p, s).s, n - 1)
  {
    if s.momentumPhase == PhaseUndefined { StoppedStays(p, s, n); }
    TickStopsOrDamps(p, s);
    if IsSlow(s.momentum) { StoppedStays(p, Tick(p, s).s, n - 1); }
  }

  /** As long as it goes on it goes the way it started, and after `n` heartbeats with between 0.96^n and 0.98^n of its speed. */
  lemma {:induction false} MomentumKeepsDirection(p: Platform, s: State, n: nat) returns (q: real)
    requires Coasting(s) && Coast(p, s, n).momentumPhase != PhaseUndefined
    ensures Pow(0.96, n) <= q <= Pow(0.98, n)
    ensures Coast(p, s, n).momentum == Scaled(q, s.momentum)
    decreases n
  {
    if n == 0 {
      q := 1.0;
    } else {
      StillCoasting(p, s, n);
      TickScales(p, s);
      var s1 := Tick(p, s).s;
      var r := MomentumKeepsDirection(p, s1, n - 1);
      q := r * Factor(s.momentum);
      ScaledTwice(r, Factor(s.momentum), s.momentum);
      PowIsNonNegative(0.96, n - 1);
      FactorBounds(r, Factor(s.momentum), Pow(0.96, n - 1), Pow(0.98, n - 1));
    }
  }
}
