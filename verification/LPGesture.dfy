/**
  The gesture object of source/OSInteraction/LPGesture.cpp, each call proved against GesturePhases.
 */
module LPGesture {
  import opened ValueTree
  import opened GestureTrace
  import opened GesturePhases
  import opened BoundedQueue

  class LPGesture {
    const platform: Platform
    const momentumHistory: BoundedQueue<Point>
    var kind: Option<Gesture>
    var phase: Phase
    var momentumPhase: Phase
    var momentum: Point
    var scrollPartialLine: Point
    var scrollPartialPixel: Point
    var perLine: Point
    var windowsEventTimer: int
    ghost var taken: Point
    ghost var pixelsX: int
    ghost var pixelsY: int
    ghost var linesX: int
    ghost var linesY: int

    ghost predicate Valid()
      reads this, momentumHistory
    {
      momentumHistory.Valid() && momentumHistory.data.Length == HISTORY_SIZE && perLine.x > 0.0 && perLine.y > 0.0
    }

    /** The state and everything taken in and posted since construction. */
    ghost function Now(): Account
      requires Valid()
      reads this, momentumHistory, momentumHistory.data
    {
      Account(State(kind, phase, momentumPhase, momentum, momentumHistory.Contents(), scrollPartialLine, scrollPartialPixel,
                    perLine, windowsEventTimer),
              taken, pixelsX, pixelsY, linesX, linesY)
    }

    constructor (p: Platform)
      ensures Valid() && fresh(momentumHistory) && fresh(momentumHistory.data) && platform == p
      ensures Now() == Account(FRESH, ZERO, 0, 0, 0, 0)
    {
      platform := p;
      momentumHistory := new BoundedQueue<Point>(HISTORY_SIZE);
      kind, phase, momentumPhase, momentum := None, PhaseUndefined, PhaseUndefined, ZERO;
      scrollPartialLine, scrollPartialPixel, perLine, windowsEventTimer := ZERO, ZERO, Point(1.0, 1.0), 0;
      taken, pixelsX, pixelsY, linesX, linesY := ZERO, 0, 0, 0, 0;
    }

    method BeginGesture(g: Gesture) returns (ok: bool)
      requires Valid()
      modifies this, momentumHistory, momentumHistory.data
      ensures Valid()
      ensures var r := GesturePhases.BeginGesture(platform, old(Now().s), g); ok == r.ok && Now() == Entered(old(Now()), r)
    {
      if kind.Some? {
        return false;
      }
      CancelMomentum();
      Open(g);
      if g == Zoom {
        var _ := ApplyZoom();
      } else if g == Rotate {
        var _ := ApplyRotation();
      }
      return true;
    }

    method CancelMomentum()
      requires Valid()
      modifies this, momentumHistory, momentumHistory.data
      ensures Valid() && Now() == Entered(old(Now()), StopMomentum(platform, old(Now().s)))
    {
      if momentumPhase != PhaseUndefined {
        var _ := ApplyScroll(ZERO, 0);
      }
    }

    method Open(g: Gesture)
      requires Valid()
      modifies this, momentumHistory
      ensures Valid()
      ensures var s := State(Some(g), PhaseBegan, PhaseUndefined, ZERO, [], ZERO, ZERO, PerLine(platform), old(windowsEventTimer));
        Now() == old(Now()).(s := s)
    {
      kind := Some(g);
      momentumPhase := PhaseUndefined;
      phase := PhaseBegan;
      momentumHistory.Reset();
      momentum := ZERO;
      scrollPartialLine := ZERO;
      scrollPartialPixel := ZERO;
      perLine := PerLine(platform);
    }

    /** Empties the history, keeping the entry with the largest component. */
    method TakeLargest() returns (n: nat)
      requires Valid()
      modifies this`momentum, momentumHistory
      ensures Valid() && momentumHistory.Contents() == []
      ensures n == |old(momentumHistory.Contents())|
      ensures momentum == Pick(old(momentumHistory.Contents()), ZERO, 0.0)
    {
      momentum := ZERO;
      var maxAbsValue := 0.0;
      n := 0;
      var empty := momentumHistory.IsEmpty();
      while !empty
        invariant Valid()
        invariant empty <==> momentumHistory.Contents() == []
        invariant Pick(momentumHistory.Contents(), momentum, maxAbsValue) == Pick(old(momentumHistory.Contents()), ZERO, 0.0)
        invariant n + |momentumHistory.Contents()| == |old(momentumHistory.Contents())|
        decreases |momentumHistory.Contents()|
      {
        var m := momentumHistory.Dequeue();
        var curAbsValue := Abs(m.x);
        if curAbsValue > maxAbsValue {
          momentum := m;
          maxAbsValue := curAbsValue;
        }
        curAbsValue := Abs(m.y);
        if curAbsValue > maxAbsValue {
          momentum := m;
          maxAbsValue := curAbsValue;
        }
        n := n + 1;
        empty := momentumHistory.IsEmpty();
      }
    }

    method StartMomentum()
      requires Valid()
      modifies this`momentum, this`momentumPhase, momentumHistory
      ensures Valid()
      ensures var s := old(Now().s);
        Now() == old(Now()).(s := s.(history := [], momentum := Pick(s.history, ZERO, 0.0),
                                     momentumPhase := if s.history != [] then PhaseBegan else s.momentumPhase))
    {
      var numHistory := TakeLargest();
      if numHistory != 0 {
        momentumPhase := PhaseBegan;
      }
    }

    method EndScroll()
      requires Valid() && kind == Some(Scroll)
      modifies this, momentumHistory, momentumHistory.data
      ensures Valid()
      ensures var r := ApplyScrollTo(platform, old(Now().s), ZERO, 0);
        Now() == Entered(old(Now()), r.(s := r.s.(history := [], momentum := Pick(r.s.history, ZERO, 0.0),
                                                   momentumPhase := if r.s.history != [] then PhaseBegan else r.s.momentumPhase)))
    {
      var _ := ApplyScroll(ZERO, 0);
      StartMomentum();
    }

    method EndGesture() returns (ok: bool)
      requires Valid()
      modifies this, momentumHistory, momentumHistory.data
      ensures Valid()
      ensures var r := GesturePhases.EndGesture(platform, old(Now().s)); ok == r.ok && Now() == Entered(old(Now()), r)
    {
      if kind.None? || (phase != PhaseBegan && phase != PhaseChanged) {
        return false;
      }
      phase := PhaseEnded;
      if kind == Some(Zoom) {
        var _ := ApplyZoom();
      } else if kind == Some(Rotate) {
        var _ := ApplyRotation();
      }
      if kind == Some(Scroll) {
        EndScroll();
      }
      kind := None;
      phase := PhaseUndefined;
      return true;
    }

    method ApplyZoom() returns (ok: bool)
      requires Valid()
      modifies this`phase
      ensures Valid()
      ensures var r := ApplyTo(old(Now().s), old(kind) == Some(Zoom)); ok == r.ok && Now() == Entered(old(Now()), r)
    {
      if kind != Some(Zoom) {
        return false;
      }
      if phase == PhaseBegan {
        phase := PhaseChanged;
      }
      return true;
    }

    method ApplyRotation() returns (ok: bool)
      requires Valid()
      modifies this`phase
      ensures Valid()
      ensures var r := ApplyTo(old(Now().s), old(kind) == Some(Rotate)); ok == r.ok && Now() == Entered(old(Now()), r)
    {
      if kind != Some(Rotate) {
        return false;
      }
      if phase == PhaseBegan {
        phase := PhaseChanged;
      }
      return true;
    }

    method ApplyDesktopSwipe() returns (ok: bool)
      requires Valid()
      modifies this`phase
      ensures Valid()
      ensures var r := ApplyTo(old(Now().s), IsSwipe(old(kind))); ok == r.ok && Now() == Entered(old(Now()), r)
    {
      if !IsSwipe(kind) {
        return false;
      }
      if phase == PhaseBegan {
        phase := PhaseChanged;
      }
      return true;
    }

    method ApplyScroll(d: Point, timeDiff: int) returns (ok: bool)
      requires Valid()
      modifies this, momentumHistory, momentumHistory.data
      ensures Valid()
      ensures var r := ApplyScrollTo(platform, old(Now().s), d, timeDiff); ok == r.ok && Now() == Entered(old(Now()), r)
    {
      if !(kind == Some(Scroll) || momentumPhase != PhaseUndefined) {
        return false;
      }
      var go := FollowPhase(d, timeDiff);
      if !go {
        return false;
      }
      Emit(d, timeDiff);
      MoveOn();
      return true;
    }

    method MoveOn()
      requires Valid()
      modifies this`phase, this`momentumPhase
      ensures Valid() && Now() == old(Now()).(s := NextPhases(old(Now().s)))
    {
      if phase == PhaseBegan {
        phase := PhaseChanged;
      } else if momentumPhase == PhaseBegan {
        momentumPhase := PhaseChanged;
      } else if momentumPhase == PhaseEnded {
        momentumPhase := PhaseUndefined;
      }
    }

    /** The first half of `applyScroll`: `go` is false where it returns early. */
    method FollowPhase(d: Point, timeDiff: int) returns (go: bool)
      requires Valid()
      modifies this`momentum, this`momentumPhase, momentumHistory, momentumHistory.data
      ensures Valid()
      ensures Now().s == Prepare(old(Now().s), d, timeDiff).0 && go == Prepare(old(Now().s), d, timeDiff).1
    {
      go := true;
      if momentumPhase != PhaseUndefined {
        go := FollowMomentum(d);
      } else if phase != PhaseEnded {
        go := FollowScroll(d, timeDiff);
      }
    }

    method FollowMomentum(d: Point) returns (go: bool)
      requires Valid() && momentumPhase != PhaseUndefined
      modifies this`momentum, this`momentumPhase, momentumHistory
      ensures Valid()
      ensures var s := old(Now().s);
        if !IsSlow(d) then go && Now().s == s.(momentum := Damped(s.momentum))
        else
          && go == (s.momentumPhase != PhaseBegan || s.phase == PhaseEnded)
          && Now().s == s.(history := [], momentum := ZERO,
                           momentumPhase := if s.momentumPhase == PhaseBegan then PhaseUndefined else PhaseEnded)
    {
      if Abs(d.x * PIXELS_PER_MM) < 1.5 && Abs(d.y * PIXELS_PER_MM) < 1.5 {
        momentumHistory.Reset();
        momentum := ZERO;
        if momentumPhase == PhaseBegan {
          momentumPhase := PhaseUndefined;
          if phase != PhaseEnded {
            return false;
          }
        } else {
          momentumPhase := PhaseEnded;
        }
      } else {
        var scale := 0.96;
        if momentum.x > 0.4 || momentum.y > 0.4 {
          scale := 0.98;
        }
        momentum := Point(momentum.x * scale, momentum.y * scale);
      }
      return true;
    }

    method FollowScroll(d: Point, timeDiff: int) returns (go: bool)
      requires Valid()
      modifies this`momentum, momentumHistory, momentumHistory.data
      ensures Valid() && go == !IsTiny(d)
      ensures var s := old(Now().s);
        if !IsTiny(d) && 0 < timeDiff < 1000000 then Now().s == s.(history := Enqueued(s.history, Speed(d, timeDiff)))
        else Now().s == s.(history := [], momentum := ZERO)
    {
      if Abs(d.x) <= 0.0000001 && Abs(d.y) <= 0.0000001 {
        momentumHistory.Reset();
        momentum := ZERO;
        return false;
      }
      if timeDiff > 0 && timeDiff < 1000000 {
        Record(Speed(d, timeDiff));
      } else {
        momentumHistory.Reset();
        momentum := ZERO;
      }
      return true;
    }

    method Record(speed: Point)
      requires Valid()
      modifies momentumHistory, momentumHistory.data
      ensures Valid()
      ensures momentumHistory.Contents() == Enqueued(old(momentumHistory.Contents()), speed)
    {
      var full := momentumHistory.IsFull();
      if full {
        var _ := momentumHistory.Dequeue();
      }
      var _ := momentumHistory.Enqueue(speed);
    }

    /** The second half: whole pixels and lines go out. */
    method Emit(d: Point, timeDiff: int)
      requires Valid()
      modifies this`scrollPartialPixel, this`scrollPartialLine, this`windowsEventTimer, this`taken
      modifies this`pixelsX, this`pixelsY, this`linesX, this`linesY
      ensures Valid()
      ensures Now() == Entered(old(Now()), Emitted(platform, old(Now().s), d, timeDiff))
    {
      var px, py := d.x * PIXELS_PER_MM, d.y * PIXELS_PER_MM;
      var lx, ly := px / perLine.x, py / perLine.y;
      EmitPixels(Point(px, py));
      EmitLines(Point(lx, ly), timeDiff);
      taken := Plus(taken, d);
    }

    method EmitPixels(p: Point)
      modifies this`scrollPartialPixel, this`pixelsX, this`pixelsY
      ensures var x, y := old(scrollPartialPixel.x) + p.x, old(scrollPartialPixel.y) + p.y;
        && scrollPartialPixel == Point(x - Round(x) as real, y - Round(y) as real)
        && pixelsX == old(pixelsX) + Round(x) && pixelsY == old(pixelsY) + Round(y)
    {
      scrollPartialPixel := Point(scrollPartialPixel.x + p.x, scrollPartialPixel.y + p.y);
      var px, py := Round(scrollPartialPixel.x), Round(scrollPartialPixel.y);
      scrollPartialPixel := Point(scrollPartialPixel.x - px as real, scrollPartialPixel.y - py as real);
      pixelsX, pixelsY := pixelsX + px, pixelsY + py;
    }

    method EmitLines(l: Point, timeDiff: int)
      modifies this`scrollPartialLine, this`windowsEventTimer, this`linesX, this`linesY
      ensures var x, y := old(scrollPartialLine.x) + l.x, old(scrollPartialLine.y) + l.y;
        if platform.Windows? && old(windowsEventTimer) + timeDiff < WINDOWS_UPDATE_RATE then
          && scrollPartialLine == Point(x, y) && linesX == old(linesX) && linesY == old(linesY)
          && windowsEventTimer == old(windowsEventTimer) + timeDiff
        else
          && scrollPartialLine == Point(x - x.Floor as real, y - y.Floor as real)
          && linesX == old(linesX) + x.Floor && linesY == old(linesY) + y.Floor
          && windowsEventTimer == if platform.Windows? then 0 else old(windowsEventTimer)
    {
      scrollPartialLine := Point(scrollPartialLine.x + l.x, scrollPartialLine.y + l.y);
      if platform.Windows? {
        windowsEventTimer := windowsEventTimer + timeDiff;
        if windowsEventTimer < WINDOWS_UPDATE_RATE {
          return;
        }
        windowsEventTimer := 0;
      }
      var ilx, ily := scrollPartialLine.x.Floor, scrollPartialLine.y.Floor;
      scrollPartialLine := Point(scrollPartialLine.x - ilx as real, scrollPartialLine.y - ily as real);
      linesX, linesY := linesX + ilx, linesY + ily;
    }

    method ApplyMomentum()
      requires Valid()
      modifies this, momentumHistory, momentumHistory.data
      ensures Valid()
      ensures Now() == Entered(old(Now()), Tick(platform, old(Now().s)))
    {
      if momentumPhase != PhaseUndefined {
        var _ := ApplyScroll(momentum, TICK);
      }
    }
  }
}
