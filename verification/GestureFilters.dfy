/**
  The filters of source/GestureInteraction/GestureInteractionManager.cpp: their set-up, the order in which a frame
  updates them, and the collective zone that reads one of them.
 */
module GestureFilters {
  import opened Observations
  import opened ValueTree
  import opened RollingMean
  import opened CategoricalFilter

  const MAX_POINTABLES := 10

  /** How many pointables touch. */
  function Touching(zones: seq<Zone>): (n: nat)
    ensures n <= |zones|
  {
    if zones == [] then 0 else Touching(zones[..|zones| - 1]) + (if zones[|zones| - 1] == ZoneTouching then 1 else 0)
  }

  /** What the library reports about the motion since an earlier frame: nothing, or shares of one. */
  ghost predicate IsReport(v: seq<real>) {
    |v| == 3 && NonNegative(v) && (Sum(v) == 0.0 || (-0.00001 < Sum(v) - 1.0 < 0.00001))
  }

  /** The frame rate after a frame: only a pair of valid frames in order says anything. */
  function NewRate(f: Mean, elapsed: Option<int>): Mean
    requires |f.p1| == 1 && (elapsed.Some? ==> elapsed.value > 0)
  {
    if elapsed.Some? then Updated(f, [(SECONDS / elapsed.value) as real], 1.0) else f
  }

  /** There is nothing in the report to go by. */
  predicate SaysNothing(report: Option<seq<real>>) { report.None? || Sum(report.value) == 0.0 }

  /** No two categories have changed places; one that is told nothing by a window of 1 forgets all it knew. */
  ghost predicate OrderKept(f: Mean, g: Mean)
    requires Sound(f) && f.nonZero && Sound(g) && g.nonZero && |f.p1| == |g.p1|
  {
    forall i, j | 0 <= i < |f.p1| && 0 <= j < |f.p1| ::
      && (Probabilities(f)[i] <= Probabilities(f)[j] ==> Probabilities(g)[i] <= Probabilities(g)[j])
      && (f.sample < 1.0 ==> (Probabilities(g)[i] <= Probabilities(g)[j] <==> Probabilities(f)[i] <= Probabilities(f)[j]))
  }

  lemma NothingKeepsOrder(f: Mean, m: seq<real>, w: real)
    requires Sound(f) && f.nonZero && Measurement(m, |f.p1|) && forall i | 0 <= i < |m| :: m[i] == m[0]
    ensures var g := Windowed(Updated(f, m, 1.0), w); Sound(g) && g.nonZero && OrderKept(f, g)
  {
    var u := Updated(f, m, 1.0);
    UpdateStaysSound(f, m, 1.0);
    WindowKeepsProbabilities(u, w);
    forall i, j | 0 <= i < |f.p1| && 0 <= j < |f.p1|
      ensures Probabilities(f)[i] <= Probabilities(f)[j] ==> Probabilities(u)[i] <= Probabilities(u)[j]
      ensures f.sample < 1.0 ==> (Probabilities(u)[i] <= Probabilities(u)[j] <==> Probabilities(f)[i] <= Probabilities(f)[j])
    {
      EvenEvidenceKeepsOrder(f, m, 1.0, i, j);
    }
  }

  /** A filter that has seen nothing, at any window. */
  lemma InitialIsNeutral(count: nat, w: real)
    requires count > 0
    ensures IsNeutral(Windowed(Initial(count), w))
  {
    RestartIsNeutral(Cleared(count, 1.0));
    WindowKeepsProbabilities(Initial(count), w);
  }

  class GestureFilters {
    const pointableCount: CategoricalFilter<nat>
    const rts: CategoricalFilter<Motion>
    const fps: RollingMean

    ghost predicate Valid()
      reads this, pointableCount, rts, fps, pointableCount.filter, rts.filter
    {
      && pointableCount.Valid() && rts.Valid() && fps.Valid() && fps.dim == 1
      && pointableCount.filter != rts.filter && fps != pointableCount.filter && fps != rts.filter
      && pointableCount.threshold == 0.8 && rts.threshold == 0.9
      && pointableCount.categories == seq(MAX_POINTABLES, i => i)
      && rts.categories == [Rotating, Translating, Scaling]
      && IsWhole(pointableCount.filter.Now()) && rts.filter.integral == 1.0
    }

    static method MakeCountFilter() returns (c: CategoricalFilter<nat>)
      ensures c.Valid() && fresh(c) && fresh(c.filter) && c.threshold == 0.8
      ensures c.categories == seq(MAX_POINTABLES, i => i)
      ensures c.filter.Now() == Windowed(Initial(MAX_POINTABLES), 16.0)
    {
      var counts: seq<nat> := [];
      for i := 0 to MAX_POINTABLES
        invariant counts == seq(i, j => j)
      {
        counts := counts + [i];
      }
      var index := MakeIndexMap(counts);
      var mean := new RollingMean(MAX_POINTABLES);
      c := new CategoricalFilter<nat>(counts, index.value, mean, 0.8);
      c.SetWindow(16.0);
    }

    static method MakeMotionFilter() returns (c: CategoricalFilter<Motion>)
      ensures c.Valid() && fresh(c) && fresh(c.filter) && c.threshold == 0.9
      ensures c.categories == [Rotating, Translating, Scaling]
      ensures c.filter.Now() == Windowed(Initial(3), 2.0)
    {
      var motions := [Rotating, Translating, Scaling];
      var index := MakeIndexMap(motions);
      var mean := new RollingMean(3);
      c := new CategoricalFilter<Motion>(motions, index.value, mean, 0.9);
      c.SetWindow(2.0);
    }

    constructor ()
      ensures Valid()
      ensures fresh(pointableCount) && fresh(rts) && fresh(fps) && fresh(pointableCount.filter) && fresh(rts.filter)
      ensures pointableCount.filter.Now() == Windowed(Initial(MAX_POINTABLES), 16.0)
      ensures rts.filter.Now() == Windowed(Initial(3), 2.0)
      ensures IsNeutral(pointableCount.filter.Now()) && IsNeutral(rts.filter.Now())
    {
      InitialIsNeutral(MAX_POINTABLES, 16.0);
      InitialIsNeutral(3, 2.0);
      var rate := new RollingMean(1);
      rate.SetWindow(5.0);
      var countFilter := MakeCountFilter();
      var motionFilter := MakeMotionFilter();
      EveryRunIsWhole(MAX_POINTABLES, []);
      WindowStaysWhole(Initial(MAX_POINTABLES), 16.0);
      InitialIsWhole(3);
      pointableCount, rts, fps := countFilter, motionFilter, rate;
    }

    /** `rtsProbabilityVector`: the report on the frame 20 ms ago, or ambiguity where there is none. */
    method RtsProbabilityVector(report: Option<seq<real>>) returns (v: seq<real>)
      requires report.Some? ==> IsReport(report.value)
      ensures Measurement(v, 3)
      ensures v == if report.Some? && Sum(report.value) != 0.0 then report.value else Ambiguous(3)
      ensures SaysNothing(report) ==> v[0] == v[1] == v[2] == 1.0 / 3.0
    {
      var probability := 0.0;
      if report.Some? {
        v := report.value;
        for i := 0 to 3
          invariant probability == Sum(v[..i])
        {
          assert v[..i + 1][..i] == v[..i];
          probability := probability + v[i];
        }
        assert v[..3] == v;
      }
      if probability == 0.0 {
        AmbiguousIsNormalised(3);
        return Ambiguous(3);
      }
    }

    method CountPointables(count: nat)
      requires Valid()
      modifies pointableCount`valuesAreCached, pointableCount.filter
      ensures Valid()
      ensures var c := if count < MAX_POINTABLES then count else MAX_POINTABLES - 1;
        pointableCount.filter.Now() == Updated(old(pointableCount.filter.Now()), Unit(MAX_POINTABLES, c), 1.0)
    {
      var c := if count < MAX_POINTABLES then count else MAX_POINTABLES - 1;
      assert pointableCount.categories[c] == c;
      UnitIsNormalised(MAX_POINTABLES, c);
      UpdateStaysWhole(pointableCount.filter.Now(), Unit(MAX_POINTABLES, c), 1.0);
      var _ := pointableCount.UpdateWithCategory(c, 1.0);
    }

    method MeasureMotion(report: Option<seq<real>>)
      requires Valid() && (report.Some? ==> IsReport(report.value))
      modifies rts`valuesAreCached, rts.filter
      ensures Valid()
      ensures var v := if report.Some? && Sum(report.value) != 0.0 then report.value else Ambiguous(3);
        rts.filter.Now() == Updated(old(rts.filter.Now()), v, 1.0)
      ensures SaysNothing(report) ==> OrderKept(old(rts.filter.Now()), rts.filter.Now())
    {
      var v := RtsProbabilityVector(report);
      if SaysNothing(report) { NothingKeepsOrder(rts.filter.Now(), v, 0.0); }
      WholeStaysWhole(Filter(1.0, rts.filter.sample));
      rts.UpdateWithProbabilityVector(v, 1.0);
    }

    /** `elapsed` is the time since the earlier frame, where both frames are valid and in order. */
    method MeasureRate(elapsed: Option<int>) returns (rate: real)
      requires Valid() && (elapsed.Some? ==> elapsed.value > 0)
      modifies fps
      ensures Valid() && rate == Predicted(fps.Now())[0]
      ensures fps.Now() == NewRate(old(fps.Now()), elapsed)
    {
      if elapsed.Some? {
        fps.Update([(SECONDS / elapsed.value) as real], 1.0);
      }
      var v := fps.Predict();
      rate := v[0];
    }

    method FollowRate(rate: real)
      requires Valid()
      modifies pointableCount.filter, rts.filter
      ensures Valid()
      ensures pointableCount.filter.Now() == Windowed(old(pointableCount.filter.Now()), rate / 15.0)
      ensures rts.filter.Now() == Windowed(old(rts.filter.Now()), rate / 20.0)
    {
      WindowStaysWhole(pointableCount.filter.Now(), rate / 15.0);
      rts.SetWindow(rate / 20.0);
      pointableCount.SetWindow(rate / 15.0);
    }

    /**
      The filter updates of `processFrame`, in its order.  The count filter takes in one whole vote at the window
      of the frame before, and its window then follows the frame rate.
     */
    method ProcessFrame(count: nat, report: Option<seq<real>>, elapsed: Option<int>)
      requires Valid() && (report.Some? ==> IsReport(report.value)) && (elapsed.Some? ==> elapsed.value > 0)
      modifies pointableCount`valuesAreCached, rts`valuesAreCached, fps, pointableCount.filter, rts.filter
      ensures Valid()
      ensures fps.Now() == NewRate(old(fps.Now()), elapsed)
      ensures var c := if count < MAX_POINTABLES then count else MAX_POINTABLES - 1;
        pointableCount.filter.Now() ==
          Windowed(Updated(old(pointableCount.filter.Now()), Unit(MAX_POINTABLES, c), 1.0), Predicted(fps.Now())[0] / 15.0)
      ensures var v := if report.Some? && Sum(report.value) != 0.0 then report.value else Ambiguous(3);
        rts.filter.Now() == Windowed(Updated(old(rts.filter.Now()), v, 1.0), Predicted(fps.Now())[0] / 20.0)
    {
      CountPointables(count);
      MeasureMotion(report);
      var rate := MeasureRate(elapsed);
      FollowRate(rate);
    }

    /** The collective zone: touching when every counted pointable touches, or three do. */
    method CollectiveZone(zones: seq<Zone>) returns (z: Zone)
      requires Valid()
      modifies pointableCount
      ensures Valid()
      ensures z == ZoneNone <==> zones == []
      ensures var p := Probabilities(pointableCount.filter.Now());
        (z == ZoneTouching) ==
          (zones != [] && (Touching(zones) >= 3 || (Touching(zones) < MAX_POINTABLES && p[Touching(zones)] >= 0.8)))
    {
      if zones == [] {
        return ZoneNone;
      }
      var touching := 0;
      for i := 0 to |zones|
        invariant touching == Touching(zones[..i])
      {
        assert zones[..i + 1][..i] == zones[..i];
        if zones[i] == ZoneTouching {
          touching := touching + 1;
        }
      }
      assert zones[..|zones|] == zones;
      var counted := pointableCount.FilteredCategory();
      CountedIsUnique(counted, touching);
      if counted == Some(touching) || touching >= 3 {
        return ZoneTouching;
      }
      return ZoneHovering;
    }

    /**
      In any state reached, the same count in frame after frame: its probability approaches 1 by a factor of
      `1 - 1/w` for the window each frame meets.
     */
    lemma CountConverges(c: nat, windows: seq<real>)
      requires Valid() && c < MAX_POINTABLES
      ensures var f, m := pointableCount.filter.Now(), Unit(MAX_POINTABLES, c);
        var g := Frames(f, m, windows);
        IsWhole(g) && Probabilities(g)[c] == Faded(1.0, Remains(f, m, windows), Probabilities(f)[c])
    {
      FramesVote(pointableCount.filter.Now(), c, windows);
    }

    /** And it becomes the unambiguous count exactly when that is enough. */
    lemma CountBecomesUnambiguousIff(c: nat, windows: seq<real>)
      requires Valid() && c < MAX_POINTABLES
      ensures var f, m := pointableCount.filter.Now(), Unit(MAX_POINTABLES, c);
        var g := Frames(f, m, windows);
        && IsWhole(g)
        && (Probabilities(g)[c] >= 0.8 <==> Doubt(Remains(f, m, windows), Probabilities(f)[c]) <= 1.0 - 0.8)
    {
      FramesPassIff(pointableCount.filter.Now(), c, windows, 0.8);
    }

    lemma CountedIsUnique(counted: Option<nat>, n: nat)
      requires Valid()
      requires var p := Probabilities(pointableCount.filter.Now());
        if counted.None? then forall i | 0 <= i < MAX_POINTABLES :: p[i] < 0.8
        else exists i: nat :: IsFirstMax(p, i) && p[i] >= 0.8 && counted.value == i
      ensures counted == Some(n) <==> n < MAX_POINTABLES && Probabilities(pointableCount.filter.Now())[n] >= 0.8
    {
      if counted.Some? && n < MAX_POINTABLES && n != counted.value {
        UnambiguousIsUnique(pointableCount.filter.Now(), counted.value, n, 0.8);
        if Probabilities(pointableCount.filter.Now())[n] >= 0.8 {
          UnambiguousIsUnique(pointableCount.filter.Now(), n, counted.value, 0.8);
        }
      }
    }
  }
}
