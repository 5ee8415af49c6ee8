/**
  The categorical filter of source/Utility/CategoricalFilter.h over a rolling mean.
 */
module CategoricalFilter {
  import opened ValueTree
  import opened Reals
  import opened RollingMean

  const EPSILON := 0.0000000001

  /** A vector of evidence: normalised vectors are the usual case, but only this much is relied on. */
  ghost predicate Measurement(m: seq<real>, count: nat) { |m| == count && NonNegative(m) && Sum(m) > EPSILON }

  function Ambiguous(count: nat): (v: seq<real>)
    requires count > 0
    ensures |v| == count
  {
    Constant(count, 1.0 / count as real)
  }

  function Unit(count: nat, index: nat): (v: seq<real>)
    ensures |v| == count
  {
    seq(count, i => if i == index then 1.0 else 0.0)
  }

  lemma AmbiguousIsNormalised(count: nat)
    requires count > 0
    ensures NonNegative(Ambiguous(count)) && Sum(Ambiguous(count)) == 1.0 && Measurement(Ambiguous(count), count)
  {
    SumOfConstant(count, 1.0 / count as real);
  }

  lemma {:induction false} UnitIsNormalised(count: nat, index: nat)
    requires index < count
    ensures NonNegative(Unit(count, index)) && Sum(Unit(count, index)) == 1.0 && Measurement(Unit(count, index), count)
    decreases count
  {
    var n := count - 1;
    if index < n {
      UnitIsNormalised(n, index);
      assert Unit(count, index)[..n] == Unit(n, index);
    } else {
      SumOfConstant(n, 0.0);
      assert Unit(count, index)[..n] == Constant(n, 0.0);
    }
  }

  // ------------------------------------------------ what every use keeps

  /** Weights in range, evidence non-negative and not vanishing against the weight it carries. */
  ghost predicate Sound(f: Mean) {
    InRange(f) && NonNegative(f.p1) && (if f.nonZero then Sum(f.p1) > EPSILON * f.integral else Sum(f.p1) == 0.0)
  }

  datatype Action = Measure(m: seq<real>, weight: real) | Window(w: real) | Restart

  ghost predicate Allowed(a: Action, count: nat) { a.Measure? ==> Measurement(a.m, count) && IsWeight(a.weight) }

  /** `reset`: one ambiguous measurement after clearing. */
  function Restarted(f: Mean): Mean
    requires |f.p1| > 0
  {
    Updated(Cleared(|f.p1|, f.sample), Ambiguous(|f.p1|), 1.0)
  }

  function Act(f: Mean, a: Action): (r: Mean)
    requires |f.p1| > 0 && (a.Measure? ==> |a.m| == |f.p1|)
    ensures |r.p1| == |f.p1|
  {
    match a
    case Measure(m, weight) => Updated(f, m, weight)
    case Window(w) => Windowed(f, w)
    case Restart => Restarted(f)
  }

  lemma CombinationIsMonotone(k: real, j: real, a: real, b: real, x: real, y: real)
    requires 0.0 < k && 0.0 <= j && a > x && b >= y
    ensures Combine(k, j, a, b) > Combine(k, j, x, y)
  {
    TimesStrictly(k, x, a);
    Times(j, y, b);
  }

  lemma FactorOut(e: real, k: real, c: real)
    ensures Mix(k, e, e * c) == e * Mix(k, 1.0, c)
  {}

  lemma MixIsMonotone(k: real, a: real, b: real, x: real, y: real)
    requires IsWeight(k) && a > x && b >= y
    ensures Mix(k, a, b) > Mix(k, x, y)
  {
    CombinationIsMonotone(k, 1.0 - k, a, b, x, y);
  }

  /** Evidence above the bound, mixed with evidence at or above it, stays above it. */
  lemma MixStaysAbove(k: real, a: real, b: real, c: real)
    requires IsWeight(k) && a > EPSILON && b >= EPSILON * c
    ensures Mix(k, a, b) > EPSILON * Mix(k, 1.0, c)
  {
    MixIsMonotone(k, a, b, EPSILON, EPSILON * c);
    FactorOut(EPSILON, k, c);
  }

  lemma MixIsNonNegative(k: real, a: real, b: real)
    requires IsWeight(k) && 0.0 <= a && 0.0 <= b
    ensures 0.0 <= Mix(k, a, b)
  {
    var rest := 1.0 - k;
    Times(k, 0.0, a);
    Times(rest, 0.0, b);
    assert 0.0 <= rest * b;
  }

  lemma BlendIsNonNegative(k: real, m: seq<real>, p: seq<real>)
    requires IsWeight(k) && |m| == |p| && NonNegative(m) && NonNegative(p)
    ensures NonNegative(Blend(k, m, p))
  {
    forall i | 0 <= i < |m| ensures 0.0 <= Blend(k, m, p)[i] {
      MixIsNonNegative(k, m[i], p[i]);
    }
  }

  lemma BlendStaysAbove(k: real, m: seq<real>, p: seq<real>, integral: real)
    requires IsWeight(k) && |m| == |p| && Sum(m) > EPSILON && Sum(p) >= EPSILON * integral
    ensures Sum(Blend(k, m, p)) > EPSILON * Mix(k, 1.0, integral)
  {
    SumOfBlend(k, m, p);
    MixStaysAbove(k, Sum(m), Sum(p), integral);
  }

  lemma MixedStaysSound(f: Mean, m: seq<real>, k: real)
    requires Sound(f) && Measurement(m, |f.p1|) && IsWeight(k)
    ensures Sound(Mixed(f, m, k)) && Mixed(f, m, k).nonZero
  {
    MixedStaysInRange(f, m, k);
    BlendStaysAbove(k, m, f.p1, f.integral);
    BlendIsNonNegative(k, m, f.p1);
  }

  lemma UpdateStaysSound(f: Mean, m: seq<real>, weight: real)
    requires Sound(f) && |f.p1| > 0 && Measurement(m, |f.p1|) && IsWeight(weight)
    ensures Sound(Updated(f, m, weight)) && Updated(f, m, weight).nonZero
  {
    ProductIsWeight(weight, f.sample);
    MixedStaysSound(f, m, Filter(weight, f.sample));
  }

  lemma ClearedIsSound(count: nat, sample: real)
    requires IsWeight(sample)
    ensures Sound(Cleared(count, sample))
  {
    SumOfConstant(count, 0.0);
  }

  lemma ActionStaysSound(f: Mean, a: Action)
    requires Sound(f) && |f.p1| > 0 && Allowed(a, |f.p1|)
    ensures Sound(Act(f, a)) && (f.nonZero ==> Act(f, a).nonZero)
  {
    match a
    case Measure(m, weight) => UpdateStaysSound(f, m, weight);
    case Window(w) => WindowStaysInRange(f, w);
    case Restart =>
      ClearedIsSound(|f.p1|, f.sample);
      AmbiguousIsNormalised(|f.p1|);
      UpdateStaysSound(Cleared(|f.p1|, f.sample), Ambiguous(|f.p1|), 1.0);
  }

  /** The state after construction. */
  function Initial(count: nat): (f: Mean)
    requires count > 0
    ensures |f.p1| == count
  {
    Restarted(Cleared(count, 1.0))
  }

  lemma InitialIsWhole(count: nat)
    requires count > 0
    ensures Sound(Initial(count)) && Initial(count).nonZero && Initial(count).integral == 1.0 && IsReady(Initial(count))
  {
    ClearedIsSound(count, 1.0);
    ActionStaysSound(Cleared(count, 1.0), Restart);
    AmbiguousIsNormalised(count);
    UpdateStaysSound(Cleared(count, 1.0), Ambiguous(count), 1.0);
  }

  ghost predicate AllAllowed(actions: seq<Action>, count: nat) { forall i | 0 <= i < |actions| :: Allowed(actions[i], count) }

  function ActAll(count: nat, actions: seq<Action>): (f: Mean)
    requires count > 0 && AllAllowed(actions, count)
    ensures |f.p1| == count
  {
    if actions == [] then Initial(count) else Act(ActAll(count, actions[..|actions| - 1]), actions[|actions| - 1])
  }

  lemma WholeStaysWhole(k: real)
    ensures Mix(k, 1.0, 1.0) == 1.0
  {}

  /**
    Under any measurements, window changes and resets the filter stays sound, so its probabilities exist, are
    non-negative and sum to 1.  Without a reset its integral stays exactly 1 and it stays ready.
   */
  lemma {:induction false} EveryRunIsSound(count: nat, actions: seq<Action>)
    requires count > 0 && AllAllowed(actions, count)
    ensures var f := ActAll(count, actions);
      && Sound(f) && f.nonZero
      && NonNegative(Probabilities(f)) && Sum(Probabilities(f)) == 1.0
      && (Restart !in actions ==> f.integral == 1.0 && IsReady(f))
    decreases |actions|
  {
    if actions == [] {
      InitialIsWhole(count);
    } else {
      var before, a := actions[..|actions| - 1], actions[|actions| - 1];
      EveryRunIsSound(count, before);
      ActionStaysSound(ActAll(count, before), a);
      if a.Measure? { WholeStaysWhole(Filter(a.weight, ActAll(count, before).sample)); }
    }
    ProbabilitiesSumToOne(ActAll(count, actions));
  }

  // ------------------------------------------------------ the probabilities

  lemma PredictionIsPositive(f: Mean)
    requires Sound(f) && f.nonZero
    ensures NonNegative(Predicted(f)) && Sum(Predicted(f)) > EPSILON
  {
    SumOfQuotient(f.p1, f.integral);
    assert Sum(f.p1) / f.integral > EPSILON;
    forall i | 0 <= i < |f.p1| ensures 0.0 <= Predicted(f)[i] {
      QuotientIsNonNegative(f.p1[i], f.integral);
    }
  }

  function Probabilities(f: Mean): (v: seq<real>)
    requires Sound(f) && f.nonZero
    ensures |v| == |f.p1|
  {
    PredictionIsPositive(f);
    Over(Predicted(f), Sum(Predicted(f)))
  }

  lemma ProbabilitiesSumToOne(f: Mean)
    requires Sound(f) && f.nonZero
    ensures NonNegative(Probabilities(f)) && Sum(Probabilities(f)) == 1.0
  {
    PredictionIsPositive(f);
    var p := Predicted(f);
    SumOfQuotient(p, Sum(p));
    WholeOfItself(Sum(p));
    forall i | 0 <= i < |p| ensures 0.0 <= Probabilities(f)[i] {
      QuotientIsNonNegative(p[i], Sum(p));
    }
  }

  /** The answer does not depend on the window, so changing it behind the cache is harmless. */
  lemma WindowKeepsProbabilities(f: Mean, w: real)
    requires Sound(f) && f.nonZero
    ensures Sound(Windowed(f, w)) && Probabilities(Windowed(f, w)) == Probabilities(f)
  {
    ActionStaysSound(f, Window(w));
  }

  ghost predicate IsFirstMax(v: seq<real>, i: nat) {
    i < |v| && (forall j | 0 <= j < |v| :: v[j] <= v[i]) && (forall j | 0 <= j < i :: v[j] < v[i])
  }

  /** With a threshold above one half an unambiguous category beats every other. */
  lemma UnambiguousIsUnique(f: Mean, i: nat, j: nat, threshold: real)
    requires Sound(f) && f.nonZero && threshold > 0.5
    requires i < |f.p1| && j < |f.p1| && i != j && Probabilities(f)[i] >= threshold
    ensures Probabilities(f)[j] < Probabilities(f)[i]
  {
    ProbabilitiesSumToOne(f);
    if i < j { SumOfTwo(Probabilities(f), i, j); } else { SumOfTwo(Probabilities(f), j, i); }
  }

  // ------------------------------------------- normalised evidence from construction

  ghost predicate AllNormalised(actions: seq<Action>) {
    forall i | 0 <= i < |actions| && actions[i].Measure? :: Sum(actions[i].m) == 1.0
  }

  lemma MixedStaysBalanced(f: Mean, m: seq<real>, k: real)
    requires |m| == |f.p1| && Sum(m) == 1.0 && Sum(f.p1) == f.integral
    ensures Sum(Mixed(f, m, k).p1) == Mixed(f, m, k).integral
  {
    SumOfBlend(k, m, f.p1);
  }

  lemma ActionStaysBalanced(f: Mean, a: Action)
    requires |f.p1| > 0 && Allowed(a, |f.p1|) && (a.Measure? ==> Sum(a.m) == 1.0) && Sum(f.p1) == f.integral
    ensures Sum(Act(f, a).p1) == Act(f, a).integral
  {
    match a
    case Measure(m, weight) => MixedStaysBalanced(f, m, Filter(weight, f.sample));
    case Window(w) =>
    case Restart => RestartBalances(f);
  }

  lemma RestartBalances(f: Mean)
    requires |f.p1| > 0
    ensures Sum(Restarted(f).p1) == Restarted(f).integral
  {
    SumOfConstant(|f.p1|, 0.0);
    AmbiguousIsNormalised(|f.p1|);
    MixedStaysBalanced(Cleared(|f.p1|, f.sample), Ambiguous(|f.p1|), Filter(1.0, f.sample));
  }

  /** As long as the evidence is normalised, it sums to the weight it carries. */
  lemma {:induction false} EveryRunIsBalanced(count: nat, actions: seq<Action>)
    requires count > 0 && AllAllowed(actions, count) && AllNormalised(actions)
    ensures Sum(ActAll(count, actions).p1) == ActAll(count, actions).integral
    decreases |actions|
  {
    if actions == [] {
      RestartBalances(Cleared(count, 1.0));
    } else {
      EveryRunIsBalanced(count, actions[..|actions| - 1]);
      ActionStaysBalanced(ActAll(count, actions[..|actions| - 1]), actions[|actions| - 1]);
    }
  }

  /** A filter whose mean is its probabilities. */
  ghost predicate IsWhole(f: Mean) { Sound(f) && f.nonZero && |f.p1| > 0 && f.integral == 1.0 && Sum(f.p1) == 1.0 }

  /** Normalised evidence and window changes from construction on keep a filter whole. */
  lemma EveryRunIsWhole(count: nat, actions: seq<Action>)
    requires count > 0 && AllAllowed(actions, count) && AllNormalised(actions) && Restart !in actions
    ensures IsWhole(ActAll(count, actions))
  {
    EveryRunIsSound(count, actions);
    EveryRunIsBalanced(count, actions);
  }

  lemma UpdateStaysWhole(f: Mean, m: seq<real>, weight: real)
    requires IsWhole(f) && Measurement(m, |f.p1|) && Sum(m) == 1.0 && IsWeight(weight)
    ensures IsWhole(Updated(f, m, weight))
  {
    UpdateStaysSound(f, m, weight);
    MixedStaysBalanced(f, m, Filter(weight, f.sample));
    WholeStaysWhole(Filter(weight, f.sample));
  }

  lemma WindowStaysWhole(f: Mean, w: real)
    requires IsWhole(f)
    ensures IsWhole(Windowed(f, w))
  {
    ActionStaysSound(f, Window(w));
  }

  lemma WholeProbabilities(f: Mean)
    requires IsWhole(f)
    ensures Probabilities(f) == f.p1
  {
    assert Predicted(f) == f.p1;
  }

  // ------------------------------------------------------ knowing nothing

  lemma QuotientOfSame(k: real, x: real)
    requires k != 0.0
    ensures Combine(k, 1.0 - k, x, 0.0) / Combine(k, 1.0 - k, 1.0, 0.0) == x
  {
    assert Combine(k, 1.0 - k, x, 0.0) == k * x && Combine(k, 1.0 - k, 1.0, 0.0) == k;
    assert k * x / k == x;
  }

  /** One measurement after clearing is predicted as it was measured, however little it weighs. */
  lemma FirstIsPredicted(count: nat, m: seq<real>, sample: real)
    requires |m| == count && IsWeight(sample)
    ensures var r := Updated(Cleared(count, sample), m, 1.0); InRange(r) && r.nonZero && Predicted(r) == m
  {
    var c := Cleared(count, sample);
    UpdateStaysInRange(c, m, 1.0);
    var r := Updated(c, m, 1.0);
    assert Filter(1.0, sample) == sample;
    forall i | 0 <= i < count ensures Predicted(r)[i] == m[i] {
      assert r.p1[i] == Mix(sample, m[i], 0.0);
      QuotientOfSame(sample, m[i]);
    }
  }

  lemma EvenlyOverOne(count: nat, v: seq<real>)
    requires count > 0 && v == Constant(count, 1.0 / count as real)
    ensures Sum(v) == 1.0 && Over(v, 1.0) == v
  {
    SumOfConstant(count, 1.0 / count as real);
  }

  /** Every category is as likely as any other. */
  ghost predicate IsNeutral(f: Mean) {
    Sound(f) && f.nonZero && forall i | 0 <= i < |f.p1| :: Probabilities(f)[i] == 1.0 / |f.p1| as real
  }

  /** So it is after a reset, and after construction. */
  lemma RestartIsNeutral(f: Mean)
    requires IsWeight(f.sample) && |f.p1| > 0
    ensures IsNeutral(Restarted(f))
  {
    var count := |f.p1|;
    ClearedIsSound(count, f.sample);
    AmbiguousIsNormalised(count);
    UpdateStaysSound(Cleared(count, f.sample), Ambiguous(count), 1.0);
    FirstIsPredicted(count, Ambiguous(count), f.sample);
    EvenlyOverOne(count, Predicted(Restarted(f)));
  }

  lemma AtMostHalf(count: nat)
    requires count >= 2
    ensures 1.0 / count as real <= 0.5
  {}

  /** With a threshold above one half, a filter of two categories or more is then sure of none. */
  lemma RestartIsUnsure(f: Mean, threshold: real)
    requires IsWeight(f.sample) && |f.p1| >= 2 && threshold > 0.5
    ensures var r := Restarted(f);
      Sound(r) && r.nonZero && forall i | 0 <= i < |f.p1| :: Probabilities(r)[i] < threshold
  {
    RestartIsNeutral(f);
    AtMostHalf(|f.p1|);
  }

  lemma OverKeepsOrder(a: real, b: real, k: real)
    requires k > 0.0
    ensures a / k <= b / k <==> a <= b
  {
    TimesQuotient(k, a);
    TimesQuotient(k, b);
    ProductsKeepOrder(k, a / k, b / k);
  }

  /** The more evidence, the more probable. */
  lemma ProbabilitiesKeepOrder(f: Mean, i: nat, j: nat)
    requires Sound(f) && f.nonZero && i < |f.p1| && j < |f.p1|
    ensures Probabilities(f)[i] <= Probabilities(f)[j] <==> f.p1[i] <= f.p1[j]
  {
    PredictionIsPositive(f);
    var v := Predicted(f);
    OverKeepsOrder(f.p1[i], f.p1[j], f.integral);
    OverKeepsOrder(v[i], v[j], Sum(v));
  }

  lemma CombineKeepsOrder(k: real, rest: real, m: real, a: real, b: real)
    requires 0.0 <= rest
    ensures a <= b ==> Combine(k, rest, m, a) <= Combine(k, rest, m, b)
    ensures 0.0 < rest && a > b ==> Combine(k, rest, m, a) > Combine(k, rest, m, b)
  {
    if a <= b { Times(rest, a, b); } else if 0.0 < rest { TimesStrictly(rest, b, a); }
  }

  lemma MixKeepsOrder(k: real, m: real, a: real, b: real)
    requires IsWeight(k)
    ensures a <= b ==> Mix(k, m, a) <= Mix(k, m, b)
    ensures k < 1.0 && a > b ==> Mix(k, m, a) > Mix(k, m, b)
    ensures k == 1.0 ==> Mix(k, m, a) == m
  {
    CombineKeepsOrder(k, 1.0 - k, m, a, b);
  }

  /** What even evidence does to two components. */
  lemma EvenMixKeepsOrder(f: Mean, m: seq<real>, k: real, i: nat, j: nat)
    requires |m| == |f.p1| && IsWeight(k) && i < |m| && j < |m| && m[i] == m[j]
    ensures var g := Mixed(f, m, k);
      && (f.p1[i] <= f.p1[j] ==> g.p1[i] <= g.p1[j])
      && (k < 1.0 && f.p1[i] > f.p1[j] ==> g.p1[i] > g.p1[j])
      && (k == 1.0 ==> g.p1[i] == g.p1[j])
  {
    var g := Mixed(f, m, k);
    assert g.p1[i] == Mix(k, m[i], f.p1[i]) && g.p1[j] == Mix(k, m[i], f.p1[j]);
    MixKeepsOrder(k, m[i], f.p1[i], f.p1[j]);
    MixKeepsOrder(k, m[i], f.p1[j], f.p1[i]);
  }

  /**
    Evidence that does not tell two categories apart leaves their order as it was; only where it replaces everything known
    before does it make them equal.
   */
  lemma EvenEvidenceKeepsOrder(f: Mean, m: seq<real>, weight: real, i: nat, j: nat)
    requires Sound(f) && f.nonZero && Measurement(m, |f.p1|) && IsWeight(weight)
    requires i < |f.p1| && j < |f.p1| && m[i] == m[j]
    ensures var g := Updated(f, m, weight);
      && Sound(g) && g.nonZero
      && (Probabilities(f)[i] <= Probabilities(f)[j] ==> Probabilities(g)[i] <= Probabilities(g)[j])
      && (weight * f.sample < 1.0 ==> (Probabilities(g)[i] <= Probabilities(g)[j] <==> Probabilities(f)[i] <= Probabilities(f)[j]))
      && (weight * f.sample == 1.0 ==> Probabilities(g)[i] == Probabilities(g)[j])
  {
    var g := Updated(f, m, weight);
    UpdateStaysSound(f, m, weight);
    ProductIsWeight(weight, f.sample);
    EvenMixKeepsOrder(f, m, Filter(weight, f.sample), i, j);
    ProbabilitiesKeepOrder(f, i, j);
    ProbabilitiesKeepOrder(g, i, j);
    ProbabilitiesKeepOrder(g, j, i);
  }

  // ---------------------------------------------- the same category again and again

  lemma {:induction false} RepeatedStaysWhole(f: Mean, m: seq<real>, n: nat)
    requires IsWhole(f) && Measurement(m, |f.p1|) && Sum(m) == 1.0
    ensures IsWhole(Repeated(f, m, n))
    decreases n
  {
    if n != 0 {
      RepeatedStaysWhole(f, m, n - 1);
      UpdateStaysWhole(Repeated(f, m, n - 1), m, 1.0);
    }
  }

  /** `n` equal updates at window `1 / f.sample` leave the category's probability at 1 - (1 - 1/w)^n (1 - p). */
  lemma RepeatedCategory(f: Mean, c: nat, n: nat)
    requires IsWhole(f) && c < |f.p1|
    ensures var g := Repeated(f, Unit(|f.p1|, c), n);
      IsWhole(g) && Probabilities(g)[c] == Faded(1.0, Pow(1.0 - f.sample, n), Probabilities(f)[c])
  {
    var m := Unit(|f.p1|, c);
    var g := Repeated(f, m, n);
    UnitIsNormalised(|f.p1|, c);
    RepeatedStaysWhole(f, m, n);
    WholeProbabilities(f);
    WholeProbabilities(g);
    RepeatedUpdatesConverge(f, m, n, c);
  }

  /** So it passes the threshold exactly when the updates are enough. */
  lemma RepeatedCategoryPassesIff(f: Mean, c: nat, n: nat, threshold: real)
    requires IsWhole(f) && c < |f.p1|
    ensures var g := Repeated(f, Unit(|f.p1|, c), n);
      && IsWhole(g)
      && (Probabilities(g)[c] >= threshold <==> Pow(1.0 - f.sample, n) * (1.0 - Probabilities(f)[c]) <= 1.0 - threshold)
  {
    RepeatedCategory(f, c, n);
  }

  /** The law from construction on: after any normalised evidence and any window changes, `n` equal updates. */
  lemma RepeatedCategoryAfterRun(count: nat, actions: seq<Action>, c: nat, n: nat)
    requires c < count && AllAllowed(actions, count) && AllNormalised(actions) && Restart !in actions
    ensures var f := ActAll(count, actions);
      var g := Repeated(f, Unit(count, c), n);
      IsWhole(f) && IsWhole(g) && Probabilities(g)[c] == Faded(1.0, Pow(1.0 - f.sample, n), Probabilities(f)[c])
  {
    EveryRunIsWhole(count, actions);
    RepeatedCategory(ActAll(count, actions), c, n);
  }

  /** The same measurement once for each window, which is set after it, as one frame does after another. */
  function Frames(f: Mean, m: seq<real>, windows: seq<real>): (r: Mean)
    requires |m| == |f.p1|
    ensures |r.p1| == |f.p1|
  {
    if windows == [] then f
    else Windowed(Updated(Frames(f, m, windows[..|windows| - 1]), m, 1.0), windows[|windows| - 1])
  }

  function Shrunk(sample: real, q: real): real { (1.0 - sample) * q }

  /** The part of the past that is left after those frames: a factor `1 - 1/w` for the window each one met. */
  function Remains(f: Mean, m: seq<real>, windows: seq<real>): real
    requires |m| == |f.p1|
  {
    if windows == [] then 1.0
    else
      var before := windows[..|windows| - 1];
      Shrunk(Frames(f, m, before).sample, Remains(f, m, before))
  }

  lemma FrameFades(f: Mean, m: seq<real>, w: real, i: nat, q: real, x: real)
    requires |m| == |f.p1| && i < |m| && f.p1[i] == Faded(m[i], q, x)
    ensures Windowed(Updated(f, m, 1.0), w).p1[i] == Faded(m[i], Shrunk(f.sample, q), x)
  {
    assert Filter(1.0, f.sample) == f.sample;
    assert Windowed(Updated(f, m, 1.0), w).p1[i] == Mix(f.sample, m[i], f.p1[i]);
    Decay(f.sample, q, m[i], x);
  }

  lemma {:induction false} FramesConverge(f: Mean, m: seq<real>, windows: seq<real>, i: nat)
    requires |m| == |f.p1| && i < |m|
    ensures Frames(f, m, windows).p1[i] == Faded(m[i], Remains(f, m, windows), f.p1[i])
    decreases |windows|
  {
    if windows != [] {
      var before := windows[..|windows| - 1];
      FramesConverge(f, m, before, i);
      FrameFades(Frames(f, m, before), m, windows[|windows| - 1], i, Remains(f, m, before), f.p1[i]);
    }
  }

  lemma {:induction false} FramesStayWhole(f: Mean, m: seq<real>, windows: seq<real>)
    requires IsWhole(f) && Measurement(m, |f.p1|) && Sum(m) == 1.0
    ensures IsWhole(Frames(f, m, windows))
    decreases |windows|
  {
    if windows != [] {
      var before := windows[..|windows| - 1];
      FramesStayWhole(f, m, before);
      UpdateStaysWhole(Frames(f, m, before), m, 1.0);
      WindowStaysWhole(Updated(Frames(f, m, before), m, 1.0), windows[|windows| - 1]);
    }
  }

  /** Voting for one category in every frame, whatever the windows. */
  lemma FramesVote(f: Mean, c: nat, windows: seq<real>)
    requires IsWhole(f) && c < |f.p1|
    ensures var m := Unit(|f.p1|, c);
      var g := Frames(f, m, windows);
      IsWhole(g) && Probabilities(g)[c] == Faded(1.0, Remains(f, m, windows), Probabilities(f)[c])
  {
    var m := Unit(|f.p1|, c);
    UnitIsNormalised(|f.p1|, c);
    FramesStayWhole(f, m, windows);
    WholeProbabilities(f);
    WholeProbabilities(Frames(f, m, windows));
    FramesConverge(f, m, windows, c);
  }

  /** The share `q` of what `p` lacks. */
  function Doubt(q: real, p: real): real { q * (1.0 - p) }

  lemma FadedPassesIff(q: real, p: real, threshold: real)
    ensures Faded(1.0, q, p) >= threshold <==> Doubt(q, p) <= 1.0 - threshold
  {}

  /** So it passes the threshold exactly when little enough doubt is left. */
  lemma FramesPassIff(f: Mean, c: nat, windows: seq<real>, threshold: real)
    requires IsWhole(f) && c < |f.p1|
    ensures var m := Unit(|f.p1|, c);
      var g := Frames(f, m, windows);
      && IsWhole(g)
      && (Probabilities(g)[c] >= threshold <==> Doubt(Remains(f, m, windows), Probabilities(f)[c]) <= 1.0 - threshold)
  {
    FramesVote(f, c, windows);
    FadedPassesIff(Remains(f, Unit(|f.p1|, c), windows), Probabilities(f)[c], threshold);
  }

  /**
    `reset` asserts that the filter is ready afterwards.  The one ambiguous measurement only weighs as much as the
    window lets it, so the assertion holds exactly for windows of at most 2.
   */
  lemma ResetIsReadyIff(f: Mean, window: real)
    requires InRange(f) && |f.p1| > 0 && 1.0 <= window
    ensures IsReady(Restarted(Windowed(f, window))) <==> window <= 2.0
  {
    var s := 1.0 / window;
    assert Restarted(Windowed(f, window)).integral == s;
    HalfIff(window);
  }

  lemma HalfIff(w: real)
    requires 1.0 <= w
    ensures 1.0 - 1.0 / w <= 1.0 / w <==> w <= 2.0
  {
    assert (1.0 / w) * w == 1.0;
    if w <= 2.0 { assert (1.0 / w) * 2.0 >= (1.0 / w) * w; } else { assert (1.0 / w) * 2.0 < (1.0 / w) * w; }
  }

  // --------------------------------------------------------------- the class

  /** The index map, or `None` where the constructor throws because a category is listed twice. */
  method MakeIndexMap<C(==)>(categories: seq<C>) returns (r: Option<map<C, nat>>)
    ensures r.None? <==> exists i, j :: 0 <= i < j < |categories| && categories[i] == categories[j]
    ensures r.Some? ==> IsIndexMap(r.value, categories)
  {
    var indexMap: map<C, nat> := map[];
    for i := 0 to |categories|
      invariant IsIndexMap(indexMap, categories[..i])
      invariant forall j, k :: 0 <= j < k < i ==> categories[j] != categories[k]
    {
      if categories[i] in indexMap {
        assert categories[indexMap[categories[i]]] == categories[i];
        return None;
      }
      indexMap := indexMap[categories[i] := i];
    }
    assert categories[..|categories|] == categories;
    return Some(indexMap);
  }

  ghost predicate IsIndexMap<C>(m: map<C, nat>, categories: seq<C>) {
    && (forall i | 0 <= i < |categories| :: categories[i] in m && m[categories[i]] == i)
    && (forall c | c in m :: m[c] < |categories| && categories[m[c]] == c)
  }

  /** The first component that is as large as any. */
  method FindMax(v: seq<real>) returns (best: nat, largest: real)
    requires v != []
    ensures IsFirstMax(v, best) && largest == v[best]
  {
    best, largest := 0, 0.0;
    for i := 0 to |v|
      invariant i > 0 ==> IsFirstMax(v[..i], best) && largest == v[best]
    {
      if i == 0 || largest < v[i] {
        largest := v[i];
        best := i;
      }
    }
    assert v[..|v|] == v;
  }

  class CategoricalFilter<C(==)> {
    const categories: seq<C>
    const indexMap: map<C, nat>
    const filter: RollingMean
    const threshold: real
    var valuesAreCached: bool
    var maxProbabilityCategory: nat
    var maxProbability: real
    var isUnambiguous: bool
    var filtered: Option<C>
    var probabilityVector: seq<real>

    /** The cache, when it is marked valid, is what would be computed now. */
    ghost predicate Valid()
      reads this, filter
    {
      && filter.Valid() && filter.dim == |categories| > 0
      && 0.0 < threshold <= 1.0 && IsIndexMap(indexMap, categories)
      && Sound(filter.Now()) && filter.nonZero
      && (valuesAreCached ==>
            && probabilityVector == Probabilities(filter.Now())
            && IsFirstMax(probabilityVector, maxProbabilityCategory)
            && maxProbability == probabilityVector[maxProbabilityCategory]
            && isUnambiguous == (maxProbability >= threshold)
            && filtered == if isUnambiguous then Some(categories[maxProbabilityCategory]) else None)
    }

    constructor (categories: seq<C>, indexMap: map<C, nat>, filter: RollingMean, threshold: real)
      requires |categories| > 0 && IsIndexMap(indexMap, categories)
      requires filter.Valid() && filter.dim == |categories| && filter.Now() == Cleared(|categories|, 1.0)
      requires 0.0 < threshold <= 1.0
      modifies filter
      ensures Valid() && this.filter == filter && this.categories == categories && this.threshold == threshold
      ensures filter.Now() == Initial(|categories|)
      ensures IsNeutral(filter.Now())
    {
      this.categories := categories;
      this.indexMap := indexMap;
      this.filter := filter;
      this.threshold := threshold;
      valuesAreCached := false;
      maxProbabilityCategory, maxProbability, isUnambiguous, filtered, probabilityVector := 0, 0.0, false, None, [];
      new;
      RestartIsNeutral(filter.Now());
      var ready := Clear();
      InitialIsWhole(|categories|);
    }

    /** The filter part of `reset`; `ready` is the value it asserts. */
    method Clear() returns (ready: bool)
      requires filter.Valid() && filter.dim == |categories| > 0
      modifies filter, this`valuesAreCached
      ensures filter.Valid() && !valuesAreCached
      ensures filter.Now() == Restarted(old(filter.Now())) && ready == IsReady(filter.Now())
    {
      filter.Reset();
      filter.Update(Ambiguous(|categories|), 1.0);
      ready := filter.Ready();
      valuesAreCached := false;
    }

    method Reset() returns (ready: bool)
      requires Valid()
      modifies filter, this`valuesAreCached
      ensures Valid() && !valuesAreCached
      ensures filter.Now() == Restarted(old(filter.Now())) && ready == IsReady(filter.Now())
      ensures IsNeutral(filter.Now())
    {
      ActionStaysSound(filter.Now(), Restart);
      RestartIsNeutral(filter.Now());
      ready := Clear();
    }

    /** False where the map lookup throws. */
    method UpdateWithCategory(category: C, weight: real) returns (ok: bool)
      requires Valid() && IsWeight(weight)
      modifies filter, this`valuesAreCached
      ensures Valid()
      ensures ok <==> category in categories
      ensures ok ==> exists i :: 0 <= i < |categories| && categories[i] == category &&
                                 filter.Now() == Updated(old(filter.Now()), Unit(|categories|, i), weight)
      ensures !ok ==> filter.Now() == old(filter.Now()) && valuesAreCached == old(valuesAreCached)
    {
      if category !in indexMap {
        return false;
      }
      var i := indexMap[category];
      UnitIsNormalised(|categories|, i);
      UpdateWithProbabilityVector(Unit(|categories|, i), weight);
      assert categories[i] == category;
      return true;
    }

    method UpdateWithProbabilityVector(probabilities: seq<real>, weight: real)
      requires Valid() && Measurement(probabilities, |categories|) && IsWeight(weight)
      modifies filter, this`valuesAreCached
      ensures Valid() && !valuesAreCached
      ensures filter.Now() == Updated(old(filter.Now()), probabilities, weight)
    {
      UpdateStaysSound(filter.Now(), probabilities, weight);
      filter.Update(probabilities, weight);
      valuesAreCached := false;
    }

    /** `getFilterAs<RollingMean>().SetWindow(w)`: the cache is not told. */
    method SetWindow(w: real)
      requires Valid()
      modifies filter
      ensures Valid() && filter.Now() == Windowed(old(filter.Now()), w)
    {
      WindowKeepsProbabilities(filter.Now(), w);
      filter.SetWindow(w);
    }

    method Normalized() returns (v: seq<real>)
      requires Valid()
      ensures v == Probabilities(filter.Now())
    {
      var probabilities := filter.Predict();
      PredictionIsPositive(filter.Now());
      var normalizationFactor := 0.0;
      for i := 0 to |categories|
        invariant normalizationFactor == Sum(probabilities[..i])
      {
        assert 0.0 <= probabilities[i];
        assert probabilities[..i + 1][..i] == probabilities[..i];
        normalizationFactor := normalizationFactor + probabilities[i];
      }
      assert probabilities[..|categories|] == probabilities;
      assert normalizationFactor > EPSILON;
      v := Over(probabilities, normalizationFactor);
    }

    /** The assertion that the filter is ready is the precondition. */
    method EnsureValuesAreCached()
      requires Valid() && (valuesAreCached || IsReady(filter.Now()))
      modifies this
      ensures Valid() && valuesAreCached
    {
      if valuesAreCached {
        return;
      }
      var ready := filter.Ready();
      assert ready;
      var v := Normalized();
      var best, largest := FindMax(v);
      probabilityVector, maxProbability, maxProbabilityCategory := v, largest, best;
      valuesAreCached := true;
      if maxProbability >= threshold {
        isUnambiguous := true;
        filtered := Some(categories[best]);
      } else {
        isUnambiguous := false;
        filtered := None;
      }
    }

    method FilteredCategoryIsUnambiguous() returns (b: bool)
      requires Valid() && (valuesAreCached || IsReady(filter.Now()))
      modifies this
      ensures Valid() && valuesAreCached
      ensures b <==> exists i :: 0 <= i < |categories| && Probabilities(filter.Now())[i] >= threshold
    {
      EnsureValuesAreCached();
      b := isUnambiguous;
      assert b ==> Probabilities(filter.Now())[maxProbabilityCategory] >= threshold;
    }

    /** `None` where the source throws. */
    method FilteredCategory() returns (c: Option<C>)
      requires Valid() && (valuesAreCached || IsReady(filter.Now()))
      modifies this
      ensures Valid() && valuesAreCached
      ensures c.None? <==> forall i | 0 <= i < |categories| :: Probabilities(filter.Now())[i] < threshold
      ensures c.Some? ==> exists i: nat :: IsFirstMax(Probabilities(filter.Now()), i) && c.value == categories[i]
    {
      EnsureValuesAreCached();
      c := if isUnambiguous then filtered else None;
      assert IsFirstMax(Probabilities(filter.Now()), maxProbabilityCategory);
    }

    method ProbabilityVector() returns (v: seq<real>)
      requires Valid() && (valuesAreCached || IsReady(filter.Now()))
      modifies this
      ensures Valid() && valuesAreCached
      ensures v == Probabilities(filter.Now()) && NonNegative(v) && Sum(v) == 1.0
    {
      EnsureValuesAreCached();
      ProbabilitiesSumToOne(filter.Now());
      v := probabilityVector;
    }
  }
}
