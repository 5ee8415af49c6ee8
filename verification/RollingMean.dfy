/**
  The geometric mean of source/Utility/RollingMean.h:17-88 over vectors of a fixed dimension.

  Doubles are reals.  The second moment (`P2`, `Unc2Cov`) and `Transform` are not modelled: no caller reads them.
 */
module RollingMean {
  import opened Reals

  function Sum(v: seq<real>): real {
    if v == [] then 0.0 else Sum(v[..|v| - 1]) + v[|v| - 1]
  }

  function Combine(f: real, g: real, m: real, p: real): real { f * m + g * p }

  function Mix(f: real, m: real, p: real): real { Combine(f, 1.0 - f, m, p) }

  function Blend(f: real, m: seq<real>, p: seq<real>): (r: seq<real>)
    requires |m| == |p|
    ensures |r| == |p|
  {
    seq(|p|, i requires 0 <= i < |p| => Mix(f, m[i], p[i]))
  }

  function Over(v: seq<real>, k: real): (r: seq<real>)
    requires k != 0.0
    ensures |r| == |v|
  {
    seq(|v|, i requires 0 <= i < |v| => v[i] / k)
  }

  function Constant(n: nat, x: real): (r: seq<real>)
    ensures |r| == n
  {
    seq(n, _ => x)
  }

  predicate NonNegative(v: seq<real>) { forall i | 0 <= i < |v| :: 0.0 <= v[i] }

  lemma Distribute(f: real, m: real, p: real, a: real, b: real)
    ensures Mix(f, m, p) + Mix(f, a, b) == Mix(f, m + a, p + b)
  {}

  lemma {:induction false} SumOfBlend(f: real, m: seq<real>, p: seq<real>)
    requires |m| == |p|
    ensures Sum(Blend(f, m, p)) == Mix(f, Sum(m), Sum(p))
    decreases |p|
  {
    if p != [] {
      var n := |p| - 1;
      SumOfBlend(f, m[..n], p[..n]);
      assert Blend(f, m, p)[..n] == Blend(f, m[..n], p[..n]);
      Distribute(f, Sum(m[..n]), Sum(p[..n]), m[n], p[n]);
    }
  }

  lemma {:induction false} SumOfQuotient(v: seq<real>, k: real)
    requires k != 0.0
    ensures Sum(Over(v, k)) == Sum(v) / k
    decreases |v|
  {
    if v != [] {
      var n := |v| - 1;
      SumOfQuotient(v[..n], k);
      assert Over(v, k)[..n] == Over(v[..n], k);
      DivideSum(Sum(v[..n]), v[n], k);
    }
  }

  lemma {:induction false} SumOfConstant(n: nat, x: real)
    ensures Sum(Constant(n, x)) == n as real * x
  {
    if n != 0 {
      SumOfConstant(n - 1, x);
      assert Constant(n, x)[..n - 1] == Constant(n - 1, x);
    }
  }

  lemma {:induction false} SumDominates(v: seq<real>, i: nat)
    requires NonNegative(v) && i < |v|
    ensures v[i] <= Sum(v)
    decreases |v|
  {
    var n := |v| - 1;
    SumIsNonNegative(v[..n]);
    if i < n { SumDominates(v[..n], i); }
  }

  lemma {:induction false} SumIsNonNegative(v: seq<real>)
    requires NonNegative(v)
    ensures 0.0 <= Sum(v)
    decreases |v|
  {
    if v != [] { SumIsNonNegative(v[..|v| - 1]); }
  }

  /** No two components exceed the sum together. */
  lemma {:induction false} SumOfTwo(v: seq<real>, i: nat, j: nat)
    requires NonNegative(v) && i < j < |v|
    ensures v[i] + v[j] <= Sum(v)
    decreases |v|
  {
    var n := |v| - 1;
    if j < n { SumOfTwo(v[..n], i, j); } else { SumDominates(v[..n], i); }
  }

  // ------------------------------------------------------- the filter

  datatype Mean = Mean(sample: real, nonZero: bool, integral: real, p1: seq<real>)

  function Cleared(dim: nat, sample: real): Mean { Mean(sample, false, 0.0, Constant(dim, 0.0)) }

  /** The share a measurement gets. */
  function Filter(weight: real, sample: real): real { weight * sample }

  /** The new measurement taken in with the share `k`. */
  function Mixed(f: Mean, m: seq<real>, k: real): Mean
    requires |m| == |f.p1|
  {
    Mean(f.sample, true, Mix(k, 1.0, f.integral), Blend(k, m, f.p1))
  }

  function Updated(f: Mean, m: seq<real>, weight: real): Mean
    requires |m| == |f.p1|
  {
    Mixed(f, m, Filter(weight, f.sample))
  }

  function Windowed(f: Mean, window: real): Mean {
    if 1.0 <= window then f.(sample := 1.0 / window) else f
  }

  predicate IsReady(f: Mean) { 1.0 - f.integral <= f.sample }

  predicate InRange(f: Mean) {
    && 0.0 < f.sample <= 1.0
    && (if f.nonZero then 0.0 < f.integral <= 1.0 else f.integral == 0.0)
  }

  function Predicted(f: Mean): (v: seq<real>)
    requires InRange(f)
    ensures |v| == |f.p1|
  {
    if f.nonZero then Over(f.p1, f.integral) else Constant(|f.p1|, 0.0)
  }

  predicate IsWeight(w: real) { 0.0 < w <= 1.0 }

  lemma ProductIsWeight(a: real, b: real)
    requires IsWeight(a) && IsWeight(b)
    ensures IsWeight(Filter(a, b))
  {
    TimesStrictly(b, 0.0, a);
    Times(b, a, 1.0);
    assert b * a == a * b;
  }

  lemma CombinationIsWeight(k: real, rest: real, x: real)
    requires 0.0 < k && 0.0 <= rest && k + rest == 1.0 && 0.0 <= x <= 1.0
    ensures IsWeight(Combine(k, rest, 1.0, x))
  {
    Times(rest, 0.0, x);
    Times(rest, x, 1.0);
  }

  lemma MixIsWeight(k: real, x: real)
    requires IsWeight(k) && 0.0 <= x <= 1.0
    ensures IsWeight(Mix(k, 1.0, x))
  {
    CombinationIsWeight(k, 1.0 - k, x);
  }

  lemma MixedStaysInRange(f: Mean, m: seq<real>, k: real)
    requires InRange(f) && |m| == |f.p1| && IsWeight(k)
    ensures InRange(Mixed(f, m, k))
  {
    MixIsWeight(k, f.integral);
  }

  lemma UpdateStaysInRange(f: Mean, m: seq<real>, weight: real)
    requires InRange(f) && |m| == |f.p1| && IsWeight(weight)
    ensures InRange(Updated(f, m, weight))
  {
    ProductIsWeight(weight, f.sample);
    MixedStaysInRange(f, m, Filter(weight, f.sample));
  }

  lemma WindowStaysInRange(f: Mean, window: real)
    requires InRange(f)
    ensures InRange(Windowed(f, window))
  {
    if 1.0 <= window { InverseIsWeight(window); }
  }

  lemma InverseIsWeight(w: real)
    requires 1.0 <= w
    ensures IsWeight(1.0 / w)
  {}

  /** An update moves every component, and the weight that all of them carry, by the same share of the way. */
  lemma UpdateMovesShare(f: Mean, m: seq<real>, weight: real, i: nat)
    requires |m| == |f.p1| && i < |m|
    ensures Updated(f, m, weight).p1[i] == f.p1[i] + Part(weight * f.sample, m[i] - f.p1[i])
    ensures Updated(f, m, weight).integral == f.integral + Part(weight * f.sample, 1.0 - f.integral)
  {}

  function Part(share: real, x: real): real { share * x }

  // ------------------------------------- the mean lies between what was measured

  datatype Use = Fed(m: seq<real>, weight: real) | Resized(w: real)

  ghost predicate AreUses(uses: seq<Use>, dim: nat) {
    forall i | 0 <= i < |uses| && uses[i].Fed? :: |uses[i].m| == dim && IsWeight(uses[i].weight)
  }

  /** A filter after any measurements and window changes from construction. */
  function Used(dim: nat, uses: seq<Use>): (f: Mean)
    requires AreUses(uses, dim)
    ensures |f.p1| == dim
  {
    if uses == [] then Cleared(dim, 1.0)
    else
      var before := Used(dim, uses[..|uses| - 1]);
      match uses[|uses| - 1]
      case Fed(m, weight) => Updated(before, m, weight)
      case Resized(w) => Windowed(before, w)
  }

  ghost predicate MeasuredWithin(uses: seq<Use>, dim: nat, i: nat, low: real, high: real)
    requires AreUses(uses, dim) && i < dim
  {
    forall j | 0 <= j < |uses| && uses[j].Fed? :: low <= uses[j].m[i] <= high
  }

  /** The component carries between `low` and `high` for its weight. */
  ghost predicate Carries(f: Mean, i: nat, low: real, high: real)
    requires i < |f.p1|
  {
    low * f.integral <= f.p1[i] <= high * f.integral
  }

  lemma Commute(low: real, rest: real, x: real)
    ensures low * (rest * x) == rest * (low * x)
  {}

  lemma Expand(low: real, k: real, y: real)
    ensures low * (k * 1.0 + y) == k * low + low * y
  {}

  lemma CombineCarries(k: real, rest: real, m: real, p: real, integral: real, low: real)
    requires 0.0 <= k && 0.0 <= rest && low <= m && low * integral <= p
    ensures low * Combine(k, rest, 1.0, integral) <= Combine(k, rest, m, p)
  {
    Times(k, low, m);
    Times(rest, low * integral, p);
    Expand(low, k, rest * integral);
    Commute(low, rest, integral);
  }

  lemma MixCarries(k: real, m: real, p: real, integral: real, low: real)
    requires IsWeight(k) && low <= m && low * integral <= p
    ensures low * Mix(k, 1.0, integral) <= Mix(k, m, p)
  {
    CombineCarries(k, 1.0 - k, m, p, integral, low);
  }

  lemma MixIsOdd(k: real, m: real, p: real)
    ensures Mix(k, -m, -p) == -Mix(k, m, p)
  {}

  lemma UpdateCarries(f: Mean, m: seq<real>, weight: real, i: nat, low: real, high: real)
    requires InRange(f) && |m| == |f.p1| && i < |m| && IsWeight(weight)
    requires low <= m[i] <= high && Carries(f, i, low, high)
    ensures Carries(Updated(f, m, weight), i, low, high)
  {
    var k := Filter(weight, f.sample);
    ProductIsWeight(weight, f.sample);
    MixCarries(k, m[i], f.p1[i], f.integral, low);
    MixCarries(k, -m[i], -f.p1[i], f.integral, -high);
    MixIsOdd(k, m[i], f.p1[i]);
  }

  lemma {:induction false} UsesCarry(dim: nat, uses: seq<Use>, i: nat, low: real, high: real)
    requires AreUses(uses, dim) && i < dim && MeasuredWithin(uses, dim, i, low, high)
    ensures var f := Used(dim, uses);
      && InRange(f) && Carries(f, i, low, high)
      && (f.nonZero <==> exists j :: 0 <= j < |uses| && uses[j].Fed?)
    decreases |uses|
  {
    if uses != [] {
      var before, last := uses[..|uses| - 1], uses[|uses| - 1];
      var f := Used(dim, before);
      UsesCarry(dim, before, i, low, high);
      match last
      case Fed(m, weight) =>
        UpdateStaysInRange(f, m, weight);
        UpdateCarries(f, m, weight, i, low, high);
      case Resized(w) => WindowStaysInRange(f, w);
      assert uses == before + [last];
    }
  }

  lemma QuotientBetween(p: real, k: real, low: real, high: real)
    requires k > 0.0 && low * k <= p <= high * k
    ensures low <= p / k <= high
  {
    TimesQuotient(k, p);
    if p / k < low { TimesStrictly(k, p / k, low); }
    if p / k > high { TimesStrictly(k, high, p / k); }
  }

  lemma CarriedIsPredicted(f: Mean, i: nat, low: real, high: real)
    requires InRange(f) && f.nonZero && i < |f.p1| && Carries(f, i, low, high)
    ensures low <= Predicted(f)[i] <= high
  {
    QuotientBetween(f.p1[i], f.integral, low, high);
  }

  /** Whatever the windows and weights, each component of the mean lies between the smallest and the largest measured. */
  lemma MeanIsBetween(dim: nat, uses: seq<Use>, i: nat, low: real, high: real)
    requires AreUses(uses, dim) && i < dim && MeasuredWithin(uses, dim, i, low, high)
    requires exists j :: 0 <= j < |uses| && uses[j].Fed?
    ensures var f := Used(dim, uses); InRange(f) && low <= Predicted(f)[i] <= high
  {
    UsesCarry(dim, uses, i, low, high);
    CarriedIsPredicted(Used(dim, uses), i, low, high);
  }

  /** `n` updates with the same measurement and full weight. */
  function Repeated(f: Mean, m: seq<real>, n: nat): (r: Mean)
    requires |m| == |f.p1|
    ensures |r.p1| == |f.p1| && r.sample == f.sample
  {
    if n == 0 then f else Updated(Repeated(f, m, n - 1), m, 1.0)
  }

  /** A value whose distance to `m` has shrunk by the factor `q`. */
  function Faded(m: real, q: real, x: real): real { m - q * (m - x) }

  lemma Decay(s: real, q: real, m: real, x: real)
    ensures Mix(s, m, Faded(m, q, x)) == Faded(m, (1.0 - s) * q, x)
  {}

  lemma FadeOnce(s: real, n: nat, m: real, x: real, y: real)
    requires n != 0 && y == Faded(m, Pow(1.0 - s, n - 1), x)
    ensures Mix(s, m, y) == Faded(m, Pow(1.0 - s, n), x)
  {
    Decay(s, Pow(1.0 - s, n - 1), m, x);
  }

  lemma OneMore(f: Mean, m: seq<real>, n: nat, i: nat)
    requires |m| == |f.p1| && i < |m|
    ensures Repeated(f, m, n + 1).p1[i] == Mix(f.sample, m[i], Repeated(f, m, n).p1[i])
    ensures Repeated(f, m, n + 1).integral == Mix(f.sample, 1.0, Repeated(f, m, n).integral)
  {
    var g := Repeated(f, m, n);
    assert Repeated(f, m, n + 1) == Updated(g, m, 1.0);
    assert Filter(1.0, g.sample) == f.sample;
  }

  /** What the filter still remembers of its past shrinks by `1 - 1/window` at each update. */
  lemma {:induction false} RepeatedUpdatesConverge(f: Mean, m: seq<real>, n: nat, i: nat)
    requires |m| == |f.p1| && i < |m|
    ensures Repeated(f, m, n).p1[i] == Faded(m[i], Pow(1.0 - f.sample, n), f.p1[i])
    ensures Repeated(f, m, n).integral == Faded(1.0, Pow(1.0 - f.sample, n), f.integral)
    decreases n
  {
    if n != 0 {
      RepeatedUpdatesConverge(f, m, n - 1, i);
      OneMore(f, m, n - 1, i);
      var g := Repeated(f, m, n - 1);
      FadeOnce(f.sample, n, m[i], f.p1[i], g.p1[i]);
      FadeOnce(f.sample, n, 1.0, f.integral, g.integral);
    }
  }

  class RollingMean {
    const dim: nat
    var sample: real
    var nonZero: bool
    var integral: real
    var p1: seq<real>

    ghost predicate Valid()
      reads this
    {
      |p1| == dim && InRange(Now())
    }

    ghost function Now(): Mean
      reads this
    {
      Mean(sample, nonZero, integral, p1)
    }

    constructor (dim: nat)
      ensures Valid() && this.dim == dim && Now() == Cleared(dim, 1.0)
    {
      this.dim := dim;
      sample := 1.0;
      nonZero, integral, p1 := false, 0.0, Constant(dim, 0.0);
    }

    method Ready() returns (b: bool)
      requires Valid()
      ensures b == IsReady(Now())
    {
      if 1.0 - integral > sample {
        return false;
      }
      return true;
    }

    method Reset()
      requires Valid()
      modifies this`nonZero, this`integral, this`p1
      ensures Valid() && Now() == Cleared(dim, old(sample))
    {
      nonZero := false;
      integral := 0.0;
      p1 := Constant(dim, 0.0);
    }

    method Predict() returns (c1: seq<real>)
      requires Valid()
      ensures c1 == Predicted(Now())
    {
      if !nonZero {
        return Constant(dim, 0.0);
      }
      c1 := Over(p1, integral);
    }

    method Update(measured: seq<real>, weight: real)
      requires Valid() && |measured| == dim && IsWeight(weight)
      modifies this`nonZero, this`integral, this`p1
      ensures Valid() && Now() == Updated(old(Now()), measured, weight)
    {
      UpdateStaysInRange(Now(), measured, weight);
      nonZero := true;
      var filter := Filter(weight, sample);
      integral := Mix(filter, 1.0, integral);
      p1 := Blend(filter, measured, p1);
    }

    method SetWindow(newWindow: real)
      requires Valid()
      modifies this`sample
      ensures Valid() && Now() == Windowed(old(Now()), newWindow)
    {
      WindowStaysInRange(Now(), newWindow);
      if 1.0 <= newWindow {
        sample := 1.0 / newWindow;
      }
    }
  }
}
