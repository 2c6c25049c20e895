/** What a position query computes, as functions: the distances to the
    triangle pivots, the closest of them, each triangle's fusion weight through
    the falloff curve, the closeness hint, and the weighted blend of the
    triangles' local projections. The method `GetPointPosition` in module
    Locator is proved to return `Query`. */
module Fusion {
  import opened Wrappers
  import opened Numerics
  import opened Geometry
  import opened Projection

  /** The collaborators a query consults, which this model does not implement. */
  datatype Collaborators = Collaborators(
    /** `t.getPivot().getSphericalDistance(p)` */
    pivotDistance: (ProjectionTriangle, GpsPoint) -> Distance,
    /** `t.getWeigth()` */
    weight: ProjectionTriangle -> NonNegReal,
    /** `t.project(p, hint)` */
    project: (ProjectionTriangle, GpsPoint, int) -> FPoint2D,
    /** `Math.pow` on the bases the falloff curve is evaluated at */
    pow: Power)

  /** `Math.pow(b, y)` for a base in [0, 1] and a finite exponent `y`: finite and
      non-negative, and exactly 1 for the base 1 for every finite exponent. */
  type Power = f: (Fraction, real) -> NonNegReal | forall y :: f(1.0, y) == 1.0
    witness (b: Fraction, y: real) => 1.0

  /** Pivot distances below this bound give a triangle a closeness hint. */
  const NearPivot: real := 0.01

  /** The message of the exception the falloff curve throws. */
  const FalloffDomainMessage: string := "The distance fallof is only defined from 0..1!"

  /** `closest / d` for a closest distance that does not exceed `d`: NaN when both
      are zero, and otherwise a ratio in [0, 1] that is 1 for the closest pivot. */
  function Ratio(closest: real, d: Distance): (r: Double)
    requires 0.0 <= closest <= d
    ensures r.NaN? <==> d == 0.0
    ensures r.Finite? ==> 0.0 <= r.value <= 1.0 && r.value * d == closest
    ensures r.Finite? && 0.0 < closest ==> 0.0 < r.value
    ensures r.Finite? && closest == d ==> r.value == 1.0
  {
    if d == 0.0 then NaN
    else
      QuotientFacts(closest, d);
      Finite(closest / d)
  }

  /** The bounds of `closest / d` that `Ratio` promises, for a positive `d`. */
  lemma QuotientFacts(closest: real, d: real)
    requires 0.0 <= closest <= d && 0.0 < d
    ensures 0.0 <= closest / d <= 1.0 && (closest / d) * d == closest
    ensures 0.0 < closest ==> 0.0 < closest / d
    ensures closest == d ==> closest / d == 1.0
  {
  }

  /** `distanceFallofFunction(d)`: `Math.pow(d, exponent)`, refusing a finite `d`
      above 1 with an exception. NaN passes the guard (`NaN > 1` is false). */
  function DistanceFallofFunction(d: Double, exponent: real, pow: Power): (r: Result<Double>)
    requires d.Finite? ==> 0.0 <= d.value
    ensures r.Failure? <==> d.Finite? && 1.0 < d.value
    ensures r.Failure? ==> r.error == FalloffDomainMessage
    ensures r.Success? && r.value.Finite? ==> 0.0 <= r.value.value
    ensures r.Success? && r.value.NaN? <==> d.NaN? && exponent != 0.0
  {
    if d.Finite? && 1.0 < d.value then Failure(FalloffDomainMessage)
    else if d.NaN? then Success(if exponent == 0.0 then Finite(1.0) else NaN)
    else Success(Finite(pow(d.value, exponent)))
  }

  /** Fed with the ratio of a pivot distance to the closest one, the falloff curve
      never throws: its guard cannot fire inside a query. */
  lemma FalloffNeverThrows(closest: real, d: Distance, exponent: real, pow: Power)
    requires 0.0 <= closest <= d
    ensures DistanceFallofFunction(Ratio(closest, d), exponent, pow).Success?
  {
  }

  /** The integer hint passed to `project`. The cast applies to `0.01 - d`, which is
      below 1, before the multiplication by 1000, so a near pivot gets 0 and any
      other gets 1. */
  function ClosenessHint(d: Distance): (hint: int)
    ensures d < NearPivot ==> hint == 0
    ensures NearPivot <= d ==> hint == 1
  {
    if d < NearPivot then Trunc(NearPivot - d) * 1000 else 1
  }

  /** The fusion weight `distanceFallofFunction(closest / d) * weight` of one triangle:
      NaN exactly when the query sits on its pivot (and the exponent is not zero),
      otherwise non-negative. */
  function FusionWeight(closest: real, d: Distance, w: NonNegReal, exponent: real, pow: Power): (tmp: Double)
    requires 0.0 <= closest <= d
    ensures tmp.NaN? <==> d == 0.0 && exponent != 0.0
    ensures tmp.Finite? ==> 0.0 <= tmp.value
  {
    match DistanceFallofFunction(Ratio(closest, d), exponent, pow)
    case Success(f) => Mul(f, Finite(w))
    case Failure(_) => assert false; NaN
  }

  /** The pivot distance of every triangle, in list order. */
  function Distances(ts: seq<ProjectionTriangle>, p: GpsPoint, env: Collaborators): (ds: seq<Distance>)
    ensures |ds| == |ts|
    ensures forall i | 0 <= i < |ts| :: ds[i] == env.pivotDistance(ts[i], p)
  {
    if ts == [] then []
    else Distances(ts[..|ts| - 1], p, env) + [env.pivotDistance(ts[|ts| - 1], p)]
  }

  /** The running minimum of the first loop, started at `Double.MAX_VALUE`: for a
      non-empty list it is the smallest distance. */
  function RunningMin(ds: seq<Distance>): (closest: real)
    ensures 0.0 <= closest <= MaxDouble
    ensures forall i | 0 <= i < |ds| :: closest <= ds[i]
    ensures |ds| > 0 ==> exists i | 0 <= i < |ds| :: closest == ds[i]
    ensures |ds| == 0 ==> closest == MaxDouble
  {
    if ds == [] then MaxDouble
    else
      var m := RunningMin(ds[..|ds| - 1]);
      assert forall i | 0 <= i < |ds| - 1 :: ds[i] == ds[..|ds| - 1][i];
      if m > ds[|ds| - 1] then ds[|ds| - 1] else m
  }

  /** The running state of the second loop: the weighted sum of projections and the sum of weights. */
  datatype Accum = Accum(result: FPoint2D, sum: Double)

  /** A NaN weight sum comes with a NaN coordinate, and a zero weight sum with a
      coordinate that is zero or NaN. */
  predicate CoordinateBalanced(c: Double, sum: Double)
  {
    && (sum.NaN? ==> c.NaN?)
    && (sum == Finite(0.0) && c.Finite? ==> c.value == 0.0)
  }

  /** What the second loop keeps true of its state: the weight sum is NaN or
      non-negative, and both coordinates are balanced against it, so the final
      division never produces an infinity. */
  predicate Balanced(a: Accum)
  {
    && (a.sum.Finite? ==> 0.0 <= a.sum.value)
    && CoordinateBalanced(a.result.x, a.sum)
    && CoordinateBalanced(a.result.y, a.sum)
  }

  /** One coordinate of `fma` together with `sum += tmp` keeps that coordinate
      balanced against the weight sum. */
  lemma CoordinateStep(c: Double, pc: Double, sum: Double, tmp: Double)
    requires CoordinateBalanced(c, sum)
    requires sum.Finite? ==> 0.0 <= sum.value
    requires tmp.Finite? ==> 0.0 <= tmp.value
    ensures CoordinateBalanced(Add(c, Mul(pc, tmp)), Add(sum, tmp))
  {
    if sum.Finite? && tmp.Finite? && sum.value + tmp.value == 0.0 && c.Finite? && pc.Finite? {
      assert tmp.value == 0.0;
      MulZero(pc.value);
    }
  }

  /** A projection scaled by a zero weight adds nothing. */
  lemma MulZero(a: real)
    ensures a * 0.0 == 0.0
  {
  }

  /** One iteration of the second loop: `result.fma(proj, tmp)` and `sum += tmp`. */
  function Step(acc: Accum, proj: FPoint2D, tmp: Double): (next: Accum)
    requires Balanced(acc)
    requires tmp.Finite? ==> 0.0 <= tmp.value
    ensures Balanced(next)
  {
    CoordinateStep(acc.result.x, proj.x, acc.sum, tmp);
    CoordinateStep(acc.result.y, proj.y, acc.sum, tmp);
    Accum(acc.result.Fma(proj, tmp), Add(acc.sum, tmp))
  }

  /** The state of the second loop after its first `n` iterations. */
  function Accumulate(ts: seq<ProjectionTriangle>, ds: seq<Distance>, closest: real,
                      p: GpsPoint, env: Collaborators, exponent: real, n: nat): (acc: Accum)
    requires |ds| == |ts| && n <= |ts|
    requires 0.0 <= closest && forall i | 0 <= i < |ds| :: closest <= ds[i]
    ensures Balanced(acc)
  {
    if n == 0 then Accum(Origin, Finite(0.0))
    else
      var prev := Accumulate(ts, ds, closest, p, env, exponent, n - 1);
      var tmp := FusionWeight(closest, ds[n - 1], env.weight(ts[n - 1]), exponent, env.pow);
      var proj := env.project(ts[n - 1], p, ClosenessHint(ds[n - 1]));
      Step(prev, proj, tmp)
  }

  /** `getPointPosition(p)` over the triangle set `projs`: `null` without a triangle
      set or without a point, and otherwise the weighted sum divided by the weight sum. */
  function Query(projs: Option<seq<ProjectionTriangle>>, current: Option<GpsPoint>,
                 env: Collaborators, exponent: real): (r: Option<FPoint2D>)
    ensures r.None? <==> projs.None? || current.None?
  {
    if projs.None? || current.None? then None
    else
      var ts := projs.value;
      var ds := Distances(ts, current.value, env);
      var closest := RunningMin(ds);
      var acc := Accumulate(ts, ds, closest, current.value, env, exponent, |ts|);
      Some(acc.result.DivBy(acc.sum))
  }

  /** A query standing exactly on a pivot (with a non-zero exponent) poisons the
      blend: from that triangle on, the weight sum and both coordinates are NaN. */
  lemma {:induction false} AccumulateAfterPivotHit(ts: seq<ProjectionTriangle>, ds: seq<Distance>, closest: real,
                                                   p: GpsPoint, env: Collaborators, exponent: real, n: nat, j: nat)
    requires |ds| == |ts| && n <= |ts|
    requires 0.0 <= closest && forall i | 0 <= i < |ds| :: closest <= ds[i]
    requires j < n && ds[j] == 0.0 && exponent != 0.0
    ensures Accumulate(ts, ds, closest, p, env, exponent, n).sum.NaN?
    ensures Accumulate(ts, ds, closest, p, env, exponent, n).result == FPoint2D(NaN, NaN)
  {
    if j < n - 1 {
      AccumulateAfterPivotHit(ts, ds, closest, p, env, exponent, n - 1, j);
      assert forall i | 0 <= i < |ds| :: closest <= ds[i];
      NaNSumPersists(ts, ds, closest, p, env, exponent, n);
    } else {
      PivotHitMakesNaNSum(ts, ds, closest, p, env, exponent, n);
    }
  }

  /** Once the weight sum is NaN, it stays NaN. */
  lemma NaNSumPersists(ts: seq<ProjectionTriangle>, ds: seq<Distance>, closest: real,
                       p: GpsPoint, env: Collaborators, exponent: real, n: nat)
    requires |ds| == |ts| && 0 < n <= |ts|
    requires 0.0 <= closest && forall i | 0 <= i < |ds| :: closest <= ds[i]
    requires Accumulate(ts, ds, closest, p, env, exponent, n - 1).sum.NaN?
    ensures Accumulate(ts, ds, closest, p, env, exponent, n).sum.NaN?
  {
  }

  /** Blending in a triangle whose pivot is at the query point makes the weight sum NaN. */
  lemma PivotHitMakesNaNSum(ts: seq<ProjectionTriangle>, ds: seq<Distance>, closest: real,
                            p: GpsPoint, env: Collaborators, exponent: real, n: nat)
    requires |ds| == |ts| && 0 < n <= |ts|
    requires 0.0 <= closest && forall i | 0 <= i < |ds| :: closest <= ds[i]
    requires ds[n - 1] == 0.0 && exponent != 0.0
    ensures Accumulate(ts, ds, closest, p, env, exponent, n).sum.NaN?
  {
  }

  /** One iteration makes the weight sum NaN exactly when it already was, or when
      the query sits on that triangle's pivot (with a non-zero exponent). */
  lemma AccumulateStepNaN(ts: seq<ProjectionTriangle>, ds: seq<Distance>, closest: real,
                          p: GpsPoint, env: Collaborators, exponent: real, n: nat)
    requires |ds| == |ts| && 0 < n <= |ts|
    requires 0.0 <= closest && forall i | 0 <= i < |ds| :: closest <= ds[i]
    ensures Accumulate(ts, ds, closest, p, env, exponent, n).sum.NaN? <==>
      Accumulate(ts, ds, closest, p, env, exponent, n - 1).sum.NaN? || (ds[n - 1] == 0.0 && exponent != 0.0)
  {
  }

  /** When some triangle's pivot is exactly at the query point, the query answers
      the NaN point rather than that pivot's position. */
  lemma QueryAtPivot(ts: seq<ProjectionTriangle>, p: GpsPoint, env: Collaborators, exponent: real, j: nat)
    requires j < |ts| && env.pivotDistance(ts[j], p) == 0.0 && exponent != 0.0
    ensures Query(Some(ts), Some(p), env, exponent) == Some(FPoint2D(NaN, NaN))
  {
    var ds := Distances(ts, p, env);
    AccumulateAfterPivotHit(ts, ds, RunningMin(ds), p, env, exponent, |ts|, j);
  }

  /** An empty triangle set (every Delaunay triangle failed to resolve) divides a
      zero sum by a zero weight: the query answers the NaN point, not `null`. */
  lemma EmptySetQuery(p: GpsPoint, env: Collaborators, exponent: real)
    ensures Query(Some([]), Some(p), env, exponent) == Some(FPoint2D(NaN, NaN))
  {
  }

  /** Whenever the weights of a non-empty triangle set add up to exactly 0 (every
      triangle weighs 0), the final division is 0 / 0: the query answers the NaN
      point, not `null`. */
  lemma ZeroWeightQuery(ts: seq<ProjectionTriangle>, p: GpsPoint, env: Collaborators, exponent: real)
    requires Accumulate(ts, Distances(ts, p, env), RunningMin(Distances(ts, p, env)), p, env, exponent, |ts|).sum == Finite(0.0)
    ensures Query(Some(ts), Some(p), env, exponent) == Some(FPoint2D(NaN, NaN))
  {
  }

  /** With a single triangle (a two-marker locator), the query answers that
      triangle's own projection: the closest pivot is its pivot, the falloff of
      the ratio 1 is 1, and the weight cancels out in the final division. */
  lemma SingleTriangleQuery(t: ProjectionTriangle, p: GpsPoint, env: Collaborators, exponent: real)
    requires env.pivotDistance(t, p) > 0.0 || exponent == 0.0
    requires env.weight(t) > 0.0
    requires env.project(t, p, ClosenessHint(env.pivotDistance(t, p))).x.Finite?
    requires env.project(t, p, ClosenessHint(env.pivotDistance(t, p))).y.Finite?
    ensures Query(Some([t]), Some(p), env, exponent) == Some(env.project(t, p, ClosenessHint(env.pivotDistance(t, p))))
  {
    var d := env.pivotDistance(t, p);
    var w := env.weight(t);
    var proj := env.project(t, p, ClosenessHint(d));
    var ds := Distances([t], p, env);
    assert ds == [d];
    assert RunningMin(ds) == d;
    UnitFalloffWeight(d, w, exponent, env.pow);
    AccumulateOne(t, d, p, env, exponent);
    WeightCancels(proj, w);
  }

  /** The second loop over a single triangle is one step from the origin. */
  lemma AccumulateOne(t: ProjectionTriangle, d: Distance, p: GpsPoint, env: Collaborators, exponent: real)
    ensures Accumulate([t], [d], d, p, env, exponent, 1) ==
      Step(Accum(Origin, Finite(0.0)), env.project(t, p, ClosenessHint(d)),
           FusionWeight(d, d, env.weight(t), exponent, env.pow))
  {
    assert Accumulate([t], [d], d, p, env, exponent, 0) == Accum(Origin, Finite(0.0));
    assert [d][0] == d && [t][0] == t;
  }

  /** The closest pivot's own falloff is 1 (or 1 by `Math.pow(NaN, 0)`), so its
      fusion weight is the triangle weight. */
  lemma UnitFalloffWeight(d: Distance, w: NonNegReal, exponent: real, pow: Power)
    requires d > 0.0 || exponent == 0.0
    ensures FusionWeight(d, d, w, exponent, pow) == Finite(w)
  {
    if d != 0.0 {
      assert Ratio(d, d) == Finite(1.0);
      assert pow(1.0, exponent) == 1.0;
    }
  }

  /** Blending a finite projection into the origin with a positive weight and
      dividing by that weight gives the projection back. */
  lemma WeightCancels(proj: FPoint2D, w: real)
    requires w > 0.0 && proj.x.Finite? && proj.y.Finite?
    ensures Step(Accum(Origin, Finite(0.0)), proj, Finite(w)).result.DivBy(Finite(w)) == proj
  {
    var next := Step(Accum(Origin, Finite(0.0)), proj, Finite(w));
    assert next.result == FPoint2D(Finite(proj.x.value * w), Finite(proj.y.value * w));
    CancelWeight(proj.x.value, w);
    CancelWeight(proj.y.value, w);
  }

  /** Scaling by a positive weight and dividing by it again gives the value back. */
  lemma CancelWeight(c: real, w: real)
    requires w > 0.0
    ensures (c * w) / w == c
  {
  }

  /** A projected coordinate within [lo, hi], or NaN. */
  predicate InRange(c: Double, lo: real, hi: real)
  {
    c.Finite? ==> lo <= c.value <= hi
  }

  /** A finite accumulated coordinate lies between `lo` and `hi` times a finite
      weight sum: the invariant behind the weighted-centroid bound. */
  predicate WithinScaled(c: Double, sum: Double, lo: real, hi: real)
  {
    sum.Finite? && c.Finite? ==> lo * sum.value <= c.value <= hi * sum.value
  }

  /** One coordinate of `fma` together with `sum += tmp`, for a projected coordinate
      within [lo, hi] and a non-negative weight, keeps the scaled bound. */
  lemma CoordinateWithinStep(c: Double, pc: Double, sum: Double, tmp: Double, lo: real, hi: real)
    requires WithinScaled(c, sum, lo, hi) && InRange(pc, lo, hi)
    requires tmp.Finite? ==> 0.0 <= tmp.value
    ensures WithinScaled(Add(c, Mul(pc, tmp)), Add(sum, tmp), lo, hi)
  {
    if sum.Finite? && tmp.Finite? && c.Finite? && pc.Finite? {
      ScaleBounds(pc.value, tmp.value, lo, hi);
      assert lo * (sum.value + tmp.value) == lo * sum.value + lo * tmp.value;
      assert hi * (sum.value + tmp.value) == hi * sum.value + hi * tmp.value;
    }
  }

  /** Scaling a value in [lo, hi] by a non-negative weight scales the bounds. */
  lemma ScaleBounds(v: real, w: real, lo: real, hi: real)
    requires lo <= v <= hi && 0.0 <= w
    ensures lo * w <= v * w <= hi * w
  {
  }

  /** After any number of iterations of the second loop, each finite coordinate
      lies between `lo` and `hi` times the weight sum, when every projected
      coordinate does. */
  lemma {:induction false} AccumulateWithin(ts: seq<ProjectionTriangle>, ds: seq<Distance>, closest: real,
                                            p: GpsPoint, env: Collaborators, exponent: real, n: nat,
                                            loX: real, hiX: real, loY: real, hiY: real)
    requires |ds| == |ts| && n <= |ts|
    requires 0.0 <= closest && forall i | 0 <= i < |ds| :: closest <= ds[i]
    requires forall i | 0 <= i < |ts| :: InRange(env.project(ts[i], p, ClosenessHint(ds[i])).x, loX, hiX)
    requires forall i | 0 <= i < |ts| :: InRange(env.project(ts[i], p, ClosenessHint(ds[i])).y, loY, hiY)
    ensures WithinScaled(Accumulate(ts, ds, closest, p, env, exponent, n).result.x,
                         Accumulate(ts, ds, closest, p, env, exponent, n).sum, loX, hiX)
    ensures WithinScaled(Accumulate(ts, ds, closest, p, env, exponent, n).result.y,
                         Accumulate(ts, ds, closest, p, env, exponent, n).sum, loY, hiY)
  {
    if n > 0 {
      assert forall i | 0 <= i < |ds| :: closest <= ds[i];
      assert forall i | 0 <= i < |ts| :: InRange(env.project(ts[i], p, ClosenessHint(ds[i])).x, loX, hiX);
      assert forall i | 0 <= i < |ts| :: InRange(env.project(ts[i], p, ClosenessHint(ds[i])).y, loY, hiY);
      AccumulateWithin(ts, ds, closest, p, env, exponent, n - 1, loX, hiX, loY, hiY);
      var prev := Accumulate(ts, ds, closest, p, env, exponent, n - 1);
      var tmp := FusionWeight(closest, ds[n - 1], env.weight(ts[n - 1]), exponent, env.pow);
      var proj := env.project(ts[n - 1], p, ClosenessHint(ds[n - 1]));
      CoordinateWithinStep(prev.result.x, proj.x, prev.sum, tmp, loX, hiX);
      CoordinateWithinStep(prev.result.y, proj.y, prev.sum, tmp, loY, hiY);
    }
  }

  /** Dividing a value between `lo` and `hi` times a positive divisor by it lands in [lo, hi]. */
  lemma UnscaleBounds(r: real, s: real, lo: real, hi: real)
    requires 0.0 < s && lo * s <= r * s <= hi * s
    ensures lo <= r <= hi
  {
  }

  /** The final division of a balanced coordinate that keeps the scaled bound lands
      in [lo, hi] whenever it is finite. */
  lemma QuotientWithin(c: Double, sum: Double, lo: real, hi: real)
    requires CoordinateBalanced(c, sum) && (sum.Finite? ==> 0.0 <= sum.value)
    requires WithinScaled(c, sum, lo, hi)
    ensures InRange(Div(c, sum), lo, hi)
  {
    var r := Div(c, sum);
    if r.Finite? {
      UnscaleBounds(r.value, sum.value, lo, hi);
    }
  }

  /** The weighted-centroid bound: when every triangle's projection lies in the box
      [loX, hiX] x [loY, hiY], each finite coordinate of the answer lies in it too. */
  lemma QueryWithinBounds(ts: seq<ProjectionTriangle>, p: GpsPoint, env: Collaborators, exponent: real,
                          loX: real, hiX: real, loY: real, hiY: real)
    requires forall i | 0 <= i < |ts| ::
      InRange(env.project(ts[i], p, ClosenessHint(env.pivotDistance(ts[i], p))).x, loX, hiX)
    requires forall i | 0 <= i < |ts| ::
      InRange(env.project(ts[i], p, ClosenessHint(env.pivotDistance(ts[i], p))).y, loY, hiY)
    ensures InRange(Query(Some(ts), Some(p), env, exponent).value.x, loX, hiX)
    ensures InRange(Query(Some(ts), Some(p), env, exponent).value.y, loY, hiY)
  {
    var ds := Distances(ts, p, env);
    var closest := RunningMin(ds);
    assert forall i | 0 <= i < |ts| :: InRange(env.project(ts[i], p, ClosenessHint(ds[i])).x, loX, hiX);
    assert forall i | 0 <= i < |ts| :: InRange(env.project(ts[i], p, ClosenessHint(ds[i])).y, loY, hiY);
    AccumulateWithin(ts, ds, closest, p, env, exponent, |ts|, loX, hiX, loY, hiY);
    var acc := Accumulate(ts, ds, closest, p, env, exponent, |ts|);
    QuotientWithin(acc.result.x, acc.sum, loX, hiX);
    QuotientWithin(acc.result.y, acc.sum, loY, hiY);
    assert acc.result.DivBy(acc.sum) == FPoint2D(Div(acc.result.x, acc.sum), Div(acc.result.y, acc.sum));
  }
}
