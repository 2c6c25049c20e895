/** The value types the locator works with: geodetic points, integer and
    floating pixel points, markers and the settings container. */
module Geometry {
  import opened Numerics

  /** A real-world position (GpsPoint). */
  datatype GpsPoint = GpsPoint(latitude: real, longitude: real)

  /** An image position in whole pixels (Point2D). */
  datatype Point2D = Point2D(x: int, y: int)

  /** A known correspondence between a real-world position and an image pixel. */
  datatype Marker = Marker(realpoint: GpsPoint, imgpoint: Point2D)

  /** An image position in floating point (FPoint2D), used as the blending accumulator. */
  datatype FPoint2D = FPoint2D(x: Double, y: Double) {

    /** `fma(p, w)`: add `p` scaled by `w`, coordinate by coordinate. A NaN in the
        coordinate, in `p`'s coordinate or in the weight makes that coordinate NaN. */
    function Fma(p: FPoint2D, w: Double): (r: FPoint2D)
      ensures r.x.NaN? <==> x.NaN? || p.x.NaN? || w.NaN?
      ensures r.y.NaN? <==> y.NaN? || p.y.NaN? || w.NaN?
      ensures r.x.Finite? ==> r.x.value == x.value + p.x.value * w.value
      ensures r.y.Finite? ==> r.y.value == y.value + p.y.value * w.value
    {
      FPoint2D(Add(x, Mul(p.x, w)), Add(y, Mul(p.y, w)))
    }

    /** `div(s)`: divide both coordinates by `s`. A zero divisor (over a zero or
        NaN point) gives NaN in both coordinates. */
    function DivBy(s: Double): (r: FPoint2D)
      requires s.NaN? ==> x.NaN? && y.NaN?
      requires s == Finite(0.0) ==> (x.Finite? ==> x.value == 0.0) && (y.Finite? ==> y.value == 0.0)
      ensures r.x.NaN? <==> x.NaN? || s == Finite(0.0)
      ensures r.y.NaN? <==> y.NaN? || s == Finite(0.0)
      ensures r.x.Finite? ==> r.x.value * s.value == x.value
      ensures r.y.Finite? ==> r.y.value * s.value == y.value
    {
      FPoint2D(Div(x, s), Div(y, s))
    }
  }

  /** The origin, where `new FPoint2D()` starts. */
  const Origin: FPoint2D := FPoint2D(Finite(0.0), Finite(0.0))

  /** The tunables read from IPLSettingsContainer. */
  datatype Settings = Settings(
    maxDissimilarityPercent: real,
    badTriWeightPenalty: real,
    minTriAngleSize: real,
    fallofExponent: real)

  /** The image points of the markers, in list order (what Subdiv2D is given). */
  function ImagePoints(markers: seq<Marker>): (ps: seq<Point2D>)
    ensures |ps| == |markers|
    ensures forall i | 0 <= i < |markers| :: ps[i] == markers[i].imgpoint
  {
    seq(|markers|, i requires 0 <= i < |markers| => markers[i].imgpoint)
  }
}
