/** The locator itself: the triangle set `projs` as mutable state, its rebuild
    when the marker list changes, and position queries over it. */
module Locator {
  import opened Wrappers
  import opened Numerics
  import opened Geometry
  import opened Projection
  import opened Rebuild
  import opened Fusion

  /** A rebuilt triangle set: the `k`-th triangle is backed by the `k`-th resolved
      marker triple and built with `tuning`; the triangles are distinct objects,
      and each was offered every other one, in list order, by the grouping pass. */
  ghost predicate Rebuilt(ts: seq<ProjectionTriangle>, tris: seq<seq<Marker>>, tuning: Tuning)
    reads set t | t in ts
  {
    && |ts| == |tris|
    && Distinct(ts)
    && (forall k | 0 <= k < |ts| :: ts[k].corners == tris[k] && ts[k].tuning == Some(tuning))
    && (forall k | 0 <= k < |ts| :: ts[k].offers == ts[..k] + ts[k + 1..])
  }

  /** Freshly built triangles: the `k`-th is backed by the `k`-th marker triple,
      carries `tuning` and has not been offered anything yet. */
  ghost predicate Built(ts: seq<ProjectionTriangle>, tris: seq<seq<Marker>>, tuning: Tuning)
    reads set t | t in ts
  {
    && |ts| == |tris|
    && forall k | 0 <= k < |ts| ::
         ts[k].corners == tris[k] && ts[k].tuning == Some(tuning) && ts[k].offers == []
  }

  /** Built triangle lists concatenate with their marker triples. */
  lemma BuiltAppend(a: seq<ProjectionTriangle>, ta: seq<seq<Marker>>,
                    b: seq<ProjectionTriangle>, tb: seq<seq<Marker>>, tuning: Tuning)
    requires Built(a, ta, tuning) && Built(b, tb, tuning)
    ensures Built(a + b, ta + tb, tuning)
  {
  }

  class TriangleImagePositionLocator {
    const settings: Settings
    const imageSize: Point2D
    /** The active triangle set; `None` until a marker list of two or more arrives. */
    var projs: Option<seq<ProjectionTriangle>>

    constructor (imageSize: Point2D, settings: Settings)
      ensures this.imageSize == imageSize && this.settings == settings
      ensures projs == None
    {
      this.imageSize := imageSize;
      this.settings := settings;
      projs := None;
    }

    /** `getProjectionTriangles()`: the triangle set itself, not a copy; `null`
        until a marker list of two or more has arrived. */
    function GetProjectionTriangles(): (r: Option<seq<ProjectionTriangle>>)
      reads this
      ensures r == projs
    {
      projs
    }

    /** The settings a three-marker triangle is built with. */
    function TriangleTuning(): Tuning
    {
      Tuning(settings.maxDissimilarityPercent, settings.badTriWeightPenalty, settings.minTriAngleSize)
    }

    /** `getPointPosition(currentPosition)`: `null` while there is no triangle set or
        no point; otherwise the blend of all triangles' projections. */
    method GetPointPosition(currentPosition: Option<GpsPoint>, env: Collaborators) returns (r: Option<FPoint2D>)
      ensures r == Query(projs, currentPosition, env, settings.fallofExponent)
      ensures r.None? <==> projs.None? || currentPosition.None?
    {
      if projs.None? || currentPosition.None? {
        return None;
      }
      var ts := projs.value;
      var p := currentPosition.value;
      var distances, distToClosestPivot := ClosestPivot(ts, p, env);
      var result, sum := Blend(ts, distances, distToClosestPivot, p, env, settings.fallofExponent);
      r := Some(result.DivBy(sum));
    }

    /** Lines 55-63 of `getPointPosition`: the pivot distance of every triangle, and
        the smallest of them, starting from `Double.MAX_VALUE`. */
    method ClosestPivot(ts: seq<ProjectionTriangle>, p: GpsPoint, env: Collaborators)
      returns (distances: array<Distance>, distToClosestPivot: real)
      ensures fresh(distances)
      ensures distances[..] == Distances(ts, p, env)
      ensures distToClosestPivot == RunningMin(distances[..])
    {
      ghost var ds := Distances(ts, p, env);
      distances := new Distance[|ts|];
      distToClosestPivot := MaxDouble;
      for i := 0 to |ts|
        invariant distances[..i] == ds[..i]
        invariant distToClosestPivot == RunningMin(ds[..i])
      {
        distances[i] := env.pivotDistance(ts[i], p);
        if distToClosestPivot > distances[i] {
          distToClosestPivot := distances[i];
        }
        assert ds[..i + 1][..i] == ds[..i];
      }
      assert distances[..] == ds[..|ts|] == ds;
    }

    /** Lines 53-54 and 65-79 of `getPointPosition`: the weighted sum of the
        projections and the sum of the weights. The falloff guard is proved never
        to fire. */
    method Blend(ts: seq<ProjectionTriangle>, distances: array<Distance>, distToClosestPivot: real,
                 p: GpsPoint, env: Collaborators, exponent: real)
      returns (result: FPoint2D, sum: Double)
      requires distances.Length == |ts|
      requires 0.0 <= distToClosestPivot && forall k | 0 <= k < distances.Length :: distToClosestPivot <= distances[k]
      ensures Accum(result, sum) == Accumulate(ts, distances[..], distToClosestPivot, p, env, exponent, |ts|)
    {
      ghost var ds := distances[..];
      result := Origin;
      sum := Finite(0.0);
      for i := 0 to |ts|
        invariant Accumulate(ts, ds, distToClosestPivot, p, env, exponent, i) == Accum(result, sum)
      {
        var unnormdist := Ratio(distToClosestPivot, distances[i]);
        var falloff := DistanceFallofFunction(unnormdist, exponent, env.pow);
        if falloff.Failure? {
          assert false;
        } else {
          var tmp := Mul(falloff.value, Finite(env.weight(ts[i])));
          var weight := ClosenessHint(distances[i]);
          var proj := env.project(ts[i], p, weight);
          result := result.Fma(proj, tmp);
          sum := Add(sum, tmp);
        }
      }
    }

    /** `findMarkerByPoint(markers, x, y)`: the first marker whose image point is
        the vertex with both coordinates cast to `int`, or `null`. */
    method FindMarkerByPoint(markers: seq<Marker>, x: real, y: real) returns (found: Option<Marker>)
      ensures found == Lookup(markers, Vertex(x, y))
    {
      for i := 0 to |markers|
        invariant Lookup(markers[i..], Vertex(x, y)) == Lookup(markers, Vertex(x, y))
      {
        var m := markers[i];
        if m.imgpoint.x == Trunc(x) && m.imgpoint.y == Trunc(y) {
          return Some(m);
        }
        assert markers[i..][1..] == markers[i + 1..];
      }
      return None;
    }

    /** `newMarkerAdded(markers)`: rebuilds the triangle set from the new marker list.
        Fewer than two markers leave it alone; two give one two-marker triangle;
        more give the Delaunay triangles whose vertices all resolve to markers,
        followed by the all-pairs grouping pass. Old triangles are never touched. */
    method NewMarkerAdded(markers: seq<Marker>, triangulate: Triangulator)
      modifies this
      ensures |markers| < 2 ==> projs == old(projs)
      ensures |markers| == 2 ==>
        && projs.Some? && |projs.value| == 1 && fresh(projs.value[0])
        && projs.value[0].corners == markers && projs.value[0].tuning == None
        && projs.value[0].offers == []
      ensures |markers| >= 3 ==>
        && projs.Some?
        && (forall t | t in projs.value :: fresh(t))
        && Rebuilt(projs.value, Resolve(markers, triangulate(imageSize, ImagePoints(markers))), TriangleTuning())
      ensures projs.Some? <==> old(projs).Some? || |markers| >= 2
      ensures old(projs).Some? ==> forall t | t in old(projs).value :: t.offers == old(t.offers)
    {
      if |markers| < 2 {
        return;
      }
      if |markers| == 2 {
        projs := Some([]);
        var t := new ProjectionTriangle.Pair(markers[0], markers[1]);
        projs := Some(projs.value + [t]);
        assert markers == [markers[0], markers[1]];
        return;
      }

      var tmparray := triangulate(imageSize, ImagePoints(markers));
      var tmplist := BuildTriangles(markers, tmparray);
      ghost var tris := Resolve(markers, tmparray);
      assert forall k | 0 <= k < |tmplist| :: tmplist[k].corners == tris[k] && tmplist[k].tuning == Some(TriangleTuning());
      GroupTriangles(tmplist);
      projs := Some(tmplist);
    }

    /** Lines 111-122 of `newMarkerAdded`: one three-marker triangle per Delaunay
        6-tuple whose three vertices all resolve, in Delaunay order. */
    method BuildTriangles(markers: seq<Marker>, tmparray: TriangleList) returns (tmplist: seq<ProjectionTriangle>)
      ensures forall k | 0 <= k < |tmplist| :: fresh(tmplist[k])
      ensures Built(tmplist, Resolve(markers, tmparray), TriangleTuning())
      ensures Distinct(tmplist)
    {
      tmplist := [];
      ghost var kept: seq<seq<Marker>> := [];
      var i := 0;
      while i < |tmparray|
        invariant 0 <= i <= |tmparray| && i % 6 == 0
        invariant kept == Resolve(markers, tmparray[..i])
        invariant forall k | 0 <= k < |tmplist| :: fresh(tmplist[k])
        invariant Built(tmplist, kept, TriangleTuning())
        invariant Distinct(tmplist)
      {
        TupleBoundaryStep(i, |tmparray|);
        ResolvePrefixStep(markers, tmparray, i);
        ghost var tuple := TupleTriangles(markers, tmparray[i .. i + 6]);
        var added := BuildTriangle(markers, tmparray[i .. i + 6]);
        BuiltAppend(tmplist, kept, added, tuple, TriangleTuning());
        assert forall k | 0 <= k < |tmplist| :: tmplist[k] !in added;
        DistinctAppend(tmplist, added);
        tmplist := tmplist + added;
        kept := kept + tuple;
        i := i + 6;
      }
      assert tmparray[..i] == tmparray;
    }

    /** One iteration of lines 112-121: the three vertices of a Delaunay 6-tuple are
        resolved, and a three-marker triangle is built when all three are found. */
    method BuildTriangle(markers: seq<Marker>, t: seq<real>) returns (added: seq<ProjectionTriangle>)
      requires |t| == 6
      ensures |added| <= 1
      ensures forall k | 0 <= k < |added| :: fresh(added[k])
      ensures Built(added, TupleTriangles(markers, t), TriangleTuning())
    {
      var m1 := FindMarkerByPoint(markers, t[0], t[1]);
      var m2 := FindMarkerByPoint(markers, t[2], t[3]);
      var m3 := FindMarkerByPoint(markers, t[4], t[5]);
      if m1.Some? && m2.Some? && m3.Some? {
        var tri := new ProjectionTriangle.Triple(m1.value, m2.value, m3.value, TriangleTuning());
        added := [tri];
      } else {
        added := [];
      }
    }

    /** Lines 124-129 of `newMarkerAdded`: every triangle is offered, in list
        order, every other triangle of the list (compared by reference). */
    method GroupTriangles(tmplist: seq<ProjectionTriangle>)
      requires Distinct(tmplist)
      requires forall k | 0 <= k < |tmplist| :: tmplist[k].offers == []
      modifies set t | t in tmplist
      ensures forall k | 0 <= k < |tmplist| :: tmplist[k].offers == tmplist[..k] + tmplist[k + 1..]
    {
      for a := 0 to |tmplist|
        invariant forall k | 0 <= k < a :: tmplist[k].offers == Without(tmplist, tmplist[k])
        invariant forall k | a <= k < |tmplist| :: tmplist[k].offers == []
      {
        var mainPt := tmplist[a];
        for b := 0 to |tmplist|
          invariant mainPt.offers == Without(tmplist[..b], mainPt)
          invariant forall k | 0 <= k < |tmplist| && k != a ::
            tmplist[k].offers == if k < a then Without(tmplist, tmplist[k]) else []
        {
          var subPt := tmplist[b];
          if mainPt != subPt {
            mainPt.TryAddToProjGroup(subPt);
          }
          assert tmplist[..b + 1][..b] == tmplist[..b];
        }
        assert tmplist[..|tmplist|] == tmplist;
      }
      forall k | 0 <= k < |tmplist|
        ensures tmplist[k].offers == tmplist[..k] + tmplist[k + 1..]
      {
        WithoutDistinct(tmplist, k);
      }
    }
  }

  /** A locator's life: created, handed the marker lists of `updates` in turn, then
      asked for a position. It answers `null` exactly when there is no query point
      or no update ever carried two or more markers. */
  method QueryAfterUpdates(imageSize: Point2D, settings: Settings, updates: seq<seq<Marker>>,
                           triangulate: Triangulator, current: Option<GpsPoint>, env: Collaborators)
    returns (r: Option<FPoint2D>)
    ensures r.None? <==> current.None? || forall k | 0 <= k < |updates| :: |updates[k]| < 2
  {
    var locator := new TriangleImagePositionLocator(imageSize, settings);
    for i := 0 to |updates|
      invariant locator.projs.Some? <==> exists k | 0 <= k < i :: |updates[k]| >= 2
    {
      locator.NewMarkerAdded(updates[i], triangulate);
    }
    r := locator.GetPointPosition(current, env);
  }
}
