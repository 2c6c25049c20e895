/** What a rebuild of the triangle set computes, as functions: resolving
    Delaunay vertices back to markers (`findMarkerByPoint`), the triangles that
    survive resolution, and the all-pairs grouping pass. The class in module
    Locator is proved against these. */
module Rebuild {
  import opened Wrappers
  import opened Numerics
  import opened Geometry

  /** The Delaunay output (MatOfFloat6): six coordinates x1, y1, x2, y2, x3, y3 per triangle. */
  type TriangleList = s: seq<real> | |s| % 6 == 0 witness []

  /** The Delaunay triangulation, given the image size and the marker image points. */
  type Triangulator = (Point2D, seq<Point2D>) -> TriangleList

  /** The pixel a Delaunay vertex denotes once both coordinates are cast with `(int)`. */
  function Vertex(x: real, y: real): (v: Point2D)
    ensures 0.0 <= x ==> v.x as real <= x < v.x as real + 1.0
    ensures x < 0.0 ==> v.x as real - 1.0 < x <= v.x as real
    ensures 0.0 <= y ==> v.y as real <= y < v.y as real + 1.0
    ensures y < 0.0 ==> v.y as real - 1.0 < y <= v.y as real
  {
    Point2D(Trunc(x), Trunc(y))
  }

  /** The first marker, in list order, whose image point is `p`, or `null`. */
  function Lookup(markers: seq<Marker>, p: Point2D): (r: Option<Marker>)
    ensures r.None? <==> forall k | 0 <= k < |markers| :: markers[k].imgpoint != p
    ensures r.Some? ==> r.value in markers && r.value.imgpoint == p
  {
    if markers == [] then None
    else if markers[0].imgpoint == p then Some(markers[0])
    else
      var rest := Lookup(markers[1..], p);
      assert forall k | 1 <= k < |markers| :: markers[k] == markers[1..][k - 1];
      rest
  }

  /** Among several markers on the same pixel, the one found is the first in list order. */
  lemma {:induction false} LookupFindsFirstMatch(markers: seq<Marker>, p: Point2D, k: nat)
    requires k < |markers| && markers[k].imgpoint == p
    requires forall j | 0 <= j < k :: markers[j].imgpoint != p
    ensures Lookup(markers, p) == Some(markers[k])
  {
    if k > 0 {
      LookupFindsFirstMatch(markers[1..], p, k - 1);
    }
  }

  /** The triangle one Delaunay 6-tuple contributes: its three markers in vertex
      order when all three vertices resolve, and nothing otherwise. */
  function TupleTriangles(markers: seq<Marker>, t: seq<real>): (tris: seq<seq<Marker>>)
    requires |t| == 6
    ensures |tris| <= 1
    ensures |tris| == 1 <==>
      && Lookup(markers, Vertex(t[0], t[1])).Some?
      && Lookup(markers, Vertex(t[2], t[3])).Some?
      && Lookup(markers, Vertex(t[4], t[5])).Some?
    ensures |tris| == 1 ==>
      && |tris[0]| == 3
      && (forall m | m in tris[0] :: m in markers)
      && tris[0][0].imgpoint == Vertex(t[0], t[1])
      && tris[0][1].imgpoint == Vertex(t[2], t[3])
      && tris[0][2].imgpoint == Vertex(t[4], t[5])
  {
    var m1 := Lookup(markers, Vertex(t[0], t[1]));
    var m2 := Lookup(markers, Vertex(t[2], t[3]));
    var m3 := Lookup(markers, Vertex(t[4], t[5]));
    if m1.Some? && m2.Some? && m3.Some? then [[m1.value, m2.value, m3.value]] else []
  }

  /** Whether all three vertices of the `i`-th 6-tuple of `tl` resolve to markers. */
  predicate TupleResolves(markers: seq<Marker>, tl: TriangleList, i: nat)
    requires i < |tl| / 6
  {
    |TupleTriangles(markers, tl[6 * i .. 6 * i + 6])| == 1
  }

  /** The marker triples of the triangles the rebuild keeps, in Delaunay order. */
  function Resolve(markers: seq<Marker>, tl: TriangleList): (tris: seq<seq<Marker>>)
    decreases |tl|
  {
    if tl == [] then []
    else TupleTriangles(markers, tl[..6]) + Resolve(markers, tl[6..])
  }

  /** The rebuild keeps at most one triangle per Delaunay triangle, and every kept
      triangle has three corners, each a marker of the list. */
  lemma {:induction false} ResolveShape(markers: seq<Marker>, tl: TriangleList)
    ensures |Resolve(markers, tl)| <= |tl| / 6
    ensures forall t | t in Resolve(markers, tl) :: |t| == 3 && forall m | m in t :: m in markers
    decreases |tl|
  {
    if tl != [] {
      var rest: TriangleList := tl[6..];
      ResolveShape(markers, rest);
      var head := TupleTriangles(markers, tl[..6]);
      assert Resolve(markers, tl) == head + Resolve(markers, rest);
      assert forall t | t in head + Resolve(markers, rest) :: t in head || t in Resolve(markers, rest);
    }
  }

  /** Resolution works tuple by tuple: the triangles of a concatenation are the
      triangles of the first part followed by those of the second. */
  lemma {:induction false} ResolveAppend(markers: seq<Marker>, a: TriangleList, b: TriangleList)
    ensures Resolve(markers, a + b) == Resolve(markers, a) + Resolve(markers, b)
    decreases |a|
  {
    if a != [] {
      assert (a + b)[..6] == a[..6];
      assert (a + b)[6..] == a[6..] + b;
      ResolveAppend(markers, a[6..], b);
    } else {
      assert a + b == b;
    }
  }

  /** A single 6-tuple yields its triangle, in vertex order, exactly when all
      three vertices resolve. */
  lemma ResolveOneTuple(markers: seq<Marker>, t: TriangleList)
    requires |t| == 6
    ensures TupleResolves(markers, t, 0) ==>
      Resolve(markers, t) == [[Lookup(markers, Vertex(t[0], t[1])).value,
                               Lookup(markers, Vertex(t[2], t[3])).value,
                               Lookup(markers, Vertex(t[4], t[5])).value]]
    ensures !TupleResolves(markers, t, 0) ==> Resolve(markers, t) == []
  {
  }

  /** The loop over the Delaunay output extends the kept triangles one 6-tuple at a time. */
  lemma ResolvePrefixStep(markers: seq<Marker>, tl: TriangleList, i: nat)
    requires i % 6 == 0 && i + 6 <= |tl|
    ensures Resolve(markers, tl[..i + 6]) == Resolve(markers, tl[..i]) + TupleTriangles(markers, tl[i .. i + 6])
  {
    var prefix: TriangleList := tl[..i];
    var tuple: TriangleList := tl[i .. i + 6];
    assert tl[..i + 6] == prefix + tuple;
    ResolveAppend(markers, prefix, tuple);
    ResolveSingle(markers, tuple);
  }

  /** A list holding a single 6-tuple resolves to that tuple's contribution. */
  lemma ResolveSingle(markers: seq<Marker>, t: TriangleList)
    requires |t| == 6
    ensures Resolve(markers, t) == TupleTriangles(markers, t)
  {
  }

  /** Stepping from one 6-tuple boundary to the next stays on a boundary and in range. */
  lemma TupleBoundaryStep(i: nat, n: nat)
    requires i % 6 == 0 && n % 6 == 0 && i < n
    ensures i + 6 <= n && (i + 6) % 6 == 0
  {
  }

  /** No triangle is lost exactly when every Delaunay triangle resolves; one
      unresolvable vertex makes the set strictly smaller than the Delaunay output. */
  lemma {:induction false} ResolveKeepsAllIff(markers: seq<Marker>, tl: TriangleList)
    ensures |Resolve(markers, tl)| == |tl| / 6 <==>
            forall i | 0 <= i < |tl| / 6 :: TupleResolves(markers, tl, i)
    decreases |tl|
  {
    if tl != [] {
      var rest: TriangleList := tl[6..];
      ResolveKeepsAllIff(markers, rest);
      ResolveShape(markers, rest);
      HeadTuple(markers, tl);
      var headOk := TupleResolves(markers, tl, 0);
      var restOk := forall i | 0 <= i < |rest| / 6 :: TupleResolves(markers, rest, i);
      assert |Resolve(markers, tl)| == |tl| / 6 <==> headOk && restOk;
      TailTuples(markers, tl);
    }
  }

  /** The first 6-tuple contributes one triangle exactly when it resolves, and the
      length bound leaves the rest one tuple short of the whole. */
  lemma HeadTuple(markers: seq<Marker>, tl: TriangleList)
    requires tl != []
    ensures |TupleTriangles(markers, tl[..6])| == if TupleResolves(markers, tl, 0) then 1 else 0
    ensures |tl[6..]| / 6 == |tl| / 6 - 1
  {
  }

  /** Every tuple of `tl` resolves exactly when the first does and every tuple of the rest does. */
  lemma TailTuples(markers: seq<Marker>, tl: TriangleList)
    requires tl != []
    ensures (forall i | 0 <= i < |tl| / 6 :: TupleResolves(markers, tl, i)) <==>
            TupleResolves(markers, tl, 0) &&
            forall i | 0 <= i < |tl[6..]| / 6 :: TupleResolves(markers, tl[6..], i)
  {
    var rest: TriangleList := tl[6..];
    assert |rest| / 6 == |tl| / 6 - 1;
    forall i | 0 <= i < |rest| / 6
      ensures TupleResolves(markers, rest, i) == TupleResolves(markers, tl, i + 1)
    {
      var a := 6 * i;
      assert 6 * (i + 1) == a + 6;
      assert rest[a .. a + 6] == tl[a + 6 .. a + 12];
    }
    if !forall i | 0 <= i < |tl| / 6 :: TupleResolves(markers, tl, i) {
      var i :| 0 <= i < |tl| / 6 && !TupleResolves(markers, tl, i);
      if i > 0 {
        assert !TupleResolves(markers, rest, i - 1);
      }
    }
  }

  /** Whether the elements of `s` are pairwise different (distinct objects for references). */
  predicate Distinct<T(==)>(s: seq<T>)
  {
    forall i, j | 0 <= i < j < |s| :: s[i] != s[j]
  }

  /** Two lists of distinct elements with no element in common concatenate to one. */
  lemma DistinctAppend<T>(a: seq<T>, b: seq<T>)
    requires Distinct(a) && Distinct(b)
    requires forall k | 0 <= k < |a| :: a[k] !in b
    ensures Distinct(a + b)
  {
  }

  /** What the inner grouping loop offers `x`: every element of `s` that is not `x`, in order. */
  function Without<T(==)>(s: seq<T>, x: T): (r: seq<T>)
    ensures x !in r
    ensures forall y | y in r :: y in s
    ensures forall y | y in s && y != x :: y in r
    ensures |r| <= |s|
  {
    if s == [] then []
    else
      var init := Without(s[..|s| - 1], x);
      assert forall y | y in s :: y in s[..|s| - 1] || y == s[|s| - 1];
      init + (if s[|s| - 1] == x then [] else [s[|s| - 1]])
  }

  /** Scanning a prefix of a list of distinct elements for the `i`-th skips only that one. */
  lemma {:induction false} WithoutPrefix<T>(s: seq<T>, i: nat, n: nat)
    requires Distinct(s) && i < |s| && n <= |s|
    ensures Without(s[..n], s[i]) == if n <= i then s[..n] else s[..i] + s[i + 1 .. n]
  {
    if n > 0 {
      WithoutPrefix(s, i, n - 1);
      assert s[..n][..n - 1] == s[..n - 1];
      if n - 1 == i {
        assert s[..i] + s[i + 1 .. n] == s[..i];
      } else if n <= i {
        assert s[n - 1] != s[i];
        assert s[..n - 1] + [s[n - 1]] == s[..n];
      } else {
        assert s[n - 1] != s[i];
        assert s[..i] + s[i + 1 .. n - 1] + [s[n - 1]] == s[..i] + s[i + 1 .. n];
      }
    }
  }

  /** In a list of distinct triangles, the grouping pass offers the `i`-th
      triangle every other one, in list order, and never itself. */
  lemma WithoutDistinct<T>(s: seq<T>, i: nat)
    requires Distinct(s) && i < |s|
    ensures Without(s, s[i]) == s[..i] + s[i + 1..]
    ensures |Without(s, s[i])| == |s| - 1
  {
    WithoutPrefix(s, i, |s|);
    assert s[..|s|] == s;
  }

  /** The number of `tryAddToProjGroup` calls the first `k` outer iterations make. */
  function CallCount<T(==)>(s: seq<T>, k: nat): (calls: nat)
    requires k <= |s|
    ensures calls <= k * |s|
  {
    if k == 0 then 0
    else
      MulStep(k, |s|);
      CallCount(s, k - 1) + |Without(s, s[k - 1])|
  }

  /** The grouping pass over `n` distinct triangles makes n * (n - 1) calls. */
  lemma {:induction false} GroupingPassCallCount<T>(s: seq<T>, k: nat)
    requires Distinct(s) && k <= |s|
    ensures CallCount(s, k) == k * (|s| - 1)
  {
    if k > 0 {
      var n := |s| - 1;
      var before := CallCount(s, k - 1);
      GroupingPassCallCount(s, k - 1);
      assert |Without(s, s[k - 1])| == n by { WithoutDistinct(s, k - 1); }
      assert CallCount(s, k) == before + n;
      MulStep(k, n);
    }
  }

  /** Peeling one factor off a product, for the induction on the outer loop. */
  lemma MulStep(k: int, n: int)
    ensures k * n == (k - 1) * n + n
  {
  }
}
