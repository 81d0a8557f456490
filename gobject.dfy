// GObject.cs: the drawable primitives. A `GObject2D` holds two or three
// homogeneous 2D points and their bounding rectangle, a `GObject` two or three
// homogeneous 3D points and their bounding cuboid. Both compute the bounds
// with running minima and maxima, where a point that lowers the minimum is
// never considered for the maximum.
module GObjects {
  import opened Numerics
  import opened Vectors
  import TMakers
  import TMakers2D

  // ---------------------------------------------------------------------
  // Running bounds
  // ---------------------------------------------------------------------

  /** The running minimum of `UpdateBoundaries`, started at
      `double.MaxValue`. */
  function RunMin(xs: seq<real>): real
  {
    if |xs| == 0 then DoubleMax
    else
      var front, x := xs[..|xs| - 1], xs[|xs| - 1];
      if x < RunMin(front) then x else RunMin(front)
  }

  /** Element k lowers the running minimum of the elements before it. */
  predicate NewMin(xs: seq<real>, k: int)
    requires 0 <= k < |xs|
  {
    xs[k] < RunMin(xs[..k])
  }

  /** The running maximum, started at `double.MinValue`, that the `else if`
      updates only with elements that do not lower the minimum. */
  function RunMaxElse(xs: seq<real>): real
  {
    if |xs| == 0 then DoubleMin
    else
      var front, x := xs[..|xs| - 1], xs[|xs| - 1];
      if x < RunMin(front) then RunMaxElse(front)
      else if x > RunMaxElse(front) then x
      else RunMaxElse(front)
  }

  /** The test of the 3D maximum in x: the quotient x / w against the running
      maximum. A zero w makes the quotient an infinity of x's sign (NaN for
      x = 0), which exceeds every finite maximum exactly when x > 0. */
  predicate QuotientAbove(x: real, w: real, m: real)
  {
    if w == 0.0 then x > 0.0 else x / w > m
  }

  /** The running maximum of the 3D x: the test divides by w, the update
      stores x itself. */
  function RunMaxElseQ(xs: seq<real>, ws: seq<real>): real
    requires |ws| == |xs|
  {
    if |xs| == 0 then DoubleMin
    else
      var n := |xs| - 1;
      if xs[n] < RunMin(xs[..n]) then RunMaxElseQ(xs[..n], ws[..n])
      else if QuotientAbove(xs[n], ws[n], RunMaxElseQ(xs[..n], ws[..n])) then xs[n]
      else RunMaxElseQ(xs[..n], ws[..n])
  }

  /** The running minimum is the least element, when there is one within
      double range. */
  lemma {:induction false} RunMinIsMin(xs: seq<real>)
    requires forall k :: 0 <= k < |xs| ==> xs[k] <= DoubleMax
    ensures forall k :: 0 <= k < |xs| ==> RunMin(xs) <= xs[k]
    ensures |xs| > 0 ==> exists k :: 0 <= k < |xs| && RunMin(xs) == xs[k]
    ensures |xs| == 0 ==> RunMin(xs) == DoubleMax
    decreases |xs|
  {
    if |xs| > 0 {
      var n := |xs| - 1;
      var front := xs[..n];
      RunMinIsMin(front);
      assert forall k :: 0 <= k < n ==> front[k] == xs[k];
      if n > 0 {
        var k :| 0 <= k < n && RunMin(front) == front[k];
        assert RunMin(xs) == xs[k] || RunMin(xs) == xs[n];
      }
    }
  }

  /** Whether an element lowers the minimum depends only on the elements
      before it. */
  lemma NewMinPrefix(xs: seq<real>, n: int, k: int)
    requires 0 <= k < n <= |xs|
    ensures xs[..n][k] == xs[k] && (NewMin(xs[..n], k) <==> NewMin(xs, k))
  {
    assert xs[..n][..k] == xs[..k];
  }

  /** The running maximum of the `else if` is the largest element that does
      not lower the minimum before it, or `double.MinValue` when there is
      none above it. */
  lemma {:induction false} RunMaxElseIsMax(xs: seq<real>)
    ensures forall k :: 0 <= k < |xs| && !NewMin(xs, k) ==> xs[k] <= RunMaxElse(xs)
    ensures RunMaxElse(xs) == DoubleMin || exists k :: 0 <= k < |xs| && !NewMin(xs, k) && RunMaxElse(xs) == xs[k]
    decreases |xs|
  {
    if |xs| > 0 {
      var n := |xs| - 1;
      var front := xs[..n];
      var m := RunMaxElse(front);
      RunMaxElseIsMax(front);
      forall k | 0 <= k < n ensures front[k] == xs[k] && (NewMin(xs, k) <==> NewMin(front, k)) {
        NewMinPrefix(xs, n, k);
      }
      assert NewMin(xs, n) <==> xs[n] < RunMin(front);
      if xs[n] < RunMin(front) {
        assert RunMaxElse(xs) == m;
      } else if xs[n] > m {
        assert RunMaxElse(xs) == xs[n];
      } else {
        assert RunMaxElse(xs) == m;
      }
      if RunMaxElse(xs) != DoubleMin && RunMaxElse(xs) != xs[n] {
        var k :| 0 <= k < n && !NewMin(front, k) && m == front[k];
        assert !NewMin(xs, k) && RunMaxElse(xs) == xs[k];
      }
    }
  }

  /** The largest element is found whenever some element after the first
      reaches it: then it cannot lower the minimum. */
  lemma MaxAfterFirst(xs: seq<real>, j: int)
    requires 0 < j < |xs| && xs[j] <= DoubleMax
    requires forall k :: 0 <= k < |xs| ==> DoubleMin <= xs[k] <= xs[j]
    ensures RunMaxElse(xs) == xs[j]
  {
    var front := xs[..j];
    RunMinIsMin(front);
    assert front[0] == xs[0];
    assert !NewMin(xs, j);
    RunMaxElseIsMax(xs);
  }

  /** A single point within double range never reaches the maximum: its
      coordinate lowers the minimum, so the maximum stays `double.MinValue`. */
  lemma SinglePointMax(x: real)
    requires x < DoubleMax
    ensures RunMin([x]) == x && RunMaxElse([x]) == DoubleMin
  {
    assert [x][..0] == [];
  }

  /** With every w equal to 1 the quotient test is the plain test. */
  lemma {:induction false} QuotientOne(xs: seq<real>, ws: seq<real>)
    requires |ws| == |xs| && forall k :: 0 <= k < |ws| ==> ws[k] == 1.0
    ensures RunMaxElseQ(xs, ws) == RunMaxElse(xs)
    decreases |xs|
  {
    if |xs| > 0 {
      var n := |xs| - 1;
      QuotientOne(xs[..n], ws[..n]);
    }
  }

  /** Points at infinity (w = 0) after a positive x can lower the maximum:
      for x = 1, 5, 2 the stored maximum is 2, not 5. */
  lemma QuotientAtInfinity()
    ensures RunMaxElseQ([1.0, 5.0, 2.0], [0.0, 0.0, 0.0]) == 2.0
    ensures RunMaxElse([1.0, 5.0, 2.0]) == 5.0
  {
    assert [1.0, 5.0, 2.0][..2] == [1.0, 5.0];
    assert [1.0, 5.0][..1] == [1.0];
    assert [0.0, 0.0, 0.0][..2] == [0.0, 0.0];
    assert [0.0, 0.0][..1] == [0.0];
    assert [1.0][..0] == [];
    assert [0.0][..0] == [];
  }

  function Xs2(ps: seq<Vec3>): (xs: seq<real>)
    ensures |xs| == |ps| && forall k :: 0 <= k < |ps| ==> xs[k] == ps[k].x
  {
    seq(|ps|, k requires 0 <= k < |ps| => ps[k].x)
  }

  function Ys2(ps: seq<Vec3>): (ys: seq<real>)
    ensures |ys| == |ps| && forall k :: 0 <= k < |ps| ==> ys[k] == ps[k].y
  {
    seq(|ps|, k requires 0 <= k < |ps| => ps[k].y)
  }

  function Xs4(ps: seq<Vec4>): (xs: seq<real>)
    ensures |xs| == |ps| && forall k :: 0 <= k < |ps| ==> xs[k] == ps[k].x
  {
    seq(|ps|, k requires 0 <= k < |ps| => ps[k].x)
  }

  function Ys4(ps: seq<Vec4>): (ys: seq<real>)
    ensures |ys| == |ps| && forall k :: 0 <= k < |ps| ==> ys[k] == ps[k].y
  {
    seq(|ps|, k requires 0 <= k < |ps| => ps[k].y)
  }

  function Zs4(ps: seq<Vec4>): (zs: seq<real>)
    ensures |zs| == |ps| && forall k :: 0 <= k < |ps| ==> zs[k] == ps[k].z
  {
    seq(|ps|, k requires 0 <= k < |ps| => ps[k].z)
  }

  function Ws4(ps: seq<Vec4>): (ws: seq<real>)
    ensures |ws| == |ps| && forall k :: 0 <= k < |ps| ==> ws[k] == ps[k].w
  {
    seq(|ps|, k requires 0 <= k < |ps| => ps[k].w)
  }

  /** The rectangle the 2D `UpdateBoundaries` computes. */
  function Bounds2(ps: seq<Vec3>): Rect
  {
    Rect(RunMin(Xs2(ps)), RunMin(Ys2(ps)), RunMaxElse(Xs2(ps)), RunMaxElse(Ys2(ps)))
  }

  /** The cuboid the 3D `UpdateBoundaries` computes from normalized points. */
  function Bounds3(ps: seq<Vec4>): Cuboid
  {
    Cuboid(RunMin(Xs4(ps)), RunMin(Ys4(ps)), RunMin(Zs4(ps)),
           RunMaxElseQ(Xs4(ps), Ws4(ps)), RunMaxElse(Ys4(ps)), RunMaxElse(Zs4(ps)))
  }

  /** Every point normalized. */
  function NormalizeAll(ps: seq<Vec4>): (ns: seq<Vec4>)
    ensures |ns| == |ps| && forall k :: 0 <= k < |ps| ==> ns[k] == ps[k].Normalize()
  {
    seq(|ps|, k requires 0 <= k < |ps| => ps[k].Normalize())
  }

  /** Normalizing twice is normalizing once, and leaves every w at 0 or 1. */
  lemma NormalizeAllIdempotent(ps: seq<Vec4>)
    ensures NormalizeAll(NormalizeAll(ps)) == NormalizeAll(ps)
    ensures forall k :: 0 <= k < |ps| ==> NormalizeAll(ps)[k].w == 0.0 || NormalizeAll(ps)[k].w == 1.0
  {
    var ns := NormalizeAll(ps);
    forall k | 0 <= k < |ps| ensures NormalizeAll(ns)[k] == ns[k] && (ns[k].w == 0.0 || ns[k].w == 1.0) {
      NormalizeIdempotent(ps[k]);
    }
  }

  /** The maximum in x of finite points is the plain running maximum. */
  lemma FiniteBounds3(ps: seq<Vec4>)
    requires forall k :: 0 <= k < |ps| ==> ps[k].w == 1.0
    ensures Bounds3(ps).r == RunMaxElse(Xs4(ps))
  {
    QuotientOne(Xs4(ps), Ws4(ps));
  }

  /** One step of the running bounds: the prefix of k + 1 elements is the
      prefix of k followed by element k. */
  lemma PrefixStep(xs: seq<real>, k: int)
    requires 0 <= k < |xs|
    ensures xs[..k + 1][..k] == xs[..k] && xs[..k + 1][k] == xs[k] && |xs[..k + 1]| == k + 1
  {
  }

  // ---------------------------------------------------------------------
  // GObject2D
  // ---------------------------------------------------------------------

  class GObject2D {
    var points: array<Vec3>
    var boundaries: Rect
    var tmaker: TMakers2D.TMaker2D?

    /** `GObject2D(p1, p2, p3, tmaker)`: a triangle, bounds computed. */
    constructor Triangle(p1: Vec3, p2: Vec3, p3: Vec3, tmaker: TMakers2D.TMaker2D?)
      ensures fresh(points) && points[..] == [p1, p2, p3] && this.tmaker == tmaker
      ensures boundaries == Bounds2([p1, p2, p3])
    {
      this.tmaker := tmaker;
      points := new Vec3[3] [p1, p2, p3];
      new;
      UpdateBoundaries();
    }

    /** `GObject2D(p1, p2, tmaker)`: a segment, bounds computed. */
    constructor Segment(p1: Vec3, p2: Vec3, tmaker: TMakers2D.TMaker2D?)
      ensures fresh(points) && points[..] == [p1, p2] && this.tmaker == tmaker
      ensures boundaries == Bounds2([p1, p2])
    {
      this.tmaker := tmaker;
      points := new Vec3[2] [p1, p2];
      new;
      UpdateBoundaries();
    }

    /** The indexer's getter. */
    method Get(i: int) returns (r: Result<Vec3>)
      ensures 0 <= i < points.Length ==> r == Ok(points[i])
      ensures !(0 <= i < points.Length) ==> r == Err(IndexOutOfRange)
    {
      if !(0 <= i < points.Length) {
        return Err(IndexOutOfRange);
      }
      return Ok(points[i]);
    }

    /** The indexer's setter: replaces one point and leaves the bounds as
        they were. */
    method Set(i: int, p: Vec3) returns (r: Result<()>)
      modifies points
      ensures r.Ok? <==> 0 <= i < points.Length
      ensures r.Err? ==> r.error == IndexOutOfRange
      ensures r.Ok? ==> points[..] == old(points[..])[i := p]
      ensures r.Err? ==> points[..] == old(points[..])
      ensures boundaries == old(boundaries)
    {
      if !(0 <= i < points.Length) {
        return Err(IndexOutOfRange);
      }
      points[i] := p;
      return Ok(());
    }

    /** `UpdateBoundaries`: the running minima and `else if` maxima of x and
        y over the points. */
    method UpdateBoundaries()
      modifies this
      ensures points == old(points) && tmaker == old(tmaker)
      ensures boundaries == Bounds2(points[..])
    {
      var pts := points;
      ghost var xs, ys := Xs2(pts[..]), Ys2(pts[..]);
      var minX, minY := DoubleMax, DoubleMax;
      var maxX, maxY := DoubleMin, DoubleMin;
      for i := 0 to pts.Length
        invariant points == pts && tmaker == old(tmaker)
        invariant minX == RunMin(xs[..i]) && maxX == RunMaxElse(xs[..i])
        invariant minY == RunMin(ys[..i]) && maxY == RunMaxElse(ys[..i])
      {
        PrefixStep(xs, i);
        PrefixStep(ys, i);
        var p := pts[i];
        if p.x < minX {
          minX := p.x;
        } else if p.x > maxX {
          maxX := p.x;
        }
        if p.y < minY {
          minY := p.y;
        } else if p.y > maxY {
          maxY := p.y;
        }
      }
      assert xs[..pts.Length] == xs && ys[..pts.Length] == ys;
      boundaries := Rect(minX, minY, maxX, maxY);
    }
  }

  /** The bounds of a triangle whose points span the rectangle l, t, r, b
      the way `GetRectangle` builds them are that rectangle. */
  lemma TriangleBounds(l: real, t: real, r: real, b: real, w: real)
    requires DoubleMin <= l < r <= DoubleMax && DoubleMin <= t < b <= DoubleMax
    ensures Bounds2([Vec3(l, t, w), Vec3(r, t, w), Vec3(l, b, w)]) == Rect(l, t, r, b)
    ensures Bounds2([Vec3(r, t, w), Vec3(r, b, w), Vec3(l, b, w)]) == Rect(l, t, r, b)
  {
    assert Xs2([Vec3(l, t, w), Vec3(r, t, w), Vec3(l, b, w)]) == [l, r, l];
    assert Ys2([Vec3(l, t, w), Vec3(r, t, w), Vec3(l, b, w)]) == [t, t, b];
    assert Xs2([Vec3(r, t, w), Vec3(r, b, w), Vec3(l, b, w)]) == [r, r, l];
    assert Ys2([Vec3(r, t, w), Vec3(r, b, w), Vec3(l, b, w)]) == [t, b, b];
    TwoValueBounds([l, r, l], l, r, 1);
    TwoValueBounds([t, t, b], t, b, 2);
    TwoValueBounds([r, r, l], l, r, 1);
    TwoValueBounds([t, b, b], t, b, 1);
  }

  /** Running bounds of a sequence holding only `lo` and `hi`, with `lo`
      present and `hi` somewhere after the first element. */
  lemma TwoValueBounds(xs: seq<real>, lo: real, hi: real, j: int)
    requires DoubleMin <= lo < hi <= DoubleMax && 0 < j < |xs| && xs[j] == hi
    requires lo in xs && forall k :: 0 <= k < |xs| ==> xs[k] == lo || xs[k] == hi
    ensures RunMin(xs) == lo && RunMaxElse(xs) == hi
  {
    RunMinIsMin(xs);
    MaxAfterFirst(xs, j);
  }

  // ---------------------------------------------------------------------
  // GObject
  // ---------------------------------------------------------------------

  class GObject {
    var points: array<Vec4>
    var boundaries: Cuboid
    var tmaker: TMakers.TMaker?

    /** `GObject(p1, p2, p3, tmaker)`: a triangle; computing the bounds
        normalizes the points in place. */
    constructor Triangle(p1: Vec4, p2: Vec4, p3: Vec4, tmaker: TMakers.TMaker?)
      ensures fresh(points) && points[..] == NormalizeAll([p1, p2, p3]) && this.tmaker == tmaker
      ensures boundaries == Bounds3(points[..])
    {
      this.tmaker := tmaker;
      points := new Vec4[3] [p1, p2, p3];
      new;
      UpdateBoundaries();
    }

    /** `GObject(p1, p2, tmaker)`: a segment. */
    constructor Segment(p1: Vec4, p2: Vec4, tmaker: TMakers.TMaker?)
      ensures fresh(points) && points[..] == NormalizeAll([p1, p2]) && this.tmaker == tmaker
      ensures boundaries == Bounds3(points[..])
    {
      this.tmaker := tmaker;
      points := new Vec4[2] [p1, p2];
      new;
      UpdateBoundaries();
    }

    method Get(i: int) returns (r: Result<Vec4>)
      ensures 0 <= i < points.Length ==> r == Ok(points[i])
      ensures !(0 <= i < points.Length) ==> r == Err(IndexOutOfRange)
    {
      if !(0 <= i < points.Length) {
        return Err(IndexOutOfRange);
      }
      return Ok(points[i]);
    }

    /** The indexer's setter: replaces one point, bounds untouched. */
    method Set(i: int, p: Vec4) returns (r: Result<()>)
      modifies points
      ensures r.Ok? <==> 0 <= i < points.Length
      ensures r.Err? ==> r.error == IndexOutOfRange
      ensures r.Ok? ==> points[..] == old(points[..])[i := p]
      ensures r.Err? ==> points[..] == old(points[..])
      ensures boundaries == old(boundaries)
    {
      if !(0 <= i < points.Length) {
        return Err(IndexOutOfRange);
      }
      points[i] := p;
      return Ok(());
    }

    /** `UpdateBoundaries`: normalizes each point in place, then takes the
        running minima and `else if` maxima; the maximum in x is tested on
        x / w but stores x. */
    method UpdateBoundaries()
      modifies this, points
      ensures points == old(points) && tmaker == old(tmaker)
      ensures points[..] == NormalizeAll(old(points[..]))
      ensures boundaries == Bounds3(points[..])
    {
      var pts := points;
      ghost var ns := NormalizeAll(pts[..]);
      ghost var xs, ys, zs, ws := Xs4(ns), Ys4(ns), Zs4(ns), Ws4(ns);
      var minX, minY, minZ := DoubleMax, DoubleMax, DoubleMax;
      var maxX, maxY, maxZ := DoubleMin, DoubleMin, DoubleMin;
      for i := 0 to pts.Length
        invariant points == pts && tmaker == old(tmaker)
        invariant pts[..i] == ns[..i] && pts[i..] == old(pts[..])[i..]
        invariant minX == RunMin(xs[..i]) && maxX == RunMaxElseQ(xs[..i], ws[..i])
        invariant minY == RunMin(ys[..i]) && maxY == RunMaxElse(ys[..i])
        invariant minZ == RunMin(zs[..i]) && maxZ == RunMaxElse(zs[..i])
      {
        PrefixStep(xs, i);
        PrefixStep(ws, i);
        PrefixStep(ys, i);
        PrefixStep(zs, i);
        assert pts[i] == old(pts[..])[i];
        pts[i] := pts[i].Normalize();
        var p := pts[i];
        if p.x < minX {
          minX := p.x;
        } else if QuotientAbove(p.x, p.w, maxX) {
          maxX := p.x;
        }
        if p.y < minY {
          minY := p.y;
        } else if p.y > maxY {
          maxY := p.y;
        }
        if p.z < minZ {
          minZ := p.z;
        } else if p.z > maxZ {
          maxZ := p.z;
        }
      }
      assert pts[..] == ns;
      assert xs[..pts.Length] == xs && ws[..pts.Length] == ws;
      assert ys[..pts.Length] == ys && zs[..pts.Length] == zs;
      boundaries := Cuboid(minX, minY, minZ, maxX, maxY, maxZ);
    }
  }
}
