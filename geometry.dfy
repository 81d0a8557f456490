// The static helpers of `Utility` in GUtility.cs: bounding boxes of point
// sets, the even-odd point-in-polygon test, and the two line intersections
// built on the matrix inverses.
module Geometry {
  import opened Numerics
  import opened Vectors
  import opened Matrices

  // ---------------------------------------------------------------------
  // GetBounds
  // ---------------------------------------------------------------------

  /** A coordinate a C# `double` can hold. */
  predicate FiniteDouble(d: real)
  {
    DoubleMin <= d <= DoubleMax
  }

  /** `GetBounds(I2Dimensional[])`: starts from the empty box
      (MaxValue, MinValue) and widens it with every point, testing the
      minimum and the maximum of each axis independently. */
  method GetBounds(coll: seq<Vec2>) returns (rc: Rect)
    requires forall i :: 0 <= i < |coll| ==> FiniteDouble(coll[i].x) && FiniteDouble(coll[i].y)
    ensures |coll| == 0 ==> rc == Rect(DoubleMax, DoubleMax, DoubleMin, DoubleMin)
    ensures forall i :: 0 <= i < |coll| ==> rc.ContainsXY(coll[i].x, coll[i].y)
    ensures |coll| > 0 ==> exists i :: 0 <= i < |coll| && coll[i].x == rc.l
    ensures |coll| > 0 ==> exists i :: 0 <= i < |coll| && coll[i].x == rc.r
    ensures |coll| > 0 ==> exists i :: 0 <= i < |coll| && coll[i].y == rc.t
    ensures |coll| > 0 ==> exists i :: 0 <= i < |coll| && coll[i].y == rc.b
    ensures |coll| > 0 ==> rc == BoundsOf(coll)
  {
    var l, r, t, b := DoubleMax, DoubleMin, DoubleMax, DoubleMin;
    for i := 0 to |coll|
      invariant forall k :: 0 <= k < i ==> l <= coll[k].x <= r && t <= coll[k].y <= b
      invariant i == 0 ==> l == DoubleMax && r == DoubleMin && t == DoubleMax && b == DoubleMin
      invariant i > 0 ==> exists k :: 0 <= k < i && coll[k].x == l
      invariant i > 0 ==> exists k :: 0 <= k < i && coll[k].x == r
      invariant i > 0 ==> exists k :: 0 <= k < i && coll[k].y == t
      invariant i > 0 ==> exists k :: 0 <= k < i && coll[k].y == b
    {
      if coll[i].x < l {
        l := coll[i].x;
      }
      if coll[i].x > r {
        r := coll[i].x;
      }
      if coll[i].y < t {
        t := coll[i].y;
      }
      if coll[i].y > b {
        b := coll[i].y;
      }
    }
    rc := Rect(l, t, r, b);
    if |coll| > 0 {
      BoundsUnique(coll, rc);
    }
  }

  /** The tightest box around a non-empty point list: the least and the
      greatest X and Y. */
  function BoundsOf(coll: seq<Vec2>): (rc: Rect)
    requires |coll| > 0
    ensures forall i :: 0 <= i < |coll| ==> rc.ContainsXY(coll[i].x, coll[i].y)
    ensures exists i :: 0 <= i < |coll| && coll[i].x == rc.l
    ensures exists i :: 0 <= i < |coll| && coll[i].x == rc.r
    ensures exists i :: 0 <= i < |coll| && coll[i].y == rc.t
    ensures exists i :: 0 <= i < |coll| && coll[i].y == rc.b
    decreases |coll|
  {
    var p := coll[|coll| - 1];
    if |coll| == 1 then Rect(p.x, p.y, p.x, p.y)
    else
      var rc := BoundsOf(coll[..|coll| - 1]);
      Rect(Min2(rc.l, p.x), Min2(rc.t, p.y), Max2(rc.r, p.x), Max2(rc.b, p.y))
  }

  /** A box that contains every point and whose every side is attained by
      a point is the tightest box. */
  lemma BoundsUnique(coll: seq<Vec2>, rc: Rect)
    requires |coll| > 0
    requires forall i :: 0 <= i < |coll| ==> rc.ContainsXY(coll[i].x, coll[i].y)
    requires exists i :: 0 <= i < |coll| && coll[i].x == rc.l
    requires exists i :: 0 <= i < |coll| && coll[i].x == rc.r
    requires exists i :: 0 <= i < |coll| && coll[i].y == rc.t
    requires exists i :: 0 <= i < |coll| && coll[i].y == rc.b
    ensures rc == BoundsOf(coll)
  {
    var bs := BoundsOf(coll);
    var i1 :| 0 <= i1 < |coll| && coll[i1].x == rc.l;
    var i2 :| 0 <= i2 < |coll| && coll[i2].x == bs.l;
    assert rc.l <= coll[i2].x && bs.l <= coll[i1].x;
    var i3 :| 0 <= i3 < |coll| && coll[i3].x == rc.r;
    var i4 :| 0 <= i4 < |coll| && coll[i4].x == bs.r;
    assert rc.r >= coll[i4].x && bs.r >= coll[i3].x;
    var i5 :| 0 <= i5 < |coll| && coll[i5].y == rc.t;
    var i6 :| 0 <= i6 < |coll| && coll[i6].y == bs.t;
    assert rc.t <= coll[i6].y && bs.t <= coll[i5].y;
    var i7 :| 0 <= i7 < |coll| && coll[i7].y == rc.b;
    var i8 :| 0 <= i8 < |coll| && coll[i8].y == bs.b;
    assert rc.b >= coll[i8].y && bs.b >= coll[i7].y;
  }

  /** The X coordinates, and the Y coordinates, of a point list. */
  function Xs(coll: seq<Vec2I>): (xs: seq<int>)
    ensures |xs| == |coll| && forall i :: 0 <= i < |coll| ==> xs[i] == coll[i].x
  {
    seq(|coll|, i requires 0 <= i < |coll| => coll[i].x)
  }

  function Ys(coll: seq<Vec2I>): (ys: seq<int>)
    ensures |ys| == |coll| && forall i :: 0 <= i < |coll| ==> ys[i] == coll[i].y
  {
    seq(|coll|, i requires 0 <= i < |coll| => coll[i].y)
  }

  /** The (low, high) pair that `GetBounds(Vec2I[])` keeps for one axis:
      it starts at (int.MaxValue, int.MinValue), and each value either lowers
      the low end or, only when it does not, raises the high end. */
  function AxisBounds(xs: seq<int>): (int, int)
  {
    if |xs| == 0 then (IntMax, IntMin)
    else
      var (lo, hi) := AxisBounds(xs[..|xs| - 1]);
      var x := xs[|xs| - 1];
      if x < lo then (x, hi) else if x > hi then (lo, x) else (lo, hi)
  }

  /** A 32-bit integer. */
  predicate IntValue(x: int)
  {
    IntMin <= x <= IntMax
  }

  /** The low end of the one-axis fold is the minimum of the values, or
      int.MaxValue when there are none. */
  lemma {:induction false} AxisBoundsLow(xs: seq<int>)
    requires forall i :: 0 <= i < |xs| ==> IntValue(xs[i])
    ensures |xs| == 0 ==> AxisBounds(xs) == (IntMax, IntMin)
    ensures forall i :: 0 <= i < |xs| ==> AxisBounds(xs).0 <= xs[i]
    ensures |xs| > 0 ==> exists i :: 0 <= i < |xs| && xs[i] == AxisBounds(xs).0
  {
    if |xs| > 0 {
      var n := |xs| - 1;
      var pre := xs[..n];
      AxisBoundsLow(pre);
      var lo := AxisBounds(pre).0;
      assert AxisBounds(xs).0 == if xs[n] < lo then xs[n] else lo;
      assert forall i :: 0 <= i < n ==> pre[i] == xs[i];
      if n > 0 && xs[n] >= lo {
        var j :| 0 <= j < n && pre[j] == lo;
        assert xs[j] == AxisBounds(xs).0;
      }
    }
  }

  /** The high end of the one-axis fold is at least every value that did
      not lower the running minimum when it was met, and is one of those
      values or int.MinValue. */
  lemma {:induction false} AxisBoundsHigh(xs: seq<int>)
    ensures forall i :: 0 <= i < |xs| && xs[i] >= AxisBounds(xs[..i]).0 ==> xs[i] <= AxisBounds(xs).1
    ensures AxisBounds(xs).1 == IntMin ||
            exists i :: 0 <= i < |xs| && xs[i] == AxisBounds(xs).1 && xs[i] >= AxisBounds(xs[..i]).0
  {
    if |xs| > 0 {
      var n := |xs| - 1;
      var pre := xs[..n];
      AxisBoundsHigh(pre);
      var (lo, hi) := AxisBounds(pre);
      var x := xs[n];
      var hi' := AxisBounds(xs).1;
      assert xs[..n] == pre;
      assert hi' == if x < lo then hi else if x > hi then x else hi;
      forall i | 0 <= i < |xs| && xs[i] >= AxisBounds(xs[..i]).0
        ensures xs[i] <= hi'
      {
        if i < n {
          assert pre[i] == xs[i] && pre[..i] == xs[..i];
        }
      }
      if hi' != hi {
        assert x == hi' && x >= AxisBounds(xs[..n]).0;
      } else if hi != IntMin {
        var j :| 0 <= j < n && pre[j] == hi && pre[j] >= AxisBounds(pre[..j]).0;
        assert pre[j] == xs[j] && pre[..j] == xs[..j];
      }
    }
  }

  /** `GetBounds(Vec2I[])`: the rectangle of the two one-axis folds. */
  method GetBoundsI(coll: seq<Vec2I>) returns (rc: RectI)
    ensures rc == RectI(AxisBounds(Xs(coll)).0, AxisBounds(Ys(coll)).0, AxisBounds(Xs(coll)).1, AxisBounds(Ys(coll)).1)
  {
    var l, r, t, b := IntMax, IntMin, IntMax, IntMin;
    for i := 0 to |coll|
      invariant (l, r) == AxisBounds(Xs(coll)[..i])
      invariant (t, b) == AxisBounds(Ys(coll)[..i])
    {
      assert Xs(coll)[..i + 1][..i] == Xs(coll)[..i];
      assert Ys(coll)[..i + 1][..i] == Ys(coll)[..i];
      if coll[i].x < l {
        l := coll[i].x;
      } else if coll[i].x > r {
        r := coll[i].x;
      }
      if coll[i].y < t {
        t := coll[i].y;
      } else if coll[i].y > b {
        b := coll[i].y;
      }
    }
    assert Xs(coll)[..|coll|] == Xs(coll);
    assert Ys(coll)[..|coll|] == Ys(coll);
    rc := RectI(l, t, r, b);
  }

  /** Because of the `else`, the bounds of a single point leave the right
      and bottom edges at int.MinValue: the point is outside its own box. */
  lemma GetBoundsIMissesSinglePoint()
    ensures AxisBounds(Xs([Vec2I(5, 7)])) == (5, IntMin)
    ensures AxisBounds(Ys([Vec2I(5, 7)])) == (7, IntMin)
    ensures !RectI(5, 7, IntMin, IntMin).ContainsPoint(Vec2I(5, 7))
  {
    assert Xs([Vec2I(5, 7)]) == [5];
    assert Ys([Vec2I(5, 7)]) == [7];
    assert [5][..0] == [];
    assert [7][..0] == [];
  }

  // ---------------------------------------------------------------------
  // PointInPoly
  // ---------------------------------------------------------------------

  /** `rayIntersection`: -1 when the horizontal ray from `point` towards +x
      (the point itself included) crosses the edge (x1, y1)-(x2, y2), 1 otherwise. A horizontal edge on
      the point's line gives 1 exactly when the point lies on it. */
  function RayIntersection(point: Vec2, x1: real, y1: real, x2: real, y2: real): (r: int)
    ensures r == 1 || r == -1
    ensures point.y == y1 && y1 == y2 ==>
              (r == 1 <==> (point.x <= x2 && x1 <= point.x) || (point.x <= x1 && x2 <= point.x))
    ensures !(point.y == y1 && y1 == y2) && (point.y <= Min2(y1, y2) || point.y >= Max2(y1, y2)) ==> r == 1
  {
    if point.y == y1 && y1 == y2 then
      if (point.x <= x2 && x1 <= point.x) || (point.x <= x1 && x2 <= point.x) then 1 else -1
    else
      // order the end points by y
      var (lx, ly, hx, hy) := if y1 > y2 then (x2, y2, x1, y1) else (x1, y1, x2, y2);
      if point.y <= ly || point.y >= hy then 1
      else
        var delta := (lx - point.x) * (hy - point.y) - (ly - point.y) * (hx - point.x);
        if delta >= 0.0 then -1 else 1
  }

  function Min2(a: real, b: real): real { if a <= b then a else b }
  function Max2(a: real, b: real): real { if a >= b then a else b }

  /** The verdict for edge k of the polygon: edge 0 closes the polygon from
      the last vertex to the first, edge k > 0 joins vertex k-1 to vertex k. */
  function EdgeSign(point: Vec2, poly: seq<Vec2>, k: int): int
    requires 0 <= k < |poly|
  {
    if k == 0 then RayIntersection(point, poly[|poly| - 1].x, poly[|poly| - 1].y, poly[0].x, poly[0].y)
    else RayIntersection(point, poly[k - 1].x, poly[k - 1].y, poly[k].x, poly[k].y)
  }

  /** How many of the first n edges the ray crosses. */
  function Crossings(point: Vec2, poly: seq<Vec2>, n: int): (c: nat)
    requires 0 <= n <= |poly|
    ensures c <= n
  {
    if n == 0 then 0 else Crossings(point, poly, n - 1) + (if EdgeSign(point, poly, n - 1) == -1 then 1 else 0)
  }

  /** `PointInPoly`: the product of the edge verdicts, each 1 or -1, is
      positive. An empty polygon throws at `poly[poly.Length - 1]`. */
  method PointInPoly(point: Vec2, poly: seq<Vec2>) returns (r: Result<bool>)
    ensures |poly| == 0 ==> r == Err(IndexOutOfRange)
    ensures |poly| > 0 ==> r == Ok(Crossings(point, poly, |poly|) % 2 == 0)
  {
    if |poly| == 0 {
      return Err(IndexOutOfRange);
    }
    var n := |poly|;
    var res := RayIntersection(point, poly[n - 1].x, poly[n - 1].y, poly[0].x, poly[0].y);
    for i := 0 to n - 1
      invariant res == (if Crossings(point, poly, i + 1) % 2 == 0 then 1 else -1)
    {
      res := res * RayIntersection(point, poly[i].x, poly[i].y, poly[i + 1].x, poly[i + 1].y);
    }
    return Ok(res > 0);
  }

  // ---------------------------------------------------------------------
  // Line intersections
  // ---------------------------------------------------------------------

  /** The system matrix of `IntersectionLineLine`: the columns are the
      reversed first direction and the second direction. */
  function LineLineMatrix(from1: Vec2, to1: Vec2, from2: Vec2, to2: Vec2): (m: seq<real>)
    ensures |m| == 4
  {
    var dir1 := to1.Minus(from1);
    [-dir1.x, to2.x - from2.x, -dir1.y, to2.y - from2.y]
  }

  /** `IntersectionLineLine`: solves for the parameters of both lines with
      Matrix2.Inverse (which leaves the identity for parallel lines) and
      returns the point on the first line. */
  function IntersectionLineLine(from1: Vec2, to1: Vec2, from2: Vec2, to2: Vec2): (p: Vec2)
    ensures exists t :: p == from1.Plus(to1.Minus(from1).Times(t))
  {
    var dir1 := to1.Minus(from1);
    var res := Apply2(Inverse2(LineLineMatrix(from1, to1, from2, to2)), from1.Minus(from2));
    var p := Vec2(from1.x + dir1.x * res.x, from1.y + dir1.y * res.x);
    assert p == from1.Plus(dir1.Times(res.x));
    p
  }

  /** When the lines are not parallel, the returned point lies on both. */
  lemma IntersectionLineLineMeets(from1: Vec2, to1: Vec2, from2: Vec2, to2: Vec2)
    requires Det2(LineLineMatrix(from1, to1, from2, to2)) != 0.0
    ensures exists s :: IntersectionLineLine(from1, to1, from2, to2) == from2.Plus(to2.Minus(from2).Times(s))
  {
    var m := LineLineMatrix(from1, to1, from2, to2);
    var w := from1.Minus(from2);
    var res := Apply2(Inverse2(m), w);
    Inverse2Right(m, w);
    var dir1, dir2 := to1.Minus(from1), to2.Minus(from2);
    assert -dir1.x * res.x + dir2.x * res.y == w.x;
    assert -dir1.y * res.x + dir2.y * res.y == w.y;
    assert IntersectionLineLine(from1, to1, from2, to2) == from2.Plus(dir2.Times(res.y));
  }

  /** The point at parameter t of the line through `from` along `dir`,
      computed coordinate by coordinate as the C# code does. */
  function Along3(from: Vec3, dir: Vec3, t: real): (p: Vec3)
    ensures p == from.Plus(dir.Times(t))
  {
    var d := dir.Times(t);
    assert d.x == dir.x * t && d.y == dir.y * t && d.z == dir.z * t;
    Vec3(from.x + dir.x * t, from.y + dir.y * t, from.z + dir.z * t)
  }

  /** The system matrix of `IntersectionPlaneLine`: its columns are
      origin - p, origin - q and the line direction. */
  function PlaneLineMatrix(origin: Vec3, p: Vec3, q: Vec3, from: Vec3, to: Vec3): (m: seq<real>)
    ensures |m| == 9
  {
    var dir := to.Minus(from);
    [origin.x - p.x, origin.x - q.x, dir.x,
     origin.y - p.y, origin.y - q.y, dir.y,
     origin.z - p.z, origin.z - q.z, dir.z]
  }

  /** `IntersectionPlaneLine`: solves with Matrix3.Inverse for the plane
      coefficients and the line parameter, and returns the point of the line
      at that parameter. */
  function IntersectionPlaneLine(origin: Vec3, p: Vec3, q: Vec3, from: Vec3, to: Vec3): (r: Vec3)
    ensures exists t :: r == from.Plus(to.Minus(from).Times(t))
  {
    var res := Apply3(Inverse3(PlaneLineMatrix(origin, p, q, from, to)), origin.Minus(from));
    Along3(from, to.Minus(from), res.z)
  }

  /** A solution of the system of IntersectionPlaneLine gives a point of
      the line that is also a point of the plane. */
  lemma PlaneLineSolution(origin: Vec3, p: Vec3, q: Vec3, from: Vec3, to: Vec3, res: Vec3)
    requires Apply3(PlaneLineMatrix(origin, p, q, from, to), res) == origin.Minus(from)
    ensures from.Plus(to.Minus(from).Times(res.z)) ==
            origin.Plus(p.Minus(origin).Times(res.x)).Plus(q.Minus(origin).Times(res.y))
  {
    var m := PlaneLineMatrix(origin, p, q, from, to);
    var dir := to.Minus(from);
    assert Row3(m, 0) == Vec3(origin.x - p.x, origin.x - q.x, dir.x);
    assert Row3(m, 1) == Vec3(origin.y - p.y, origin.y - q.y, dir.y);
    assert Row3(m, 2) == Vec3(origin.z - p.z, origin.z - q.z, dir.z);
    var u, w := p.Minus(origin), q.Minus(origin);
    MulCongr(res.z, dir.x, to.x - from.x);
    MulCongr(res.z, dir.y, to.y - from.y);
    MulCongr(res.z, dir.z, to.z - from.z);
    MulCongr(res.x, u.x, p.x - origin.x);
    MulCongr(res.x, u.y, p.y - origin.y);
    MulCongr(res.x, u.z, p.z - origin.z);
    MulCongr(res.y, w.x, q.x - origin.x);
    MulCongr(res.y, w.y, q.y - origin.y);
    MulCongr(res.y, w.z, q.z - origin.z);
    assert Vec3(origin.x - p.x, origin.x - q.x, dir.x).Dot(res) == origin.x - from.x;
    assert Vec3(origin.y - p.y, origin.y - q.y, dir.y).Dot(res) == origin.y - from.y;
    assert Vec3(origin.z - p.z, origin.z - q.z, dir.z).Dot(res) == origin.z - from.z;
    assert from.x + (to.x - from.x) * res.z == origin.x + (p.x - origin.x) * res.x + (q.x - origin.x) * res.y;
  }

  /** When the system is not singular, the returned point lies on the plane
      through origin, p and q: it is origin plus a combination of p - origin
      and q - origin. (The source's comment calls p and q directions; the
      code treats them as points of the plane.) */
  lemma IntersectionPlaneLineOnPlane(origin: Vec3, p: Vec3, q: Vec3, from: Vec3, to: Vec3)
    requires Det3(PlaneLineMatrix(origin, p, q, from, to)) != 0.0
    ensures exists a, b :: IntersectionPlaneLine(origin, p, q, from, to) ==
              origin.Plus(p.Minus(origin).Times(a)).Plus(q.Minus(origin).Times(b))
  {
    var m := PlaneLineMatrix(origin, p, q, from, to);
    var res := Apply3(Inverse3(m), origin.Minus(from));
    Inverse3Solves(m, origin.Minus(from));
    PlaneLineSolution(origin, p, q, from, to, res);
    assert IntersectionPlaneLine(origin, p, q, from, to) ==
           origin.Plus(p.Minus(origin).Times(res.x)).Plus(q.Minus(origin).Times(res.y));
  }

  /** When the three points share a coordinate, so does the crossing. */
  lemma IntersectionInAxisPlane(origin: Vec3, p: Vec3, q: Vec3, from: Vec3, to: Vec3)
    requires Det3(PlaneLineMatrix(origin, p, q, from, to)) != 0.0
    ensures p.x == origin.x && q.x == origin.x ==> IntersectionPlaneLine(origin, p, q, from, to).x == origin.x
    ensures p.y == origin.y && q.y == origin.y ==> IntersectionPlaneLine(origin, p, q, from, to).y == origin.y
    ensures p.z == origin.z && q.z == origin.z ==> IntersectionPlaneLine(origin, p, q, from, to).z == origin.z
  {
    IntersectionPlaneLineOnPlane(origin, p, q, from, to);
    var u, w :| IntersectionPlaneLine(origin, p, q, from, to) ==
              origin.Plus(p.Minus(origin).Times(u)).Plus(q.Minus(origin).Times(w));
  }
}
