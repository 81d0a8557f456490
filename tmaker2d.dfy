// `TMaker2D` (TMaker2D.cs): accumulates a 2D transformation in a Matrix3
// field in homogeneous coordinates, and maps objects to the window through a
// viewport rectangle, clipping them against it.
module TMakers2D {
  import opened Numerics
  import opened Vectors
  import opened Matrices
  import opened Geometry

  function Rotation2(c: real, s: real): (m: seq<real>)
    ensures |m| == 9
  {
    [c, -s, 0.0,
     s, c, 0.0,
     0.0, 0.0, 1.0]
  }

  function Translation2(x: real, y: real): (m: seq<real>)
    ensures |m| == 9
  {
    [1.0, 0.0, x,
     0.0, 1.0, y,
     0.0, 0.0, 1.0]
  }

  function Scaling2(x: real, y: real): (m: seq<real>)
    ensures |m| == 9
  {
    [x, 0.0, 0.0,
     0.0, y, 0.0,
     0.0, 0.0, 1.0]
  }

  /** A translation moves a point with homogeneous coordinate 1 by the
      offsets, and a scaling multiplies its coordinates. */
  lemma Elementary2(dx: real, dy: real, x: real, y: real)
    ensures Apply3(Translation2(dx, dy), Vec3(x, y, 1.0)) == Vec3(x + dx, y + dy, 1.0)
    ensures Apply3(Scaling2(dx, dy), Vec3(x, y, 1.0)) == Vec3(dx * x, dy * y, 1.0)
  {
    assert Row3(Translation2(dx, dy), 0) == Vec3(1.0, 0.0, dx);
    assert Row3(Translation2(dx, dy), 1) == Vec3(0.0, 1.0, dy);
    assert Row3(Translation2(dx, dy), 2) == Vec3(0.0, 0.0, 1.0);
    assert Row3(Scaling2(dx, dy), 0) == Vec3(dx, 0.0, 0.0);
    assert Row3(Scaling2(dx, dy), 1) == Vec3(0.0, dy, 0.0);
    assert Row3(Scaling2(dx, dy), 2) == Vec3(0.0, 0.0, 1.0);
  }

  // ---------------------------------------------------------------------
  // Clipping against the viewport
  // ---------------------------------------------------------------------

  /** The four passes of `clip`, in their order. */
  datatype Edge = LeftEdge | TopEdge | RightEdge | BottomEdge

  /** How far p lies on the inner side of the edge: a point is kept when
      this is at least 0. */
  function Dist(edge: Edge, vp: Rect, p: Vec2): real
  {
    match edge
    case LeftEdge => p.x - vp.l
    case TopEdge => p.y - vp.t
    case RightEdge => vp.r - p.x
    case BottomEdge => vp.b - p.y
  }

  /** The crossing of the segment last-e with the edge's line, as `clip`
      asks `IntersectionLineLine` for it. */
  function Cut(edge: Edge, vp: Rect, last: Vec2, e: Vec2): Vec2
  {
    match edge
    case LeftEdge => IntersectionLineLine(Vec2(vp.l, vp.t), Vec2(vp.l, vp.b), last, e)
    case TopEdge => IntersectionLineLine(Vec2(vp.l, vp.t), Vec2(vp.r, vp.t), last, e)
    case RightEdge => IntersectionLineLine(Vec2(vp.r, vp.t), Vec2(vp.r, vp.b), last, e)
    case BottomEdge => IntersectionLineLine(Vec2(vp.l, vp.b), Vec2(vp.r, vp.b), last, e)
  }

  /** What one step of a pass appends for the vertex e reached from `last`:
      an inside vertex is kept, preceded by the crossing when `last` was
      strictly outside; an outside vertex gives only the crossing, and only
      when `last` was strictly inside. */
  function Emit(edge: Edge, vp: Rect, last: Vec2, e: Vec2): (out: seq<Vec2>)
    ensures |out| <= 2
  {
    if Dist(edge, vp, e) >= 0.0 then
      (if Dist(edge, vp, last) < 0.0 then [Cut(edge, vp, last, e)] else []) + [e]
    else if Dist(edge, vp, last) > 0.0 then [Cut(edge, vp, last, e)]
    else []
  }

  /** The vertex before vertex i: `last0` for the first one. */
  function Prev(pts: seq<Vec2>, last0: Vec2, i: int): Vec2
    requires 0 <= i < |pts|
  {
    if i == 0 then last0 else pts[i - 1]
  }

  /** The output of a pass after its first n steps. */
  function PassPrefix(edge: Edge, vp: Rect, pts: seq<Vec2>, last0: Vec2, n: int): seq<Vec2>
    requires 0 <= n <= |pts|
  {
    if n == 0 then []
    else PassPrefix(edge, vp, pts, last0, n - 1) + Emit(edge, vp, Prev(pts, last0, n - 1), pts[n - 1])
  }

  /** One whole pass: it starts from the last vertex, so the polygon is
      closed. */
  function Pass(edge: Edge, vp: Rect, pts: seq<Vec2>): seq<Vec2>
    requires |pts| > 0
  {
    PassPrefix(edge, vp, pts, pts[|pts| - 1], |pts|)
  }

  /** `clip`: left, top, right and bottom passes; an empty intermediate
      list ends the clipping with no vertices. */
  function ClipSpec(vp: Rect, pts: seq<Vec2>): seq<Vec2>
    requires |pts| > 0
  {
    var p1 := Pass(LeftEdge, vp, pts);
    if |p1| == 0 then []
    else
      var p2 := Pass(TopEdge, vp, p1);
      if |p2| == 0 then []
      else
        var p3 := Pass(RightEdge, vp, p2);
        if |p3| == 0 then [] else Pass(BottomEdge, vp, p3)
  }

  /** A pass over vertices that are all on the inner side keeps them, in
      order. */
  lemma {:induction false} PassPrefixInside(edge: Edge, vp: Rect, pts: seq<Vec2>, last0: Vec2, n: int)
    requires 0 <= n <= |pts|
    requires Dist(edge, vp, last0) >= 0.0
    requires forall i :: 0 <= i < |pts| ==> Dist(edge, vp, pts[i]) >= 0.0
    ensures PassPrefix(edge, vp, pts, last0, n) == pts[..n]
  {
    if n > 0 {
      PassPrefixInside(edge, vp, pts, last0, n - 1);
      assert pts[..n] == pts[..n - 1] + [pts[n - 1]];
    }
  }

  /** A pass over vertices that are all strictly outside emits nothing. */
  lemma {:induction false} PassPrefixOutside(edge: Edge, vp: Rect, pts: seq<Vec2>, last0: Vec2, n: int)
    requires 0 <= n <= |pts|
    requires Dist(edge, vp, last0) < 0.0
    requires forall i :: 0 <= i < |pts| ==> Dist(edge, vp, pts[i]) < 0.0
    ensures PassPrefix(edge, vp, pts, last0, n) == []
  {
    if n > 0 {
      PassPrefixOutside(edge, vp, pts, last0, n - 1);
    }
  }

  /** A pass emits at most two vertices per input vertex. */
  lemma {:induction false} PassPrefixBound(edge: Edge, vp: Rect, pts: seq<Vec2>, last0: Vec2, n: int)
    requires 0 <= n <= |pts|
    ensures |PassPrefix(edge, vp, pts, last0, n)| <= 2 * n
  {
    if n > 0 {
      PassPrefixBound(edge, vp, pts, last0, n - 1);
    }
  }

  /** The viewport contains the point (edges included). */
  predicate InViewport(vp: Rect, p: Vec2)
  {
    vp.l <= p.x <= vp.r && vp.t <= p.y <= vp.b
  }

  /** Points all inside the viewport come through `clip` unchanged and in
      order. */
  lemma ClipInside(vp: Rect, pts: seq<Vec2>)
    requires |pts| > 0
    requires forall i :: 0 <= i < |pts| ==> InViewport(vp, pts[i])
    ensures ClipSpec(vp, pts) == pts
  {
    PassInside(LeftEdge, vp, pts);
    PassInside(TopEdge, vp, pts);
    PassInside(RightEdge, vp, pts);
    PassInside(BottomEdge, vp, pts);
  }

  lemma PassInside(edge: Edge, vp: Rect, pts: seq<Vec2>)
    requires |pts| > 0
    requires forall i :: 0 <= i < |pts| ==> InViewport(vp, pts[i])
    ensures Pass(edge, vp, pts) == pts
  {
    forall i | 0 <= i < |pts| ensures Dist(edge, vp, pts[i]) >= 0.0 {
      assert InViewport(vp, pts[i]);
    }
    PassPrefixInside(edge, vp, pts, pts[|pts| - 1], |pts|);
    assert pts[..|pts|] == pts;
  }

  /** Points all to the left of the viewport are clipped away entirely. */
  lemma ClipLeftOfViewport(vp: Rect, pts: seq<Vec2>)
    requires |pts| > 0
    requires forall i :: 0 <= i < |pts| ==> pts[i].x < vp.l
    ensures ClipSpec(vp, pts) == []
  {
    PassPrefixOutside(LeftEdge, vp, pts, pts[|pts| - 1], |pts|);
  }

  /** Each pass at most doubles the vertex count, so `clip` returns at most
      sixteen times as many vertices as it is given. */
  lemma ClipBound(vp: Rect, pts: seq<Vec2>)
    requires |pts| > 0
    ensures |ClipSpec(vp, pts)| <= 16 * |pts|
  {
    var p1 := Pass(LeftEdge, vp, pts);
    PassPrefixBound(LeftEdge, vp, pts, pts[|pts| - 1], |pts|);
    if |p1| > 0 {
      var p2 := Pass(TopEdge, vp, p1);
      PassPrefixBound(TopEdge, vp, p1, p1[|p1| - 1], |p1|);
      if |p2| > 0 {
        var p3 := Pass(RightEdge, vp, p2);
        PassPrefixBound(RightEdge, vp, p2, p2[|p2| - 1], |p2|);
        if |p3| > 0 {
          PassPrefixBound(BottomEdge, vp, p3, p3[|p3| - 1], |p3|);
        }
      }
    }
  }

  /** One pass of `clip` over a list, building the next list step by step. */
  method ClipPass(edge: Edge, vp: Rect, pts: seq<Vec2>) returns (out: seq<Vec2>)
    requires |pts| > 0
    ensures out == Pass(edge, vp, pts)
  {
    out := [];
    var last := pts[|pts| - 1];
    for i := 0 to |pts|
      invariant out == PassPrefix(edge, vp, pts, pts[|pts| - 1], i)
      invariant last == if i == 0 then pts[|pts| - 1] else pts[i - 1]
    {
      var e := pts[i];
      ghost var before := out;
      assert Prev(pts, pts[|pts| - 1], i) == last;
      if Dist(edge, vp, e) >= 0.0 {
        if Dist(edge, vp, last) < 0.0 {
          out := out + [Cut(edge, vp, last, e)];
        }
        out := out + [e];
      } else if Dist(edge, vp, last) > 0.0 {
        out := out + [Cut(edge, vp, last, e)];
      }
      assert out == before + Emit(edge, vp, last, e);
      last := e;
    }
  }

  /** The points of an object mapped by a matrix and divided by their
      homogeneous coordinate. */
  function Project(m: seq<real>, pts: seq<Vec3>): (r: seq<Vec2>)
    requires |m| == 9
    ensures |r| == |pts| && forall i :: 0 <= i < |pts| ==> r[i] == FromHomo2(Apply3(m, pts[i]))
  {
    seq(|pts|, i requires 0 <= i < |pts| => FromHomo2(Apply3(m, pts[i])))
  }

  class TMaker2D {
    var mat: Matrix3
    var vp: Rect

    ghost predicate Valid()
      reads this, mat
    {
      mat.Valid()
    }

    /** `TMaker2D()`: the identity, and the default (all-zero) viewport. */
    constructor ()
      ensures Valid() && fresh(mat) && fresh(mat.v)
      ensures mat.v[..] == Identity3() && vp == Rect(0.0, 0.0, 0.0, 0.0)
    {
      var m := Matrix3.GetIdentity();
      mat := m;
      vp := Rect(0.0, 0.0, 0.0, 0.0);
    }

    /** `TMaker2D(Matrix3 init)`: holds `init` itself. */
    constructor WithMatrix(init: Matrix3)
      ensures mat == init && vp == Rect(0.0, 0.0, 0.0, 0.0)
    {
      mat := init;
      vp := Rect(0.0, 0.0, 0.0, 0.0);
    }

    /** A new TMaker2D over a copy of the matrix in fresh storage; the new
        one has the default viewport. */
    method Clone() returns (t: TMaker2D)
      requires Valid()
      ensures fresh(t) && fresh(t.mat) && fresh(t.mat.v) && t.Valid()
      ensures t.mat.v[..] == mat.v[..] && t.vp == Rect(0.0, 0.0, 0.0, 0.0)
    {
      var nMat := mat.Clone();
      t := new TMaker2D.WithMatrix(nMat);
    }

    method LoadIdentity()
      modifies this
      ensures Valid() && fresh(mat) && fresh(mat.v) && vp == old(vp)
      ensures mat.v[..] == Identity3()
    {
      mat := Matrix3.GetIdentity();
    }

    /** Holds the caller's matrix itself. */
    method Load(m: Matrix3)
      modifies this
      ensures mat == m && vp == old(vp)
    {
      mat := m;
    }

    method GetMatrix() returns (m: Matrix3)
      ensures m == mat
    {
      m := mat;
    }

    /** A new TMaker2D over the inverse of a copy; this one is unchanged. A
        singular matrix gives the identity. */
    method GetInverse() returns (t: TMaker2D)
      requires Valid()
      ensures fresh(t) && fresh(t.mat) && t.Valid() && t.vp == Rect(0.0, 0.0, 0.0, 0.0)
      ensures t.mat.v[..] == Inverse3(mat.v[..])
      ensures Det3(mat.v[..]) == 0.0 ==> t.mat.v[..] == Identity3()
    {
      var i := mat.Clone();
      var _ := i.Inverse();
      t := new TMaker2D.WithMatrix(i);
    }

    method Rotate(c: real, s: real)
      requires Valid()
      modifies this
      ensures Valid() && fresh(mat) && vp == old(vp)
      ensures mat.v[..] == Mul3(Rotation2(c, s), old(mat.v[..]))
    {
      var rot := new Matrix3(c, -s, 0.0, s, c, 0.0, 0.0, 0.0, 1.0);
      mat := Matrix3.Mul(rot, mat);
    }

    method Translate(x: real, y: real)
      requires Valid()
      modifies this
      ensures Valid() && fresh(mat) && vp == old(vp)
      ensures mat.v[..] == Mul3(Translation2(x, y), old(mat.v[..]))
    {
      var trans := new Matrix3(1.0, 0.0, x, 0.0, 1.0, y, 0.0, 0.0, 1.0);
      mat := Matrix3.Mul(trans, mat);
    }

    /** `Scale(u)` is `Scale(u, u)`. */
    method ScaleUniform(u: real)
      requires Valid()
      modifies this
      ensures Valid() && fresh(mat) && vp == old(vp)
      ensures mat.v[..] == Mul3(Scaling2(u, u), old(mat.v[..]))
    {
      Scale(u, u);
    }

    method Scale(x: real, y: real)
      requires Valid()
      modifies this
      ensures Valid() && fresh(mat) && vp == old(vp)
      ensures mat.v[..] == Mul3(Scaling2(x, y), old(mat.v[..]))
    {
      var s := new Matrix3(x, 0.0, 0.0, 0.0, y, 0.0, 0.0, 0.0, 1.0);
      mat := Matrix3.Mul(s, mat);
    }

    method ApplyCustomTransform(t: Matrix3)
      requires Valid() && t.Valid()
      modifies this
      ensures Valid() && fresh(mat) && vp == old(vp)
      ensures mat.v[..] == Mul3(old(t.v[..]), old(mat.v[..]))
    {
      mat := Matrix3.Mul(t, mat);
    }

    /** The overload taking another TMaker2D. */
    method ApplyCustomTransformOf(t: TMaker2D)
      requires Valid() && t.Valid()
      modifies this
      ensures Valid() && fresh(mat) && vp == old(vp)
      ensures mat.v[..] == Mul3(old(t.mat.v[..]), old(mat.v[..]))
    {
      var tm := t.GetMatrix();
      mat := Matrix3.Mul(tm, mat);
    }

    /** Both `SetViewport` overloads: the edges, or a rectangle. */
    method SetViewport(l: real, t: real, r: real, b: real)
      modifies this
      ensures vp == Rect(l, t, r, b) && mat == old(mat)
    {
      vp := Rect(l, t, r, b);
    }

    method Transform(p: Vec3) returns (r: Vec3)
      requires Valid()
      ensures r == Apply3(mat.v[..], p)
    {
      r := Apply3(mat.v[..], p);
    }

    /** `TransformToWin(obj, doClip)` on the object's vertices: each is
        mapped and divided by its homogeneous coordinate, in order; with
        `doClip` the list is then clipped, which fails on an empty list. */
    method TransformToWin(points: seq<Vec3>, doClip: bool) returns (r: Result<seq<Vec2>>)
      requires Valid()
      ensures !doClip ==> r == Ok(Project(mat.v[..], points))
      ensures doClip && |points| == 0 ==> r == Err(ArgumentOutOfRange)
      ensures doClip && |points| > 0 ==> r == Ok(ClipSpec(vp, Project(mat.v[..], points)))
    {
      var tmp: seq<Vec2> := [];
      for i := 0 to |points|
        invariant tmp == Project(mat.v[..], points[..i])
      {
        tmp := tmp + [FromHomo2(Apply3(mat.v[..], points[i]))];
      }
      assert points[..|points|] == points;
      if !doClip {
        return Ok(tmp);
      }
      r := Clip(tmp);
    }

    /** `TransformToWin(obj, vp)`: stores `vp` as the viewport, then maps
        and clips. */
    method TransformToWinIn(points: seq<Vec3>, viewport: Rect) returns (r: Result<seq<Vec2>>)
      requires Valid()
      modifies this
      ensures vp == viewport && mat == old(mat)
      ensures |points| == 0 ==> r == Err(ArgumentOutOfRange)
      ensures |points| > 0 ==> r == Ok(ClipSpec(viewport, Project(mat.v[..], points)))
    {
      SetViewport(viewport.l, viewport.t, viewport.r, viewport.b);
      r := TransformToWin(points, true);
    }

    /** `clip`: the four passes against the viewport. The first pass starts
        by reading the last vertex, which throws on an empty list. */
    method Clip(unclipped: seq<Vec2>) returns (r: Result<seq<Vec2>>)
      ensures |unclipped| == 0 ==> r == Err(ArgumentOutOfRange)
      ensures |unclipped| > 0 ==> r == Ok(ClipSpec(vp, unclipped))
    {
      if |unclipped| == 0 {
        return Err(ArgumentOutOfRange);
      }
      var odd := ClipPass(LeftEdge, vp, unclipped);
      if |odd| == 0 {
        return Ok([]);
      }
      var even := ClipPass(TopEdge, vp, odd);
      if |even| == 0 {
        return Ok([]);
      }
      odd := ClipPass(RightEdge, vp, even);
      if |odd| == 0 {
        return Ok([]);
      }
      even := ClipPass(BottomEdge, vp, odd);
      return Ok(even);
    }
  }
}
