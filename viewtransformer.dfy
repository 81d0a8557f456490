// `ViewTransformer` (ViewTransformer.cs): projects homogeneous vertices with
// a Matrix4, divides by w, clips the result against the normalised device
// cube [-1, 1]^3 and maps it to the window (viewport and depth range).
module ViewTransformers {
  import opened Numerics
  import opened Vectors
  import opened Matrices
  import opened Geometry

  datatype ProjectionType = Orthogonal | Perspective

  // ---------------------------------------------------------------------
  // Projection matrices
  // ---------------------------------------------------------------------

  /** The orthographic matrix `Calculate` builds from the viewport edges and
      the depth range (n, f). */
  function Orthographic(vp: Rect, depth: Vec2): (m: seq<real>)
    ensures |m| == 16
  {
    var l, r, b, t, n, f := vp.l, vp.r, vp.b, vp.t, depth.x, depth.y;
    [Div(2.0, r - l), 0.0, 0.0, Div(-l - r, r - l),
     0.0, Div(2.0, b - t), 0.0, Div(-t - b, b - t),
     0.0, 0.0, Div(-2.0, f - n), Div(-n - f, f - n),
     0.0, 0.0, 0.0, 1.0]
  }

  /** The perspective matrix `Calculate` builds. */
  function PerspectiveMatrix(vp: Rect, depth: Vec2): (m: seq<real>)
    ensures |m| == 16
  {
    var l, r, b, t, n, f := vp.l, vp.r, vp.b, vp.t, depth.x, depth.y;
    [Div(2.0 * n, r - l), 0.0, Div(r + l, r - l), 0.0,
     0.0, Div(2.0 * n, b - t), Div(t + b, b - t), 0.0,
     0.0, 0.0, Div(f + n, n - f), Div(2.0 * f * n, n - f),
     0.0, 0.0, -1.0, 0.0]
  }

  /** The shape of the perspective matrix, from its six non-constant
      entries. */
  function PerspectiveOf(a0: real, a2: real, a5: real, a6: real, a10: real, a11: real): (m: seq<real>)
    ensures |m| == 16
  {
    [a0, 0.0, a2, 0.0,
     0.0, a5, a6, 0.0,
     0.0, 0.0, a10, a11,
     0.0, 0.0, -1.0, 0.0]
  }

  /** The affine map a*u + c sends lo to -1 and hi to 1 when a = 2/(hi-lo)
      and c = (-lo-hi)/(hi-lo). */
  lemma AffineEnds(lo: real, hi: real, a: real, c: real)
    requires hi != lo && a == 2.0 / (hi - lo) && c == (-lo - hi) / (hi - lo)
    ensures a * lo + c == -1.0 && a * hi + c == 1.0
  {
    assert a * lo + c == (2.0 * lo - lo - hi) / (hi - lo);
    assert a * hi + c == (2.0 * hi - lo - hi) / (hi - lo);
  }

  /** The orthographic matrix maps the viewport corner (l, t) at depth -n
      to (-1, -1, -1) and the corner (r, b) at depth -f to (1, 1, 1). */
  lemma OrthographicCorners(vp: Rect, depth: Vec2)
    requires vp.r != vp.l && vp.b != vp.t && depth.y != depth.x
    ensures Apply4(Orthographic(vp, depth), Vec4(vp.l, vp.t, -depth.x, 1.0)) == Vec4(-1.0, -1.0, -1.0, 1.0)
    ensures Apply4(Orthographic(vp, depth), Vec4(vp.r, vp.b, -depth.y, 1.0)) == Vec4(1.0, 1.0, 1.0, 1.0)
  {
    var m := Orthographic(vp, depth);
    var n, f := depth.x, depth.y;
    AffineEnds(vp.l, vp.r, m[0], m[3]);
    AffineEnds(vp.t, vp.b, m[5], m[7]);
    AffineEnds(-n, -f, m[10], m[11]);
    assert m[10] == 2.0 / (-f - -n) by { assert -2.0 / (f - n) == 2.0 / (-f - -n); }
    assert m[11] == (- -n - -f) / (-f - -n) by { assert (-n - f) / (f - n) == (- -n - -f) / (-f - -n); }
    assert Row4(m, 0) == Vec4(m[0], 0.0, 0.0, m[3]);
    assert Row4(m, 1) == Vec4(0.0, m[5], 0.0, m[7]);
    assert Row4(m, 2) == Vec4(0.0, 0.0, m[10], m[11]);
    assert Row4(m, 3) == Vec4(0.0, 0.0, 0.0, 1.0);
  }

  /** The entries of the perspective matrix, free of division. */
  lemma PerspectiveEntries(vp: Rect, depth: Vec2)
    requires vp.r != vp.l && vp.b != vp.t && depth.y != depth.x
    ensures var m, l, r, b, t, n, f := PerspectiveMatrix(vp, depth), vp.l, vp.r, vp.b, vp.t, depth.x, depth.y;
            m[0] * (r - l) == 2.0 * n && m[2] * (r - l) == r + l &&
            m[5] * (b - t) == 2.0 * n && m[6] * (b - t) == t + b &&
            m[10] * (n - f) == f + n && m[11] * (n - f) == 2.0 * f * n &&
            m == PerspectiveOf(m[0], m[2], m[5], m[6], m[10], m[11])
  {
  }

  /** The perspective matrix sends the near corners (l, t, -n) and
      (r, b, -n) to (-1, -1, -1) and (1, 1, -1) after the division by w, and
      every point of the far plane z = -f to depth 1. */
  lemma PerspectivePlanes(vp: Rect, depth: Vec2, x: real, y: real)
    requires vp.r != vp.l && vp.b != vp.t && depth.y != depth.x && depth.x != 0.0 && depth.y != 0.0
    ensures FromHomo3(Apply4(PerspectiveMatrix(vp, depth), Vec4(vp.l, vp.t, -depth.x, 1.0))) == Vec3(-1.0, -1.0, -1.0)
    ensures FromHomo3(Apply4(PerspectiveMatrix(vp, depth), Vec4(vp.r, vp.b, -depth.x, 1.0))) == Vec3(1.0, 1.0, -1.0)
    ensures FromHomo3(Apply4(PerspectiveMatrix(vp, depth), Vec4(x, y, -depth.y, 1.0))).z == 1.0
  {
    var m := PerspectiveMatrix(vp, depth);
    PerspectiveEntries(vp, depth);
    PerspectiveOfPlanes(m[0], m[2], m[5], m[6], m[10], m[11], vp.l, vp.r, vp.b, vp.t, depth.x, depth.y, x, y);
  }

  lemma PerspectiveOfPlanes(a0: real, a2: real, a5: real, a6: real, a10: real, a11: real,
                            l: real, r: real, b: real, t: real, n: real, f: real, x: real, y: real)
    requires r != l && b != t && f != n && n != 0.0 && f != 0.0
    requires a0 * (r - l) == 2.0 * n && a2 * (r - l) == r + l && a5 * (b - t) == 2.0 * n && a6 * (b - t) == t + b
    requires a10 * (n - f) == f + n && a11 * (n - f) == 2.0 * f * n
    ensures FromHomo3(Apply4(PerspectiveOf(a0, a2, a5, a6, a10, a11), Vec4(l, t, -n, 1.0))) == Vec3(-1.0, -1.0, -1.0)
    ensures FromHomo3(Apply4(PerspectiveOf(a0, a2, a5, a6, a10, a11), Vec4(r, b, -n, 1.0))) == Vec3(1.0, 1.0, -1.0)
    ensures FromHomo3(Apply4(PerspectiveOf(a0, a2, a5, a6, a10, a11), Vec4(x, y, -f, 1.0))).z == 1.0
  {
    NearPlaneAxis(l, r, n, a0, a2);
    NearPlaneAxis(t, b, n, a5, a6);
    DepthAxis(n, f, a10, a11);
    NearCornerIs(a0, a2, a5, a6, a10, a11, l, t, n, -1.0, -1.0, -1.0);
    NearCornerIs(a0, a2, a5, a6, a10, a11, r, b, n, 1.0, 1.0, -1.0);
    FarPlaneIs(a0, a2, a5, a6, a10, a11, x, y, f, 1.0);
  }

  /** A far-plane point through a matrix with the perspective's last two
      rows: its depth after the division by w = f. */
  lemma FarPlaneIs(a0: real, a2: real, a5: real, a6: real, a10: real, a11: real,
                    x: real, y: real, f: real, w: real)
    requires Div(a10 * -f + a11, f) == w
    ensures FromHomo3(Apply4(PerspectiveOf(a0, a2, a5, a6, a10, a11), Vec4(x, y, -f, 1.0))).z == w
  {
    var m := PerspectiveOf(a0, a2, a5, a6, a10, a11);
    var h := Apply4(m, Vec4(x, y, -f, 1.0));
    assert h.z == m[10] * -f + m[11];
    assert h.w == f;
  }

  /** A near-plane point through a matrix with the perspective's zero
      pattern, divided by w = n. */
  lemma NearCornerIs(a0: real, a2: real, a5: real, a6: real, a10: real, a11: real,
                      x: real, y: real, n: real, u: real, v: real, w: real)
    requires Div(a0 * x + a2 * -n, n) == u && Div(a5 * y + a6 * -n, n) == v && Div(a10 * -n + a11, n) == w
    ensures FromHomo3(Apply4(PerspectiveOf(a0, a2, a5, a6, a10, a11), Vec4(x, y, -n, 1.0))) == Vec3(u, v, w)
  {
    var m := PerspectiveOf(a0, a2, a5, a6, a10, a11);
    var h := Apply4(m, Vec4(x, y, -n, 1.0));
    assert h.x == m[0] * x + m[2] * -n;
    assert h.y == m[5] * y + m[6] * -n;
    assert h.z == m[10] * -n + m[11];
    assert h.w == n;
  }

  /** One screen axis of the perspective matrix on the near plane: lo and hi
      map to -n and n, that is to -1 and 1 after dividing by w = n. */
  lemma NearPlaneAxis(lo: real, hi: real, n: real, a: real, c: real)
    requires hi != lo && n != 0.0 && a * (hi - lo) == 2.0 * n && c * (hi - lo) == hi + lo
    ensures Div(a * lo + c * -n, n) == -1.0 && Div(a * hi + c * -n, n) == 1.0
  {
    var d := hi - lo;
    assert a * d == 2.0 * n;
    assert c * d == hi + lo;
    assert (a * lo + c * -n) * d == -n * d by {
      assert (a * lo + c * -n) * d == (a * d) * lo - (c * d) * n;
    }
    assert (a * hi + c * -n) * d == n * d by {
      assert (a * hi + c * -n) * d == (a * d) * hi - (c * d) * n;
    }
    CancelFactor(a * lo + c * -n, -n, d);
    CancelFactor(a * hi + c * -n, n, d);
    CancelFactor(Div(a * lo + c * -n, n), -1.0, n);
    CancelFactor(Div(a * hi + c * -n, n), 1.0, n);
  }

  /** The depth row of the perspective matrix: z = -n maps to -1 and z = -f
      to 1 after dividing by w = -z. */
  lemma DepthAxis(n: real, f: real, a: real, c: real)
    requires n != f && n != 0.0 && f != 0.0 && a * (n - f) == f + n && c * (n - f) == 2.0 * f * n
    ensures Div(a * -n + c, n) == -1.0 && Div(a * -f + c, f) == 1.0
  {
    var d := n - f;
    assert a * d == f + n;
    assert c * d == 2.0 * f * n;
    assert (a * -n + c) * d == -n * d by {
      assert (a * -n + c) * d == -(a * d) * n + c * d;
    }
    assert (a * -f + c) * d == f * d by {
      assert (a * -f + c) * d == -(a * d) * f + c * d;
    }
    CancelFactor(a * -n + c, -n, d);
    CancelFactor(a * -f + c, f, d);
    CancelFactor(Div(a * -n + c, n), -1.0, n);
    CancelFactor(Div(a * -f + c, f), 1.0, f);
  }

  lemma CancelFactor(u: real, v: real, d: real)
    requires d != 0.0 && u * d == v * d
    ensures u == v
  {
    assert (u - v) * d == 0.0;
  }

  // ---------------------------------------------------------------------
  // Window mapping
  // ---------------------------------------------------------------------

  /** `toWindow`: x and y from [-1, 1] onto the viewport, z onto the depth
      range. */
  function ToWindow(vp: Rect, depth: Vec2, ndc: Vec3): Vec3
  {
    Vec3((ndc.x + 1.0) * 0.5 * vp.Width() + vp.l,
         (ndc.y + 1.0) * 0.5 * vp.Height() + vp.t,
         (ndc.z + 1.0) * 0.5 * (depth.y - depth.x) + depth.x)
  }

  /** The corners of the cube land on the viewport corners and the ends of
      the depth range. */
  lemma ToWindowCorners(vp: Rect, depth: Vec2)
    ensures ToWindow(vp, depth, Vec3(-1.0, -1.0, -1.0)) == Vec3(vp.l, vp.t, depth.x)
    ensures ToWindow(vp, depth, Vec3(1.0, 1.0, 1.0)) == Vec3(vp.r, vp.b, depth.y)
  {
  }

  function MapToWindow(vp: Rect, depth: Vec2, pts: seq<Vec3>): (r: seq<Vec3>)
    ensures |r| == |pts| && forall i :: 0 <= i < |pts| ==> r[i] == ToWindow(vp, depth, pts[i])
  {
    seq(|pts|, i requires 0 <= i < |pts| => ToWindow(vp, depth, pts[i]))
  }

  // ---------------------------------------------------------------------
  // Clipping against the cube
  // ---------------------------------------------------------------------

  /** The six passes of `clip`, in their order. */
  datatype Plane = LeftPlane | TopPlane | RightPlane | BottomPlane | FrontPlane | BackPlane

  /** How far p lies on the inner side of the plane. */
  function Dist(plane: Plane, p: Vec3): real
  {
    match plane
    case LeftPlane => p.x + 1.0
    case TopPlane => p.y + 1.0
    case RightPlane => 1.0 - p.x
    case BottomPlane => 1.0 - p.y
    case FrontPlane => p.z + 1.0
    case BackPlane => 1.0 - p.z
  }

  /** The three points of each plane that `clip` hands to
      `IntersectionPlaneLine`. */
  function PlanePoints(plane: Plane): (Vec3, Vec3, Vec3)
  {
    match plane
    case LeftPlane => (Vec3(-1.0, -1.0, 0.0), Vec3(-1.0, 1.0, 0.0), Vec3(-1.0, 0.0, 1.0))
    case TopPlane => (Vec3(-1.0, -1.0, 0.0), Vec3(1.0, -1.0, 0.0), Vec3(0.0, -1.0, 1.0))
    case RightPlane => (Vec3(1.0, -1.0, 0.0), Vec3(1.0, 1.0, 0.0), Vec3(1.0, 0.0, 1.0))
    case BottomPlane => (Vec3(-1.0, 1.0, 0.0), Vec3(1.0, 1.0, 0.0), Vec3(0.0, 1.0, 1.0))
    case FrontPlane => (Vec3(0.0, 0.0, -1.0), Vec3(1.0, 0.0, -1.0), Vec3(0.0, 1.0, -1.0))
    case BackPlane => (Vec3(0.0, 0.0, 1.0), Vec3(1.0, 0.0, 1.0), Vec3(0.0, 1.0, 1.0))
  }

  /** The point where the line from `from` to `to` meets the plane, as
      `clip` and `clip2` compute it. The passes below take the crossing
      computation as a parameter `cut`, so that what they state holds
      whatever the crossing is; the class hands them `Cut`. */
  function Cut(plane: Plane, from: Vec3, to: Vec3): Vec3
  {
    var (o, p, q) := PlanePoints(plane);
    IntersectionPlaneLine(o, p, q, from, to)
  }

  // ---- segments and crossings ------------------------------------------

  /** The point at parameter t of the segment from a to b. */
  function Lerp(a: Vec3, b: Vec3, t: real): Vec3
  {
    Vec3(a.x + (b.x - a.x) * t, a.y + (b.y - a.y) * t, a.z + (b.z - a.z) * t)
  }

  /** r lies on the segment from a to b, ends included. */
  ghost predicate OnSegment(a: Vec3, b: Vec3, r: Vec3)
  {
    exists t :: 0.0 <= t <= 1.0 && r == Lerp(a, b, t)
  }

  lemma LerpAlong(a: Vec3, b: Vec3, t: real)
    ensures a.Plus(b.Minus(a).Times(t)) == Lerp(a, b, t)
  {
    var d := b.Minus(a);
    assert d == Vec3(b.x - a.x, b.y - a.y, b.z - a.z);
    assert d.Times(t) == Vec3((b.x - a.x) * t, (b.y - a.y) * t, (b.z - a.z) * t);
  }

  lemma MulNonneg(d: real, t: real)
    requires d >= 0.0 && t >= 0.0
    ensures d * t >= 0.0
  {
  }

  lemma MulPos(d: real, t: real)
    requires d > 0.0 && t > 0.0
    ensures d * t > 0.0
  {
  }

  /** A coordinate v of a point of the segment lies between the coordinates
      of the ends. */
  lemma LerpBetween(x0: real, x1: real, t: real, v: real)
    requires 0.0 <= t <= 1.0 && v == x0 + (x1 - x0) * t
    ensures x0 <= x1 ==> x0 <= v <= x1
    ensures x1 <= x0 ==> x1 <= v <= x0
  {
    if x0 <= x1 {
      MulNonneg(x1 - x0, t);
      MulNonneg(x1 - x0, 1.0 - t);
    } else {
      MulNonneg(x0 - x1, t);
      MulNonneg(x0 - x1, 1.0 - t);
    }
  }

  /** A value between the coordinates of the ends, reached at parameter t
      along the line, is reached within the segment. */
  lemma LerpParameter(x0: real, x1: real, e: real, t: real)
    requires x0 + (x1 - x0) * t == e && x0 != x1
    requires (x0 <= e <= x1) || (x1 <= e <= x0)
    ensures 0.0 <= t <= 1.0
  {
    var d := x1 - x0;
    var p := d * t;
    assert x0 + p == e;
    if t < 0.0 {
      if d > 0.0 {
        MulPos(d, -t);
      } else {
        MulPos(-d, -t);
      }
    }
    if t > 1.0 {
      if d > 0.0 {
        MulPos(d, t - 1.0);
        assert d * (t - 1.0) == p - d;
      } else {
        MulPos(-d, t - 1.0);
        assert (-d) * (t - 1.0) == d - p;
      }
    }
  }

  lemma OnSegmentEnds(a: Vec3, b: Vec3)
    ensures OnSegment(a, b, a) && OnSegment(a, b, b)
  {
    assert a == Lerp(a, b, 0.0);
    assert b == Lerp(a, b, 1.0);
  }

  lemma OnSegmentReversed(a: Vec3, b: Vec3, r: Vec3)
    requires OnSegment(a, b, r)
    ensures OnSegment(b, a, r)
  {
    var t :| 0.0 <= t <= 1.0 && r == Lerp(a, b, t);
    assert r == Lerp(b, a, 1.0 - t);
  }

  /** The point at parameter t between the points at parameters s and u is
      the point at parameter s + (u - s) * t, coordinate by coordinate. */
  lemma LerpCompose(x0: real, x1: real, s: real, u: real, t: real, c: real, d: real, r: real)
    requires c == x0 + (x1 - x0) * s && d == x0 + (x1 - x0) * u && r == c + (d - c) * t
    ensures r == x0 + (x1 - x0) * (s + (u - s) * t)
  {
    assert d - c == (x1 - x0) * (u - s);
  }

  lemma LerpComposeX(a: Vec3, b: Vec3, c: Vec3, d: Vec3, s: real, u: real, t: real, w: real)
    requires c.x == a.x + (b.x - a.x) * s && d.x == a.x + (b.x - a.x) * u && w == s + (u - s) * t
    ensures Lerp(c, d, t).x == Lerp(a, b, w).x
  {
    LerpCompose(a.x, b.x, s, u, t, c.x, d.x, Lerp(c, d, t).x);
  }

  lemma LerpComposeY(a: Vec3, b: Vec3, c: Vec3, d: Vec3, s: real, u: real, t: real, w: real)
    requires c.y == a.y + (b.y - a.y) * s && d.y == a.y + (b.y - a.y) * u && w == s + (u - s) * t
    ensures Lerp(c, d, t).y == Lerp(a, b, w).y
  {
    LerpCompose(a.y, b.y, s, u, t, c.y, d.y, Lerp(c, d, t).y);
  }

  lemma LerpComposeZ(a: Vec3, b: Vec3, c: Vec3, d: Vec3, s: real, u: real, t: real, w: real)
    requires c.z == a.z + (b.z - a.z) * s && d.z == a.z + (b.z - a.z) * u && w == s + (u - s) * t
    ensures Lerp(c, d, t).z == Lerp(a, b, w).z
  {
    LerpCompose(a.z, b.z, s, u, t, c.z, d.z, Lerp(c, d, t).z);
  }

  lemma LerpCoordinates(a: Vec3, b: Vec3, t: real, c: Vec3)
    requires c == Lerp(a, b, t)
    ensures c.x == a.x + (b.x - a.x) * t && c.y == a.y + (b.y - a.y) * t && c.z == a.z + (b.z - a.z) * t
  {
  }

  lemma LerpOfLerps(a: Vec3, b: Vec3, c: Vec3, d: Vec3, s: real, u: real, t: real, w: real)
    requires c == Lerp(a, b, s) && d == Lerp(a, b, u) && w == s + (u - s) * t
    ensures Lerp(c, d, t) == Lerp(a, b, w)
  {
    LerpCoordinates(a, b, s, c);
    LerpCoordinates(a, b, u, d);
    LerpComposeX(a, b, c, d, s, u, t, w);
    LerpComposeY(a, b, c, d, s, u, t, w);
    LerpComposeZ(a, b, c, d, s, u, t, w);
  }

  /** A point of a segment between two points of a segment is a point of the
      outer segment. */
  lemma OnSegmentTrans(a: Vec3, b: Vec3, c: Vec3, d: Vec3, r: Vec3)
    requires OnSegment(a, b, c) && OnSegment(a, b, d) && OnSegment(c, d, r)
    ensures OnSegment(a, b, r)
  {
    var s :| 0.0 <= s <= 1.0 && c == Lerp(a, b, s);
    var u :| 0.0 <= u <= 1.0 && d == Lerp(a, b, u);
    var t :| 0.0 <= t <= 1.0 && r == Lerp(c, d, t);
    LerpBetween(s, u, t, s + (u - s) * t);
    LerpOfLerps(a, b, c, d, s, u, t, s + (u - s) * t);
  }

  /** Each side of each plane is convex: a point of a segment whose ends are
      on one side is on that side. */
  lemma SegmentSide(plane: Plane, a: Vec3, b: Vec3, r: Vec3)
    requires OnSegment(a, b, r)
    ensures Dist(plane, a) < 0.0 && Dist(plane, b) < 0.0 ==> Dist(plane, r) < 0.0
    ensures Dist(plane, a) >= 0.0 && Dist(plane, b) >= 0.0 ==> Dist(plane, r) >= 0.0
  {
    var t :| 0.0 <= t <= 1.0 && r == Lerp(a, b, t);
    LerpBetween(a.x, b.x, t, r.x);
    LerpBetween(a.y, b.y, t, r.y);
    LerpBetween(a.z, b.z, t, r.z);
  }

  /** The three points of each plane do span it, so for a segment not
      parallel to the plane the system of IntersectionPlaneLine is regular
      and Cut lands on the plane. */
  lemma CutOnPlane(plane: Plane, a: Vec3, b: Vec3)
    requires Dist(plane, a) != Dist(plane, b)
    ensures Dist(plane, Cut(plane, a, b)) == 0.0
  {
    var (o, p, q) := PlanePoints(plane);
    match plane {
      case LeftPlane => assert Det3(PlaneLineMatrix(o, p, q, a, b)) == 2.0 * (b.x - a.x);
      case TopPlane => assert Det3(PlaneLineMatrix(o, p, q, a, b)) == -2.0 * (b.y - a.y);
      case RightPlane => assert Det3(PlaneLineMatrix(o, p, q, a, b)) == 2.0 * (b.x - a.x);
      case BottomPlane => assert Det3(PlaneLineMatrix(o, p, q, a, b)) == -2.0 * (b.y - a.y);
      case FrontPlane => assert Det3(PlaneLineMatrix(o, p, q, a, b)) == b.z - a.z;
      case BackPlane => assert Det3(PlaneLineMatrix(o, p, q, a, b)) == b.z - a.z;
    }
    IntersectionInAxisPlane(o, p, q, a, b);
  }

  /** A point of the line through a and b that is on the plane, with a and b
      on opposite sides of it, is within the segment. */
  lemma CrossParameter(plane: Plane, a: Vec3, b: Vec3, t: real)
    requires (Dist(plane, a) < 0.0 <= Dist(plane, b)) || (Dist(plane, b) < 0.0 <= Dist(plane, a))
    requires Dist(plane, Lerp(a, b, t)) == 0.0
    ensures 0.0 <= t <= 1.0
  {
    match plane {
      case LeftPlane => LerpParameter(a.x, b.x, -1.0, t);
      case TopPlane => LerpParameter(a.y, b.y, -1.0, t);
      case RightPlane => LerpParameter(a.x, b.x, 1.0, t);
      case BottomPlane => LerpParameter(a.y, b.y, 1.0, t);
      case FrontPlane => LerpParameter(a.z, b.z, -1.0, t);
      case BackPlane => LerpParameter(a.z, b.z, 1.0, t);
    }
  }

  /** Between ends on opposite sides of the plane, Cut lands on the plane
      and within the segment. */
  lemma CutBetween(plane: Plane, a: Vec3, b: Vec3)
    requires (Dist(plane, a) < 0.0 <= Dist(plane, b)) || (Dist(plane, b) < 0.0 <= Dist(plane, a))
    ensures Dist(plane, Cut(plane, a, b)) == 0.0 && OnSegment(a, b, Cut(plane, a, b))
  {
    CutOnPlane(plane, a, b);
    var r := Cut(plane, a, b);
    var t :| r == a.Plus(b.Minus(a).Times(t));
    LerpAlong(a, b, t);
    CrossParameter(plane, a, b, t);
  }

  /** What the passes need of the crossing computation: between ends on
      opposite sides of the plane, it lands on the plane within the segment. */
  ghost predicate CrossesOnSegment(cut: (Plane, Vec3, Vec3) -> Vec3)
  {
    forall plane, a, b ::
      (Dist(plane, a) < 0.0 <= Dist(plane, b)) || (Dist(plane, b) < 0.0 <= Dist(plane, a)) ==>
        Dist(plane, cut(plane, a, b)) == 0.0 && OnSegment(a, b, cut(plane, a, b))
  }

  lemma CutCrosses()
    ensures CrossesOnSegment(Cut)
  {
    forall plane, a, b | (Dist(plane, a) < 0.0 <= Dist(plane, b)) || (Dist(plane, b) < 0.0 <= Dist(plane, a))
      ensures Dist(plane, Cut(plane, a, b)) == 0.0 && OnSegment(a, b, Cut(plane, a, b))
    {
      CutBetween(plane, a, b);
    }
  }

  /** What one step of a pass appends for the vertex e reached from `last`. */
  function Emit(plane: Plane, last: Vec3, e: Vec3, cut: (Plane, Vec3, Vec3) -> Vec3): (out: seq<Vec3>)
    ensures |out| <= 2
  {
    if Dist(plane, e) >= 0.0 then
      (if Dist(plane, last) < 0.0 then [cut(plane, last, e)] else []) + [e]
    else if Dist(plane, last) > 0.0 then [cut(plane, last, e)]
    else []
  }

  function Prev(pts: seq<Vec3>, last0: Vec3, i: int): Vec3
    requires 0 <= i < |pts|
  {
    if i == 0 then last0 else pts[i - 1]
  }

  /** The output of a pass after its first n steps. */
  function PassPrefix(plane: Plane, pts: seq<Vec3>, last0: Vec3, n: int, cut: (Plane, Vec3, Vec3) -> Vec3): seq<Vec3>
    requires 0 <= n <= |pts|
  {
    if n == 0 then []
    else PassPrefix(plane, pts, last0, n - 1, cut) + Emit(plane, Prev(pts, last0, n - 1), pts[n - 1], cut)
  }

  /** One whole pass, closing the polygon from its last vertex. */
  function Pass(plane: Plane, pts: seq<Vec3>, cut: (Plane, Vec3, Vec3) -> Vec3): seq<Vec3>
    requires |pts| > 0
  {
    PassPrefix(plane, pts, pts[|pts| - 1], |pts|, cut)
  }

  /** The six-pass path of `clip`: an empty list after any of the first five
      passes ends it with no vertices; the last pass maps what it emits to
      the window. */
  function ClipSpec(vp: Rect, depth: Vec2, pts: seq<Vec3>, cut: (Plane, Vec3, Vec3) -> Vec3): seq<Vec3>
    requires |pts| > 0
  {
    var p1 := Pass(LeftPlane, pts, cut);
    if |p1| == 0 then [] else
    var p2 := Pass(TopPlane, p1, cut);
    if |p2| == 0 then [] else
    var p3 := Pass(RightPlane, p2, cut);
    if |p3| == 0 then [] else
    var p4 := Pass(BottomPlane, p3, cut);
    if |p4| == 0 then [] else
    var p5 := Pass(FrontPlane, p4, cut);
    if |p5| == 0 then [] else
    MapToWindow(vp, depth, Pass(BackPlane, p5, cut))
  }

  lemma {:induction false} PassPrefixInside(plane: Plane, pts: seq<Vec3>, last0: Vec3, n: int, cut: (Plane, Vec3, Vec3) -> Vec3)
    requires 0 <= n <= |pts|
    requires Dist(plane, last0) >= 0.0
    requires forall i :: 0 <= i < |pts| ==> Dist(plane, pts[i]) >= 0.0
    ensures PassPrefix(plane, pts, last0, n, cut) == pts[..n]
  {
    if n > 0 {
      PassPrefixInside(plane, pts, last0, n - 1, cut);
      assert pts[..n] == pts[..n - 1] + [pts[n - 1]];
    }
  }

  lemma {:induction false} PassPrefixOutside(plane: Plane, pts: seq<Vec3>, last0: Vec3, n: int, cut: (Plane, Vec3, Vec3) -> Vec3)
    requires 0 <= n <= |pts|
    requires Dist(plane, last0) < 0.0
    requires forall i :: 0 <= i < |pts| ==> Dist(plane, pts[i]) < 0.0
    ensures PassPrefix(plane, pts, last0, n, cut) == []
  {
    if n > 0 {
      PassPrefixOutside(plane, pts, last0, n - 1, cut);
    }
  }

  lemma {:induction false} PassPrefixBound(plane: Plane, pts: seq<Vec3>, last0: Vec3, n: int, cut: (Plane, Vec3, Vec3) -> Vec3)
    requires 0 <= n <= |pts|
    ensures |PassPrefix(plane, pts, last0, n, cut)| <= 2 * n
  {
    if n > 0 {
      PassPrefixBound(plane, pts, last0, n - 1, cut);
    }
  }

  /** The cube contains the point (faces included). */
  predicate InCube(p: Vec3)
  {
    -1.0 <= p.x <= 1.0 && -1.0 <= p.y <= 1.0 && -1.0 <= p.z <= 1.0
  }

  /** Vertices all inside the cube come out as their window images, in the
      same order and number. */
  lemma ClipInside(vp: Rect, depth: Vec2, pts: seq<Vec3>, cut: (Plane, Vec3, Vec3) -> Vec3)
    requires |pts| > 0
    requires forall i :: 0 <= i < |pts| ==> InCube(pts[i])
    ensures ClipSpec(vp, depth, pts, cut) == MapToWindow(vp, depth, pts)
  {
    PassInside(LeftPlane, pts, cut);
    PassInside(TopPlane, pts, cut);
    PassInside(RightPlane, pts, cut);
    PassInside(BottomPlane, pts, cut);
    PassInside(FrontPlane, pts, cut);
    PassInside(BackPlane, pts, cut);
  }

  lemma PassInside(plane: Plane, pts: seq<Vec3>, cut: (Plane, Vec3, Vec3) -> Vec3)
    requires |pts| > 0
    requires forall i :: 0 <= i < |pts| ==> InCube(pts[i])
    ensures Pass(plane, pts, cut) == pts
  {
    PassPrefixInside(plane, pts, pts[|pts| - 1], |pts|, cut);
    assert pts[..|pts|] == pts;
  }

  predicate AllInside(plane: Plane, pts: seq<Vec3>)
  {
    forall i :: 0 <= i < |pts| ==> Dist(plane, pts[i]) >= 0.0
  }

  predicate AllOutside(plane: Plane, pts: seq<Vec3>)
  {
    forall i :: 0 <= i < |pts| ==> Dist(plane, pts[i]) < 0.0
  }

  /** What one step emits is inside its plane, and on the side of any other
      plane that both `last` and e are on. */
  lemma EmitSides(plane: Plane, other: Plane, last: Vec3, e: Vec3, cut: (Plane, Vec3, Vec3) -> Vec3)
    requires CrossesOnSegment(cut)
    ensures AllInside(plane, Emit(plane, last, e, cut))
    ensures Dist(other, last) < 0.0 && Dist(other, e) < 0.0 ==> AllOutside(other, Emit(plane, last, e, cut))
    ensures Dist(other, last) >= 0.0 && Dist(other, e) >= 0.0 ==> AllInside(other, Emit(plane, last, e, cut))
  {
    if (Dist(plane, e) >= 0.0 && Dist(plane, last) < 0.0) || (Dist(plane, e) < 0.0 && Dist(plane, last) > 0.0) {
      var c := cut(plane, last, e);
      assert Dist(plane, c) == 0.0 && OnSegment(last, e, c);
      SegmentSide(other, last, e, c);
    }
  }

  lemma {:induction false} PassPrefixSides(plane: Plane, other: Plane, pts: seq<Vec3>, last0: Vec3, n: int, cut: (Plane, Vec3, Vec3) -> Vec3)
    requires 0 <= n <= |pts| && CrossesOnSegment(cut)
    ensures AllInside(plane, PassPrefix(plane, pts, last0, n, cut))
    ensures Dist(other, last0) < 0.0 && AllOutside(other, pts) ==> AllOutside(other, PassPrefix(plane, pts, last0, n, cut))
    ensures Dist(other, last0) >= 0.0 && AllInside(other, pts) ==> AllInside(other, PassPrefix(plane, pts, last0, n, cut))
  {
    if n > 0 {
      PassPrefixSides(plane, other, pts, last0, n - 1, cut);
      EmitSides(plane, other, Prev(pts, last0, n - 1), pts[n - 1], cut);
    }
  }

  /** Everything a pass emits is inside its plane, and a pass keeps a polygon
      on whichever side of another plane it was. */
  lemma PassSides(plane: Plane, other: Plane, pts: seq<Vec3>, cut: (Plane, Vec3, Vec3) -> Vec3)
    requires |pts| > 0 && CrossesOnSegment(cut)
    ensures AllInside(plane, Pass(plane, pts, cut))
    ensures AllOutside(other, pts) ==> AllOutside(other, Pass(plane, pts, cut))
    ensures AllInside(other, pts) ==> AllInside(other, Pass(plane, pts, cut))
  {
    PassPrefixSides(plane, other, pts, pts[|pts| - 1], |pts|, cut);
  }

  /** The polygon is inside each of the planes. */
  predicate InsideEach(planes: seq<Plane>, pts: seq<Vec3>)
  {
    forall k :: 0 <= k < |planes| ==> AllInside(planes[k], pts)
  }

  /** Pass k of `clip` leaves its output inside its own plane and every
      earlier plane its input was inside. */
  lemma PassKeepsInside(k: int, pts: seq<Vec3>)
    requires 0 <= k < 6 && |pts| > 0 && InsideEach(AllPlanes()[..k], pts)
    ensures InsideEach(AllPlanes()[..k + 1], Pass(AllPlanes()[k], pts, Cut))
  {
    CutCrosses();
    var planes := AllPlanes()[..k + 1];
    forall i | 0 <= i < k + 1
      ensures AllInside(planes[i], Pass(AllPlanes()[k], pts, Cut))
    {
      PassSides(AllPlanes()[k], planes[i], pts, Cut);
      if i < k {
        assert AllPlanes()[..k][i] == planes[i];
      }
    }
  }

  /** The points are the window images of points of the cube. */
  ghost predicate WindowsOfCube(vp: Rect, depth: Vec2, out: seq<Vec3>)
  {
    exists pts :: (forall j :: 0 <= j < |pts| ==> InCube(pts[j])) && out == MapToWindow(vp, depth, pts)
  }

  lemma WindowOfCube(vp: Rect, depth: Vec2, pts: seq<Vec3>)
    requires InsideEach(AllPlanes(), pts)
    ensures WindowsOfCube(vp, depth, MapToWindow(vp, depth, pts))
  {
    forall j | 0 <= j < |pts|
      ensures InCube(pts[j])
    {
      forall k | 0 <= k < |AllPlanes()|
        ensures Dist(AllPlanes()[k], pts[j]) >= 0.0
      {
        assert AllInside(AllPlanes()[k], pts);
      }
      InCubeAllPlanes(pts[j]);
    }
  }

  /** The passes of `clip` from pass k on, over the list of planes. */
  function ClipFrom(vp: Rect, depth: Vec2, k: int, pts: seq<Vec3>, cut: (Plane, Vec3, Vec3) -> Vec3): seq<Vec3>
    requires 0 <= k < 6 && |pts| > 0
    decreases 6 - k
  {
    var next := Pass(AllPlanes()[k], pts, cut);
    if k == 5 then MapToWindow(vp, depth, next)
    else if |next| == 0 then []
    else ClipFrom(vp, depth, k + 1, next, cut)
  }

  lemma ClipSpecFrom(vp: Rect, depth: Vec2, pts: seq<Vec3>, cut: (Plane, Vec3, Vec3) -> Vec3)
    requires |pts| > 0
    ensures ClipSpec(vp, depth, pts, cut) == ClipFrom(vp, depth, 0, pts, cut)
  {
    assert AllPlanes()[0] == LeftPlane && AllPlanes()[1] == TopPlane && AllPlanes()[2] == RightPlane;
    assert AllPlanes()[3] == BottomPlane && AllPlanes()[4] == FrontPlane && AllPlanes()[5] == BackPlane;
  }

  lemma {:induction false} ClipFromInCube(vp: Rect, depth: Vec2, k: int, pts: seq<Vec3>)
    requires 0 <= k < 6 && |pts| > 0 && InsideEach(AllPlanes()[..k], pts)
    ensures WindowsOfCube(vp, depth, ClipFrom(vp, depth, k, pts, Cut))
    decreases 6 - k
  {
    var next := Pass(AllPlanes()[k], pts, Cut);
    PassKeepsInside(k, pts);
    if k == 5 {
      assert AllPlanes()[..6] == AllPlanes();
      WindowOfCube(vp, depth, next);
    } else if |next| == 0 {
      assert ClipFrom(vp, depth, k, pts, Cut) == MapToWindow(vp, depth, []);
    } else {
      ClipFromInCube(vp, depth, k + 1, next);
    }
  }

  /** Every vertex `clip` returns is the window image of a point of the
      cube. */
  lemma ClipInCube(vp: Rect, depth: Vec2, pts: seq<Vec3>)
    requires |pts| > 0
    ensures WindowsOfCube(vp, depth, ClipSpec(vp, depth, pts, Cut))
  {
    ClipSpecFrom(vp, depth, pts, Cut);
    ClipFromInCube(vp, depth, 0, pts);
  }

  /** Vertices all outside one plane of the cube are clipped away entirely. */
  lemma ClipOutsidePlane(vp: Rect, depth: Vec2, pts: seq<Vec3>, plane: Plane)
    requires |pts| > 0 && AllOutside(plane, pts)
    ensures ClipSpec(vp, depth, pts, Cut) == []
  {
    CutCrosses();
    var p1 := Pass(LeftPlane, pts, Cut);
    PassSides(LeftPlane, plane, pts, Cut);
    if plane == LeftPlane { PassPrefixOutside(plane, pts, pts[|pts| - 1], |pts|, Cut); }
    if |p1| > 0 {
      var p2 := Pass(TopPlane, p1, Cut);
      PassSides(TopPlane, plane, p1, Cut);
      if plane == TopPlane { PassPrefixOutside(plane, p1, p1[|p1| - 1], |p1|, Cut); }
      if |p2| > 0 {
        var p3 := Pass(RightPlane, p2, Cut);
        PassSides(RightPlane, plane, p2, Cut);
        if plane == RightPlane { PassPrefixOutside(plane, p2, p2[|p2| - 1], |p2|, Cut); }
        if |p3| > 0 {
          var p4 := Pass(BottomPlane, p3, Cut);
          PassSides(BottomPlane, plane, p3, Cut);
          if plane == BottomPlane { PassPrefixOutside(plane, p3, p3[|p3| - 1], |p3|, Cut); }
          if |p4| > 0 {
            var p5 := Pass(FrontPlane, p4, Cut);
            PassSides(FrontPlane, plane, p4, Cut);
            if plane == FrontPlane { PassPrefixOutside(plane, p4, p4[|p4| - 1], |p4|, Cut); }
            if |p5| > 0 {
              PassSides(BackPlane, plane, p5, Cut);
              if plane == BackPlane { PassPrefixOutside(plane, p5, p5[|p5| - 1], |p5|, Cut); }
            }
          }
        }
      }
    }
  }

  /** Each pass at most doubles the vertex count. */
  lemma ClipBound(vp: Rect, depth: Vec2, pts: seq<Vec3>, cut: (Plane, Vec3, Vec3) -> Vec3)
    requires |pts| > 0
    ensures |ClipSpec(vp, depth, pts, cut)| <= 64 * |pts|
  {
    var p1 := Pass(LeftPlane, pts, cut);
    PassPrefixBound(LeftPlane, pts, pts[|pts| - 1], |pts|, cut);
    if |p1| > 0 {
      var p2 := Pass(TopPlane, p1, cut);
      PassPrefixBound(TopPlane, p1, p1[|p1| - 1], |p1|, cut);
      if |p2| > 0 {
        var p3 := Pass(RightPlane, p2, cut);
        PassPrefixBound(RightPlane, p2, p2[|p2| - 1], |p2|, cut);
        if |p3| > 0 {
          var p4 := Pass(BottomPlane, p3, cut);
          PassPrefixBound(BottomPlane, p3, p3[|p3| - 1], |p3|, cut);
          if |p4| > 0 {
            var p5 := Pass(FrontPlane, p4, cut);
            PassPrefixBound(FrontPlane, p4, p4[|p4| - 1], |p4|, cut);
            if |p5| > 0 {
              PassPrefixBound(BackPlane, p5, p5[|p5| - 1], |p5|, cut);
            }
          }
        }
      }
    }
  }

  // ---------------------------------------------------------------------
  // clip2: a segment
  // ---------------------------------------------------------------------

  /** One plane of `clip2`: keep both ends if inside, move the outside end
      onto the plane, or give up when both are outside. */
  function Clip2Step(plane: Plane, p1: Vec3, p2: Vec3): Option<(Vec3, Vec3)>
  {
    if Dist(plane, p1) >= 0.0 then
      if Dist(plane, p2) < 0.0 then Some((p1, Cut(plane, p2, p1))) else Some((p1, p2))
    else if Dist(plane, p2) >= 0.0 then Some((Cut(plane, p2, p1), p2))
    else None
  }

  /** The planes in the order `clip2` visits them. */
  function AllPlanes(): seq<Plane>
  {
    [LeftPlane, TopPlane, RightPlane, BottomPlane, FrontPlane, BackPlane]
  }

  /** `clip2` over a list of planes. */
  function Clip2Through(planes: seq<Plane>, p1: Vec3, p2: Vec3): Option<(Vec3, Vec3)>
  {
    if |planes| == 0 then Some((p1, p2))
    else
      match Clip2Step(planes[0], p1, p2)
      case None => None
      case Some((q1, q2)) => Clip2Through(planes[1..], q1, q2)
  }

  function Clip2Spec(vp: Rect, depth: Vec2, p1: Vec3, p2: Vec3): seq<Vec3>
  {
    match Clip2Through(AllPlanes(), p1, p2)
    case None => []
    case Some((q1, q2)) => [ToWindow(vp, depth, q1), ToWindow(vp, depth, q2)]
  }

  predicate InsideAll(planes: seq<Plane>, p: Vec3)
  {
    forall k :: 0 <= k < |planes| ==> Dist(planes[k], p) >= 0.0
  }

  /** An end inside every plane is never moved, and the segment is never
      dropped. */
  lemma {:induction false} Clip2ThroughKeeps(planes: seq<Plane>, p1: Vec3, p2: Vec3)
    ensures InsideAll(planes, p1) ==> Clip2Through(planes, p1, p2).Some? && Clip2Through(planes, p1, p2).value.0 == p1
    ensures InsideAll(planes, p2) ==> Clip2Through(planes, p1, p2).Some? && Clip2Through(planes, p1, p2).value.1 == p2
  {
    if |planes| > 0 {
      var s := Clip2Step(planes[0], p1, p2);
      if s.Some? {
        Clip2ThroughKeeps(planes[1..], s.value.0, s.value.1);
        assert InsideAll(planes, p1) ==> InsideAll(planes[1..], p1) by {
          if InsideAll(planes, p1) {
            forall k | 0 <= k < |planes| - 1 ensures Dist(planes[1..][k], p1) >= 0.0 {
              assert planes[1..][k] == planes[k + 1];
            }
          }
        }
        assert InsideAll(planes, p2) ==> InsideAll(planes[1..], p2) by {
          if InsideAll(planes, p2) {
            forall k | 0 <= k < |planes| - 1 ensures Dist(planes[1..][k], p2) >= 0.0 {
              assert planes[1..][k] == planes[k + 1];
            }
          }
        }
      } else {
        assert !InsideAll(planes, p1) && !InsideAll(planes, p2) by {
          assert Dist(planes[0], p1) < 0.0 && Dist(planes[0], p2) < 0.0;
        }
      }
    }
  }

  /** The point lies on one of the planes. */
  ghost predicate OnFace(planes: seq<Plane>, p: Vec3)
  {
    exists k :: 0 <= k < |planes| && Dist(planes[k], p) == 0.0
  }

  lemma InCubeAllPlanes(p: Vec3)
    ensures InCube(p) <==> InsideAll(AllPlanes(), p)
  {
    assert InsideAll(AllPlanes(), p) ==> InCube(p) by {
      if InsideAll(AllPlanes(), p) {
        assert Dist(AllPlanes()[0], p) >= 0.0 && Dist(AllPlanes()[1], p) >= 0.0 && Dist(AllPlanes()[2], p) >= 0.0;
        assert Dist(AllPlanes()[3], p) >= 0.0 && Dist(AllPlanes()[4], p) >= 0.0 && Dist(AllPlanes()[5], p) >= 0.0;
      }
    }
  }

  /** One step of `clip2`: it gives up exactly when both ends are outside;
      otherwise an inside end stays where it is, an outside end is moved onto
      the plane, and both new ends are inside the plane and on the old
      segment. */
  lemma Clip2StepMoves(plane: Plane, p1: Vec3, p2: Vec3)
    ensures Clip2Step(plane, p1, p2).None? <==> Dist(plane, p1) < 0.0 && Dist(plane, p2) < 0.0
    ensures Clip2Step(plane, p1, p2).Some? ==>
              var (q1, q2) := Clip2Step(plane, p1, p2).value;
              Dist(plane, q1) >= 0.0 && Dist(plane, q2) >= 0.0 &&
              (Dist(plane, p1) >= 0.0 ==> q1 == p1) && (Dist(plane, p1) < 0.0 ==> Dist(plane, q1) == 0.0) &&
              (Dist(plane, p2) >= 0.0 ==> q2 == p2) && (Dist(plane, p2) < 0.0 ==> Dist(plane, q2) == 0.0) &&
              OnSegment(p1, p2, q1) && OnSegment(p1, p2, q2)
  {
    OnSegmentEnds(p1, p2);
    if (Dist(plane, p1) >= 0.0 && Dist(plane, p2) < 0.0) || (Dist(plane, p1) < 0.0 && Dist(plane, p2) >= 0.0) {
      CutBetween(plane, p2, p1);
      OnSegmentReversed(p2, p1, Cut(plane, p2, p1));
    }
  }

  /** The ends `clip2` returns lie on the segment it was given. */
  lemma {:induction false} Clip2ThroughSegment(planes: seq<Plane>, p1: Vec3, p2: Vec3)
    ensures Clip2Through(planes, p1, p2).Some? ==>
              OnSegment(p1, p2, Clip2Through(planes, p1, p2).value.0) &&
              OnSegment(p1, p2, Clip2Through(planes, p1, p2).value.1)
  {
    if |planes| == 0 {
      OnSegmentEnds(p1, p2);
    } else {
      Clip2StepMoves(planes[0], p1, p2);
      var s := Clip2Step(planes[0], p1, p2);
      if s.Some? {
        var (s1, s2) := s.value;
        Clip2ThroughSegment(planes[1..], s1, s2);
        var r := Clip2Through(planes[1..], s1, s2);
        if r.Some? {
          OnSegmentTrans(p1, p2, s1, s2, r.value.0);
          OnSegmentTrans(p1, p2, s1, s2, r.value.1);
        }
      }
    }
  }

  /** The ends `clip2` returns are inside every plane it visits. */
  lemma {:induction false} Clip2ThroughInside(planes: seq<Plane>, p1: Vec3, p2: Vec3)
    ensures Clip2Through(planes, p1, p2).Some? ==>
              InsideAll(planes, Clip2Through(planes, p1, p2).value.0) &&
              InsideAll(planes, Clip2Through(planes, p1, p2).value.1)
  {
    if |planes| > 0 {
      Clip2StepMoves(planes[0], p1, p2);
      var s := Clip2Step(planes[0], p1, p2);
      if s.Some? {
        var (s1, s2) := s.value;
        Clip2ThroughInside(planes[1..], s1, s2);
        Clip2ThroughSegment(planes[1..], s1, s2);
        var r := Clip2Through(planes[1..], s1, s2);
        if r.Some? {
          var (q1, q2) := r.value;
          SegmentSide(planes[0], s1, s2, q1);
          SegmentSide(planes[0], s1, s2, q2);
          forall k | 1 <= k < |planes|
            ensures Dist(planes[k], q1) >= 0.0 && Dist(planes[k], q2) >= 0.0
          {
            assert planes[1..][k - 1] == planes[k];
          }
        }
      }
    }
  }

  /** An end `clip2` returns is the end it was given, or lies on one of the
      planes: a moved end lands on the plane it violated. */
  lemma {:induction false} Clip2ThroughFace(planes: seq<Plane>, p1: Vec3, p2: Vec3)
    ensures Clip2Through(planes, p1, p2).Some? ==>
              (Clip2Through(planes, p1, p2).value.0 == p1 || OnFace(planes, Clip2Through(planes, p1, p2).value.0)) &&
              (Clip2Through(planes, p1, p2).value.1 == p2 || OnFace(planes, Clip2Through(planes, p1, p2).value.1))
  {
    if |planes| > 0 {
      Clip2StepMoves(planes[0], p1, p2);
      var s := Clip2Step(planes[0], p1, p2);
      if s.Some? {
        var (s1, s2) := s.value;
        Clip2ThroughFace(planes[1..], s1, s2);
        var r := Clip2Through(planes[1..], s1, s2);
        if r.Some? {
          var (q1, q2) := r.value;
          if OnFace(planes[1..], q1) {
            var k :| 0 <= k < |planes[1..]| && Dist(planes[1..][k], q1) == 0.0;
            assert Dist(planes[k + 1], q1) == 0.0;
          } else if q1 != p1 {
            assert Dist(planes[0], q1) == 0.0;
          }
          if OnFace(planes[1..], q2) {
            var k :| 0 <= k < |planes[1..]| && Dist(planes[1..][k], q2) == 0.0;
            assert Dist(planes[k + 1], q2) == 0.0;
          } else if q2 != p2 {
            assert Dist(planes[0], q2) == 0.0;
          }
        }
      }
    }
  }

  /** A segment with both ends outside any one of the planes is dropped. */
  lemma {:induction false} Clip2ThroughDrops(planes: seq<Plane>, k: int, p1: Vec3, p2: Vec3)
    requires 0 <= k < |planes|
    requires Dist(planes[k], p1) < 0.0 && Dist(planes[k], p2) < 0.0
    ensures Clip2Through(planes, p1, p2) == None
  {
    Clip2StepMoves(planes[0], p1, p2);
    var s := Clip2Step(planes[0], p1, p2);
    if k > 0 && s.Some? {
      var (s1, s2) := s.value;
      SegmentSide(planes[k], p1, p2, s1);
      SegmentSide(planes[k], p1, p2, s2);
      assert planes[1..][k - 1] == planes[k];
      Clip2ThroughDrops(planes[1..], k - 1, s1, s2);
    }
  }

  /** `clip2` returns no points or two points; ends inside the cube come out
      as their window images in their places; a segment with both ends
      outside the same plane of the cube is dropped; and the two points it
      returns are the window images of points of the cube on the given
      segment, each the given end or a point of a face of the cube. */
  lemma Clip2Properties(vp: Rect, depth: Vec2, p1: Vec3, p2: Vec3, plane: Plane)
    ensures |Clip2Spec(vp, depth, p1, p2)| == 0 || |Clip2Spec(vp, depth, p1, p2)| == 2
    ensures InCube(p1) ==> |Clip2Spec(vp, depth, p1, p2)| == 2 && Clip2Spec(vp, depth, p1, p2)[0] == ToWindow(vp, depth, p1)
    ensures InCube(p2) ==> |Clip2Spec(vp, depth, p1, p2)| == 2 && Clip2Spec(vp, depth, p1, p2)[1] == ToWindow(vp, depth, p2)
    ensures Dist(plane, p1) < 0.0 && Dist(plane, p2) < 0.0 ==> Clip2Spec(vp, depth, p1, p2) == []
    ensures |Clip2Spec(vp, depth, p1, p2)| == 2 ==>
              exists q1, q2 :: InCube(q1) && InCube(q2) && OnSegment(p1, p2, q1) && OnSegment(p1, p2, q2) &&
                (q1 == p1 || OnFace(AllPlanes(), q1)) && (q2 == p2 || OnFace(AllPlanes(), q2)) &&
                Clip2Spec(vp, depth, p1, p2) == [ToWindow(vp, depth, q1), ToWindow(vp, depth, q2)]
  {
    InCubeAllPlanes(p1);
    InCubeAllPlanes(p2);
    Clip2ThroughKeeps(AllPlanes(), p1, p2);
    var k := match plane
      case LeftPlane => 0 case TopPlane => 1 case RightPlane => 2
      case BottomPlane => 3 case FrontPlane => 4 case BackPlane => 5;
    assert AllPlanes()[k] == plane;
    if Dist(plane, p1) < 0.0 && Dist(plane, p2) < 0.0 {
      Clip2ThroughDrops(AllPlanes(), k, p1, p2);
    }
    var r := Clip2Through(AllPlanes(), p1, p2);
    if r.Some? {
      var (q1, q2) := r.value;
      Clip2ThroughSegment(AllPlanes(), p1, p2);
      Clip2ThroughInside(AllPlanes(), p1, p2);
      Clip2ThroughFace(AllPlanes(), p1, p2);
      InCubeAllPlanes(q1);
      InCubeAllPlanes(q2);
    }
  }

  // ---------------------------------------------------------------------
  // The class
  // ---------------------------------------------------------------------

  /** The homogeneous division of each projected vertex, in order. */
  function Project(m: seq<real>, vertices: seq<Vec4>): (r: seq<Vec3>)
    requires |m| == 16
    ensures |r| == |vertices| && forall i :: 0 <= i < |vertices| ==> r[i] == FromHomo3(Apply4(m, vertices[i]))
  {
    seq(|vertices|, i requires 0 <= i < |vertices| => FromHomo3(Apply4(m, vertices[i])))
  }

  /** One of the first five passes of `clip`. */
  method ClipPass(plane: Plane, pts: seq<Vec3>, cut: (Plane, Vec3, Vec3) -> Vec3) returns (out: seq<Vec3>)
    requires |pts| > 0
    ensures out == Pass(plane, pts, cut)
  {
    out := [];
    var last := pts[|pts| - 1];
    for i := 0 to |pts|
      invariant out == PassPrefix(plane, pts, pts[|pts| - 1], i, cut)
      invariant last == if i == 0 then pts[|pts| - 1] else pts[i - 1]
    {
      var e := pts[i];
      ghost var before := out;
      assert Prev(pts, pts[|pts| - 1], i) == last;
      if Dist(plane, e) >= 0.0 {
        if Dist(plane, last) < 0.0 {
          out := out + [cut(plane, last, e)];
        }
        out := out + [e];
      } else if Dist(plane, last) > 0.0 {
        out := out + [cut(plane, last, e)];
      }
      assert out == before + Emit(plane, last, e, cut);
      last := e;
    }
  }

  class ViewTransformer {
    var mat: Matrix4
    var depthRange: Vec2
    var viewPort: Rect
    var projection: ProjectionType

    ghost predicate Valid()
      reads this, mat
    {
      mat.Valid()
    }

    /** `ViewTransformer(init, depthRange, viewPort)`: holds `init` itself;
        the projection type has its default, orthogonal. */
    constructor (init: Matrix4, depth: Vec2, vp: Rect)
      ensures mat == init && depthRange == depth && viewPort == vp && projection == Orthogonal
    {
      mat := init;
      depthRange := depth;
      viewPort := vp;
      projection := Orthogonal;
    }

    /** `ViewTransformer()`: the identity, with the default (all-zero)
        viewport and depth range. */
    constructor Default()
      ensures Valid() && fresh(mat) && mat.v[..] == Identity4()
      ensures depthRange == Vec2(0.0, 0.0) && viewPort == Rect(0.0, 0.0, 0.0, 0.0) && projection == Orthogonal
    {
      var m := Matrix4.GetIdentity();
      mat := m;
      depthRange := Vec2(0.0, 0.0);
      viewPort := Rect(0.0, 0.0, 0.0, 0.0);
      projection := Orthogonal;
    }

    /** `Calculate`: the projection matrix of the current type, viewport and
        depth range. */
    method Calculate()
      modifies this
      ensures Valid() && fresh(mat)
      ensures depthRange == old(depthRange) && viewPort == old(viewPort) && projection == old(projection)
      ensures projection == Orthogonal ==> mat.v[..] == Orthographic(viewPort, depthRange)
      ensures projection == Perspective ==> mat.v[..] == PerspectiveMatrix(viewPort, depthRange)
    {
      var entries := if projection == Orthogonal then Orthographic(viewPort, depthRange)
                     else PerspectiveMatrix(viewPort, depthRange);
      var data := new real[16](i requires 0 <= i < 16 => entries[i]);
      mat := new Matrix4.Wrap(data);
    }

    /** `TransformToWindow`: project and divide every vertex, in order, then
        clip. */
    method TransformToWindow(vertices: seq<Vec4>) returns (r: Result<seq<Vec3>>)
      requires Valid()
      ensures |vertices| == 0 ==> r == Err(ArgumentOutOfRange)
      ensures |vertices| == 2 ==> r == Ok(Clip2Spec(viewPort, depthRange,
                                                    FromHomo3(Apply4(mat.v[..], vertices[0])),
                                                    FromHomo3(Apply4(mat.v[..], vertices[1]))))
      ensures |vertices| > 0 && |vertices| != 2 ==>
                r == Ok(ClipSpec(viewPort, depthRange, Project(mat.v[..], vertices), Cut))
    {
      var unclipped: seq<Vec3> := [];
      for i := 0 to |vertices|
        invariant unclipped == Project(mat.v[..], vertices[..i])
      {
        unclipped := unclipped + [FromHomo3(Apply4(mat.v[..], vertices[i]))];
      }
      assert vertices[..|vertices|] == vertices;
      r := Clip(unclipped);
    }

    /** `clip`: two points go to `clip2`; otherwise six passes, of which the
        first reads the last vertex and so throws on an empty list. */
    method Clip(unclipped: seq<Vec3>) returns (r: Result<seq<Vec3>>)
      ensures |unclipped| == 2 ==> r == Ok(Clip2Spec(viewPort, depthRange, unclipped[0], unclipped[1]))
      ensures |unclipped| == 0 ==> r == Err(ArgumentOutOfRange)
      ensures |unclipped| > 0 && |unclipped| != 2 ==> r == Ok(ClipSpec(viewPort, depthRange, unclipped, Cut))
    {
      if |unclipped| == 2 {
        var two := Clip2(unclipped[0], unclipped[1]);
        return Ok(two);
      }
      if |unclipped| == 0 {
        return Err(ArgumentOutOfRange);
      }
      var odd := ClipPass(LeftPlane, unclipped, Cut);
      if |odd| == 0 {
        return Ok([]);
      }
      var even := ClipPass(TopPlane, odd, Cut);
      if |even| == 0 {
        return Ok([]);
      }
      odd := ClipPass(RightPlane, even, Cut);
      if |odd| == 0 {
        return Ok([]);
      }
      even := ClipPass(BottomPlane, odd, Cut);
      if |even| == 0 {
        return Ok([]);
      }
      odd := ClipPass(FrontPlane, even, Cut);
      if |odd| == 0 {
        return Ok([]);
      }
      even := BackPass(odd, Cut);
      return Ok(even);
    }

    /** The last pass of `clip`, which maps every point it emits to the
        window. */
    method BackPass(pts: seq<Vec3>, cut: (Plane, Vec3, Vec3) -> Vec3) returns (out: seq<Vec3>)
      requires |pts| > 0
      ensures out == MapToWindow(viewPort, depthRange, Pass(BackPlane, pts, cut))
    {
      out := [];
      var last := pts[|pts| - 1];
      for i := 0 to |pts|
        invariant out == MapToWindow(viewPort, depthRange, PassPrefix(BackPlane, pts, pts[|pts| - 1], i, cut))
        invariant last == if i == 0 then pts[|pts| - 1] else pts[i - 1]
      {
        var e := pts[i];
        ghost var before := PassPrefix(BackPlane, pts, pts[|pts| - 1], i, cut);
        if Dist(BackPlane, e) >= 0.0 {
          if Dist(BackPlane, last) < 0.0 {
            out := out + [ToWindow(viewPort, depthRange, cut(BackPlane, last, e))];
          }
          out := out + [ToWindow(viewPort, depthRange, e)];
        } else if Dist(BackPlane, last) > 0.0 {
          out := out + [ToWindow(viewPort, depthRange, cut(BackPlane, last, e))];
        }
        last := e;
        assert out == MapToWindow(viewPort, depthRange, before + Emit(BackPlane, Prev(pts, pts[|pts| - 1], i), e, cut));
      }
    }

    /** `clip2`: the segment against the six planes in turn, then both ends
        to the window. */
    method Clip2(p1: Vec3, p2: Vec3) returns (r: seq<Vec3>)
      ensures r == Clip2Spec(viewPort, depthRange, p1, p2)
    {
      var a, b := p1, p2;
      ghost var planes := AllPlanes();
      assert planes[0..][0] == LeftPlane && planes[0..][1..] == planes[1..];
      var s0 := Clip2Step(LeftPlane, a, b);
      if s0.None? {
        return [];
      }
      a, b := s0.value.0, s0.value.1;
      assert Clip2Through(planes, p1, p2) == Clip2Through(planes[1..], a, b);
      assert planes[1..][0] == TopPlane && planes[1..][1..] == planes[2..];
      var s1 := Clip2Step(TopPlane, a, b);
      if s1.None? {
        return [];
      }
      a, b := s1.value.0, s1.value.1;
      assert Clip2Through(planes, p1, p2) == Clip2Through(planes[2..], a, b);
      assert planes[2..][0] == RightPlane && planes[2..][1..] == planes[3..];
      var s2 := Clip2Step(RightPlane, a, b);
      if s2.None? {
        return [];
      }
      a, b := s2.value.0, s2.value.1;
      assert Clip2Through(planes, p1, p2) == Clip2Through(planes[3..], a, b);
      assert planes[3..][0] == BottomPlane && planes[3..][1..] == planes[4..];
      var s3 := Clip2Step(BottomPlane, a, b);
      if s3.None? {
        return [];
      }
      a, b := s3.value.0, s3.value.1;
      assert Clip2Through(planes, p1, p2) == Clip2Through(planes[4..], a, b);
      assert planes[4..][0] == FrontPlane && planes[4..][1..] == planes[5..];
      var s4 := Clip2Step(FrontPlane, a, b);
      if s4.None? {
        return [];
      }
      a, b := s4.value.0, s4.value.1;
      assert Clip2Through(planes, p1, p2) == Clip2Through(planes[5..], a, b);
      assert planes[5..][0] == BackPlane && planes[5..][1..] == planes[6..];
      var s5 := Clip2Step(BackPlane, a, b);
      if s5.None? {
        return [];
      }
      a, b := s5.value.0, s5.value.1;
      assert Clip2Through(planes, p1, p2) == Clip2Through(planes[6..], a, b);
      assert planes[6..] == [];
      r := [ToWindow(viewPort, depthRange, a), ToWindow(viewPort, depthRange, b)];
    }
  }
}
