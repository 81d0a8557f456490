// GConstructor.cs: `GConstructor2D.GetRectangle` splits an axis-aligned
// rectangle into two 2D triangles that share the diagonal from the top-right
// to the bottom-left corner and the same transform.
module GConstructors {
  import opened Numerics
  import opened Vectors
  import opened GObjects
  import TMakers2D

  /** The corners of the first triangle: top-left, top-right, bottom-left. */
  function UpperTriangle(l: real, t: real, r: real, b: real, w: real): (ps: seq<Vec3>)
    ensures |ps| == 3 && ps[0].x == l && ps[0].y == t && ps[1].x == r && ps[2].y == b
    ensures forall k :: 0 <= k < 3 ==> ps[k].z == w
  {
    [Vec3(l, t, w), Vec3(r, t, w), Vec3(l, b, w)]
  }

  /** The corners of the second triangle: top-right, bottom-right,
      bottom-left. */
  function LowerTriangle(l: real, t: real, r: real, b: real, w: real): (ps: seq<Vec3>)
    ensures |ps| == 3 && ps[0].x == r && ps[0].y == t && ps[1].x == r && ps[1].y == b
    ensures forall k :: 0 <= k < 3 ==> ps[k].z == w
  {
    [Vec3(r, t, w), Vec3(r, b, w), Vec3(l, b, w)]
  }

  /** The two triangles share the diagonal: the top-right and bottom-left
      corners appear in both. */
  lemma SharedDiagonal(l: real, t: real, r: real, b: real, w: real)
    ensures UpperTriangle(l, t, r, b, w)[1] == LowerTriangle(l, t, r, b, w)[0] == Vec3(r, t, w)
    ensures UpperTriangle(l, t, r, b, w)[2] == LowerTriangle(l, t, r, b, w)[2] == Vec3(l, b, w)
  {
  }

  /** `GetRectangle(l, t, r, b, w, tmaker)`: two fresh triangles on fresh
      point arrays, sharing `tmaker`. */
  method GetRectangle(l: real, t: real, r: real, b: real, w: real, tmaker: TMakers2D.TMaker2D?)
    returns (objs: array<GObject2D>)
    ensures fresh(objs) && objs.Length == 2 && fresh(objs[0]) && fresh(objs[1])
    ensures objs[0] != objs[1] && fresh(objs[0].points) && fresh(objs[1].points)
    ensures objs[0].points != objs[1].points
    ensures objs[0].points[..] == UpperTriangle(l, t, r, b, w)
    ensures objs[1].points[..] == LowerTriangle(l, t, r, b, w)
    ensures objs[0].tmaker == tmaker && objs[1].tmaker == tmaker
    ensures objs[0].boundaries == Bounds2(objs[0].points[..])
    ensures objs[1].boundaries == Bounds2(objs[1].points[..])
    ensures DoubleMin <= l < r <= DoubleMax && DoubleMin <= t < b <= DoubleMax ==>
              objs[0].boundaries == Rect(l, t, r, b) && objs[1].boundaries == Rect(l, t, r, b)
  {
    var upper := new GObject2D.Triangle(Vec3(l, t, w), Vec3(r, t, w), Vec3(l, b, w), tmaker);
    var lower := new GObject2D.Triangle(Vec3(r, t, w), Vec3(r, b, w), Vec3(l, b, w), tmaker);
    objs := new GObject2D[2] [upper, lower];
    if DoubleMin <= l < r <= DoubleMax && DoubleMin <= t < b <= DoubleMax {
      TriangleBounds(l, t, r, b, w);
    }
  }

  /** `GetRectangle(rect, w, tmaker)`: forwards the rectangle's sides. */
  method GetRectangleOf(rect: Rect, w: real, tmaker: TMakers2D.TMaker2D?) returns (objs: array<GObject2D>)
    ensures fresh(objs) && objs.Length == 2 && fresh(objs[0]) && fresh(objs[1])
    ensures objs[0] != objs[1] && fresh(objs[0].points) && fresh(objs[1].points)
    ensures objs[0].points != objs[1].points
    ensures objs[0].points[..] == UpperTriangle(rect.l, rect.t, rect.r, rect.b, w)
    ensures objs[1].points[..] == LowerTriangle(rect.l, rect.t, rect.r, rect.b, w)
    ensures objs[0].tmaker == tmaker && objs[1].tmaker == tmaker
    ensures DoubleMin <= rect.l < rect.r <= DoubleMax && DoubleMin <= rect.t < rect.b <= DoubleMax ==>
              objs[0].boundaries == rect && objs[1].boundaries == rect
  {
    objs := GetRectangle(rect.l, rect.t, rect.r, rect.b, w, tmaker);
  }

  /** `GetRectangle(rect, tmaker)`: w defaults to 1. */
  method GetRectangleUnit(rect: Rect, tmaker: TMakers2D.TMaker2D?) returns (objs: array<GObject2D>)
    ensures fresh(objs) && objs.Length == 2 && fresh(objs[0]) && fresh(objs[1])
    ensures objs[0] != objs[1] && fresh(objs[0].points) && fresh(objs[1].points)
    ensures objs[0].points != objs[1].points
    ensures objs[0].points[..] == UpperTriangle(rect.l, rect.t, rect.r, rect.b, 1.0)
    ensures objs[1].points[..] == LowerTriangle(rect.l, rect.t, rect.r, rect.b, 1.0)
    ensures objs[0].tmaker == tmaker && objs[1].tmaker == tmaker
    ensures DoubleMin <= rect.l < rect.r <= DoubleMax && DoubleMin <= rect.t < rect.b <= DoubleMax ==>
              objs[0].boundaries == rect && objs[1].boundaries == rect
  {
    objs := GetRectangle(rect.l, rect.t, rect.r, rect.b, 1.0, tmaker);
  }
}
