// The value types of GUtility.cs: real and integer vectors, rectangles and
// cuboids. The C# structs are values, so each is a datatype; a struct method
// that mutates its receiver (`Vec4.Normalize`) returns the new value instead.
// `I2Dimensional`/`I3Dimensional`/`I4Dimensional` arguments are `Vec2`,
// `Vec3` and `Vec4`.
module Vectors {
  import opened Numerics

  datatype Vec2 = Vec2(x: real, y: real)
  {
    function Plus(r: Vec2): Vec2 { Vec2(x + r.x, y + r.y) }
    function Minus(r: Vec2): Vec2 { Vec2(x - r.x, y - r.y) }
    function Times(s: real): Vec2 { Vec2(x * s, y * s) }
    function Dot(r: Vec2): real { x * r.x + y * r.y }
    /** The explicit `(Vec2I)` cast truncates both coordinates. */
    function ToVec2I(): Vec2I { Vec2I(Trunc(x), Trunc(y)) }
  }

  /** `Vec2.FromHomo`: divide by the homogeneous coordinate. */
  function FromHomo2(h: Vec3): (p: Vec2)
    ensures h.z != 0.0 ==> p.x * h.z == h.x && p.y * h.z == h.y
  {
    Vec2(Div(h.x, h.z), Div(h.y, h.z))
  }

  datatype Vec3 = Vec3(x: real, y: real, z: real)
  {
    function Plus(r: Vec3): Vec3 { Vec3(x + r.x, y + r.y, z + r.z) }
    function Minus(r: Vec3): Vec3 { Vec3(x - r.x, y - r.y, z - r.z) }
    function Times(s: real): Vec3 { Vec3(x * s, y * s, z * s) }
    function Dot(r: Vec3): real { x * r.x + y * r.y + z * r.z }
    function ToVec3I(): Vec3I { Vec3I(Trunc(x), Trunc(y), Trunc(z)) }
  }

  function Cross(l: Vec3, r: Vec3): (c: Vec3)
    ensures c.Dot(l) == 0.0 && c.Dot(r) == 0.0
  {
    Vec3(l.y * r.z - l.z * r.y, l.z * r.x - l.x * r.z, l.x * r.y - l.y * r.x)
  }

  /** `Vec3.FromHomo`: divide x, y and z by w. */
  function FromHomo3(h: Vec4): (p: Vec3)
    ensures h.w != 0.0 ==> p.x * h.w == h.x && p.y * h.w == h.y && p.z * h.w == h.z
  {
    Vec3(Div(h.x, h.w), Div(h.y, h.w), Div(h.z, h.w))
  }

  datatype Vec4 = Vec4(x: real, y: real, z: real, w: real)
  {
    function Plus(r: Vec4): Vec4 { Vec4(x + r.x, y + r.y, z + r.z, w + r.w) }
    function Minus(r: Vec4): Vec4 { Vec4(x - r.x, y - r.y, z - r.z, w - r.w) }

    /** `v * scalar` (either order) keeps x, y, z and divides w: it scales the
        point a homogeneous vector stands for. */
    function TimesScalar(s: real): (r: Vec4)
      ensures r.x == x && r.y == y && r.z == z
      ensures s != 0.0 ==> r.w * s == w
    {
      Vec4(x, y, z, Div(w, s))
    }

    /** `Normalize` divides x, y, z by w and sets w to 1, unless w is 0 or 1. */
    function Normalize(): (r: Vec4)
      ensures w == 0.0 || w == 1.0 ==> r == this
      ensures w != 0.0 && w != 1.0 ==>
        r.w == 1.0 && r.x * w == x && r.y * w == y && r.z * w == z
    {
      if w == 0.0 || w == 1.0 then this else Vec4(x / w, y / w, z / w, 1.0)
    }

    /** `ToCartesian` divides by w, and returns x, y, z unchanged when w is 0. */
    function ToCartesian(): (c: Vec3)
      ensures w == 0.0 ==> c == Vec3(x, y, z)
      ensures w != 0.0 ==> c.x * w == x && c.y * w == y && c.z * w == z
    {
      if w == 0.0 then Vec3(x, y, z) else Vec3(x / w, y / w, z / w)
    }

    function Xyz(): Vec3 { Vec3(x, y, z) }
  }

  /** Normalizing twice is normalizing once, and a normalized point has
      w equal to 0 or 1. */
  lemma NormalizeIdempotent(v: Vec4)
    ensures v.Normalize().Normalize() == v.Normalize()
    ensures v.Normalize().w == 0.0 || v.Normalize().w == 1.0
  {
  }

  /** After normalization the Cartesian point is the first three coordinates. */
  lemma NormalizeThenCartesian(v: Vec4)
    requires v.w != 0.0
    ensures v.Normalize().Xyz() == v.ToCartesian()
  {
  }

  datatype Vec2I = Vec2I(x: int, y: int)
  {
    function Plus(r: Vec2I): Vec2I { Vec2I(x + r.x, y + r.y) }
    function Minus(r: Vec2I): Vec2I { Vec2I(x - r.x, y - r.y) }
    function Times(s: int): Vec2I { Vec2I(x * s, y * s) }
    /** The integer dot product as written: its second term is `l.Y * l.Y`. */
    function Dot(r: Vec2I): int { x * r.x + y * y }
    function ToVec2(): Vec2 { Vec2(x as real, y as real) }
  }

  /** The `Vec2I` product ignores the right operand's Y and so is not
      symmetric: (0,1)·(0,0) is 1 while (0,0)·(0,1) is 0. */
  lemma Vec2IDotUsesLeftY(l: Vec2I, r: Vec2I)
    ensures l.Dot(r) == l.x * r.x + l.y * l.y
    ensures l.Dot(r) == l.Dot(Vec2I(r.x, 0))
    ensures Vec2I(0, 1).Dot(Vec2I(0, 0)) != Vec2I(0, 0).Dot(Vec2I(0, 1))
  {
  }

  datatype Vec3I = Vec3I(x: int, y: int, z: int)
  {
    /** `+` as written: the Z component is `l.Z + l.Y`. */
    function Plus(r: Vec3I): Vec3I { Vec3I(x + r.x, y + r.y, z + y) }
    /** `-` as written: the Z component is `l.Z - r.Y`. */
    function Minus(r: Vec3I): Vec3I { Vec3I(x - r.x, y - r.y, z - r.y) }
    function Times(s: int): Vec3I { Vec3I(x * s, y * s, z * s) }
    function Dot(r: Vec3I): int { x * r.x + y * r.y + z * r.z }
    function ToVec3(): Vec3 { Vec3(x as real, y as real, z as real) }
  }

  function CrossI(l: Vec3I, r: Vec3I): (c: Vec3I)
    ensures c.Dot(l) == 0 && c.Dot(r) == 0
  {
    Vec3I(l.y * r.z - l.z * r.y, l.z * r.x - l.x * r.z, l.x * r.y - l.y * r.x)
  }

  /** The Z components of `Vec3I` sums and differences ignore the right
      operand's Z: adding (0,0,5) to (0,1,0) gives Z = 1, and `-` subtracts
      the right operand's Y from Z. */
  lemma Vec3IMixedComponents(l: Vec3I, r: Vec3I)
    ensures l.Plus(r).z == l.z + l.y
    ensures l.Minus(r).z == l.z - r.y
    ensures Vec3I(0, 1, 0).Plus(Vec3I(0, 0, 5)) == Vec3I(0, 1, 1)
    ensures l.Plus(r).x == l.x + r.x && l.Plus(r).y == l.y + r.y
  {
  }

  datatype RectI = RectI(l: int, t: int, r: int, b: int)
  {
    function Width(): int { r - l }
    function Height(): int { b - t }
    function Area(): int { Width() * Height() }
    predicate IntersectsWith(o: RectI) { !(r < o.l || o.r < l || b < o.t || o.b < t) }
    predicate Contains(small: RectI) { r >= small.r && l <= small.l && t <= small.t && b >= small.b }
    predicate ContainsPoint(p: Vec2I) { l <= p.x && r >= p.x && t <= p.y && b >= p.y }
    function ToRect(): Rect { Rect(l as real, t as real, r as real, b as real) }
  }

  function RectIFromXYWH(x: int, y: int, w: int, h: int): (rc: RectI)
    ensures rc.l == x && rc.t == y && rc.Width() == w && rc.Height() == h
  {
    RectI(x, y, x + w, y + h)
  }

  /** Overlap of integer rectangles is symmetric; containment is reflexive,
      transitive, and carries points and overlaps along. */
  lemma RectIRelations(a: RectI, b: RectI, c: RectI, p: Vec2I)
    ensures a.IntersectsWith(b) == b.IntersectsWith(a)
    ensures a.Contains(a)
    ensures a.Contains(b) && b.Contains(c) ==> a.Contains(c)
    ensures a.Contains(b) && b.ContainsPoint(p) ==> a.ContainsPoint(p)
    ensures a.Contains(b) && b.IntersectsWith(c) ==> a.IntersectsWith(c)
  {
  }

  datatype Rect = Rect(l: real, t: real, r: real, b: real)
  {
    function Width(): real { r - l }
    function Height(): real { b - t }
    function Area(): real { Width() * Height() }
    predicate IntersectsWith(o: Rect) { !(r < o.l || o.r < l || b < o.t || o.b < t) }
    predicate Contains(small: Rect) { r >= small.r && l <= small.l && t <= small.t && b >= small.b }
    predicate ContainsPoint(p: Vec2) { l <= p.x && r >= p.x && t <= p.y && b >= p.y }
    predicate ContainsXY(px: real, py: real) { l <= px && r >= px && t <= py && b >= py }
    /** The explicit `(RectI)` cast truncates every side. */
    function ToRectI(): RectI { RectI(Trunc(l), Trunc(t), Trunc(r), Trunc(b)) }
  }

  function RectFromXYWH(x: real, y: real, w: real, h: real): (rc: Rect)
    ensures rc.l == x && rc.t == y && rc.Width() == w && rc.Height() == h
  {
    Rect(x, y, x + w, y + h)
  }

  /** The same relations for real rectangles. */
  lemma RectRelations(a: Rect, b: Rect, c: Rect, p: Vec2)
    ensures a.IntersectsWith(b) == b.IntersectsWith(a)
    ensures a.Contains(a)
    ensures a.Contains(b) && b.Contains(c) ==> a.Contains(c)
    ensures a.Contains(b) && b.ContainsPoint(p) ==> a.ContainsPoint(p)
    ensures a.ContainsPoint(p) == a.ContainsXY(p.x, p.y)
  {
  }

  /** Truncating a rectangle keeps the truncation of every point it contains. */
  lemma ToRectIContains(rc: Rect, p: Vec2)
    requires rc.ContainsPoint(p)
    ensures rc.ToRectI().ContainsPoint(p.ToVec2I())
  {
    TruncMonotone(rc.l, p.x);
    TruncMonotone(p.x, rc.r);
    TruncMonotone(rc.t, p.y);
    TruncMonotone(p.y, rc.b);
  }

  datatype Cuboid = Cuboid(l: real, t: real, n: real, r: real, b: real, f: real)
  {
    function Width(): real { r - l }
    function Height(): real { b - t }
    function Depth(): real { f - n }
    predicate Contains(small: Cuboid)
    {
      l <= small.l && r >= small.r && t <= small.t && b >= small.b && n <= small.n && f >= small.f
    }
    predicate ContainsPoint(p: Vec3)
    {
      l <= p.x && r >= p.x && t <= p.y && b >= p.y && n <= p.z && f >= p.z
    }
    /** As written, the depth test is `N < other.F || other.N < F`, the
        reverse of the X and Y tests. */
    predicate IntersectsWith(o: Cuboid)
    {
      !(r < o.l || o.r < l || b < o.t || o.b < t || n < o.f || o.n < f)
    }
  }

  /** `Cuboid(Vec3 pos, Vec3 size)`: the far corner is pos + size. */
  function CuboidFromPosSize(pos: Vec3, size: Vec3): (c: Cuboid)
    ensures c.l == pos.x && c.t == pos.y && c.n == pos.z
    ensures c.Width() == size.x && c.Height() == size.y && c.Depth() == size.z
  {
    Cuboid(pos.x, pos.y, pos.z, pos.x + size.x, pos.y + size.y, pos.z + size.z)
  }

  /** Because of the reversed depth test, a cuboid of positive depth does not
      intersect itself (nor anything it contains that has positive depth),
      while two cuboids that overlap only in a flat depth slab do. */
  lemma CuboidIntersectionReversed(c: Cuboid, d: Cuboid)
    ensures c.n < c.f ==> !c.IntersectsWith(c)
    ensures c.Contains(d) && d.n < d.f ==> !c.IntersectsWith(d)
    ensures c.IntersectsWith(d) ==> c.f <= d.n && d.f <= c.n
  {
  }

  /** Cuboid containment is reflexive and transitive. */
  lemma CuboidContains(a: Cuboid, b: Cuboid, c: Cuboid, p: Vec3)
    ensures a.Contains(a)
    ensures a.Contains(b) && b.Contains(c) ==> a.Contains(c)
    ensures a.Contains(b) && b.ContainsPoint(p) ==> a.ContainsPoint(p)
  {
  }
}
