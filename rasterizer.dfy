// `Rasterizer` (Rasterizer.cs): turns a point, a segment or a polygon into
// pixels, given as a list, painted into a `Screen<T>`, or inserted into a
// `ZBuffer<T>` with interpolated depths. Segments are walked with the
// integer line walk of the Lines module; polygons mark their edges in the
// indicator map `idcMap` and are then filled column by column as described
// in the Fills module. Coordinates are truncated to int and shifted by the
// offsets before use.
module Rasterizers {
  import opened Numerics
  import opened Vectors
  import opened Geometry
  import opened Lines
  import opened Fills
  import opened Screens
  import opened Scans

  /** The x and y of a 3D point, as `I2Dimensional` sees it. */
  function XY(p: Vec3): Vec2
  {
    Vec2(p.x, p.y)
  }

  /** The segment between two points, truncated and shifted. */
  function LineFrom(from: Vec2, to: Vec2, offsetX: int, offsetY: int): Line
  {
    Line(Trunc(from.x) - offsetX, Trunc(from.y) - offsetY, Trunc(to.x) - offsetX, Trunc(to.y) - offsetY)
  }

  /** A cell of a w-by-h grid. */
  predicate InSize(p: Vec2I, w: int, h: int)
  {
    0 <= p.x < w && 0 <= p.y < h
  }

  /** The per-step depth increments of the ZBuffer `rasterLine`: the
      depth change over each axis's extent, each divided by the number of
      axes that move at all. */
  function LineSlopes(l: Line, z0: real, z1: real): (real, real)
  {
    var dz := z1 - z0;
    var znorm := (if l.DY() > 0 then 1 else 0) + (if l.DX() > 0 then 1 else 0);
    var dzy := if l.DY() > 0 then dz / l.DY() as real else 0.0;
    var dzx := if l.DX() > 0 then dz / l.DX() as real else 0.0;
    (Div(dzx, znorm as real), Div(dzy, znorm as real))
  }

  /** The per-step depth increments of the ZBuffer `indicateScanLine`:
      with a vertical extent half the change goes to each axis. An edge
      without horizontal extent writes nothing, so its increments do not
      matter. */
  function EdgeSlopes(l: Line, z0: real, z1: real): (real, real)
  {
    var dz := z1 - z0;
    var half := if l.DY() > 0 then dz / 2.0 else dz;
    (Div(half, l.DX() as real), if l.DY() > 0 then half / l.DY() as real else 0.0)
  }

  lemma NegQuotient(a: real, b: real)
    requires b != 0.0
    ensures -a / -b == a / b
  {
  }

  /** One iteration of the walk after the exit test, as every loop of
      `Rasterizer` writes it: `e2 = err + err`, then an x-step when
      `e2 > dy` and a y-step when `e2 < dx`, where dx, dy, sx and sy are
      the loop's constants. */
  method Advance(ghost l: Line, x1: int, y1: int, err: int, dx: int, dy: int, sx: int, sy: int)
    returns (x: int, y: int, e: int)
    requires dx == l.DX() && dy == -(l.DY() as int) && sx == l.SX() && sy == l.SY()
    ensures Walker(x, y, e) == Step(l, Walker(x1, y1, err))
  {
    x, y, e := x1, y1, err;
    var e2 := err + err;
    if e2 > dy {
      e := e + dy;
      x := x + sx;
    }
    if e2 < dx {
      e := e + dx;
      y := y + sy;
    }
  }

  /** The same iteration in the depth-interpolating loops: z moves by dzx
      with every x-step and by dzy with every y-step, so it stays the depth
      interpolated at the walker's pixel. */
  method AdvanceDepth(ghost l: Line, ghost k: nat, ghost z0: real, x1: int, y1: int, err: int, z: real,
                      dx: int, dy: int, sx: int, sy: int, dzx: real, dzy: real)
    returns (x: int, y: int, e: int, z': real)
    requires dx == l.DX() && dy == -(l.DY() as int) && sx == l.SX() && sy == l.SY()
    requires k <= l.Steps() && Walker(x1, y1, err) == Walk(l, k) && !AtEnd(l, Walk(l, k))
    requires z == DepthAt(l, z0, dzx, dzy, Vec2I(x1, y1))
    ensures Walker(x, y, e) == Walk(l, k + 1)
    ensures z' == DepthAt(l, z0, dzx, dzy, Vec2I(x, y))
  {
    x, y, e, z' := x1, y1, err, z;
    var e2 := err + err;
    if e2 > dy {
      e := e + dy;
      x := x + sx;
      z' := z' + dzx;
    }
    if e2 < dx {
      e := e + dx;
      y := y + sy;
      z' := z' + dzy;
    }
    DepthStep(l, k, z0, dzx, dzy);
  }

  /** The loop of `rasterLine` into a screen, from (x1, y1) to (x2, y2):
      paints the pixels of the segment in order. The first pixel outside
      the screen, pixel n, stops it with an error; the n pixels before it
      stay painted. */
  method PaintLine<T>(x1: int, y1: int, x2: int, y2: int, item: T, screen: Screen<T>) returns (r: Result<()>, ghost n: nat)
    modifies screen.items
    ensures var ps := LinePixels(Line(x1, y1, x2, y2));
            n <= |ps| && (forall m :: 0 <= m < n ==> InSize(ps[m], screen.items.Length0, screen.items.Length1)) &&
            (r.Ok? <==> n == |ps|) &&
            (r.Err? ==> r.error == IndexOutOfRange && !InSize(ps[n], screen.items.Length0, screen.items.Length1)) &&
            forall i, j :: 0 <= i < screen.items.Length0 && 0 <= j < screen.items.Length1 ==>
              screen.items[i, j] == if Vec2I(i, j) in ps[..n] then item else old(screen.items[i, j])
  {
    var x1, y1 := x1, y1;
    ghost var l := Line(x1, y1, x2, y2);
    ghost var ps := LinePixels(l);
    ghost var w, h := screen.items.Length0, screen.items.Length1;
    var dx := Abs(x2 - x1);
    var dy := -(Abs(y2 - y1) as int);
    var sx := if x2 > x1 then 1 else -1;
    var sy := if y2 > y1 then 1 else -1;
    var err := dx + dy;
    ghost var k: nat := 0;
    ghost var done: seq<Vec2I> := [];
    PixelAt(l, 0);
    while true
      invariant k <= l.Steps() && Walker(x1, y1, err) == Walk(l, k) && |ps| == l.Steps() + 1
      invariant done == ps[..k]
      invariant forall p :: p in done ==> InSize(p, w, h)
      invariant forall i, j :: 0 <= i < w && 0 <= j < h ==>
                  screen.items[i, j] == if Vec2I(i, j) in done then item else old(screen.items[i, j])
      decreases l.Steps() - k
    {
      WalkEnd(l, k);
      PixelAt(l, k);
      var written := screen.Set(x1, y1, item);
      if written.Err? {
        return Err(IndexOutOfRange), k;
      }
      assert InSize(ps[k], w, h);
      assert ps[..k + 1] == ps[..k] + [Vec2I(x1, y1)];
      done := done + [Vec2I(x1, y1)];
      if y1 == y2 && x1 == x2 {
        assert ps[..k + 1] == ps;
        return Ok(()), k + 1;
      }
      x1, y1, err := Advance(l, x1, y1, err, dx, dy, sx, sy);
      k := k + 1;
    }
  }

  /** The loop of `rasterLine` into a z-buffer: inserts the pixels of the
      segment in order, each at the depth interpolated from z by the
      increments dzx and dzy. The first pixel outside the buffer, pixel n,
      stops it with an error. The pixels are distinct, so each cell sees
      at most one insertion. */
  method InsertLine<T>(x1: int, y1: int, x2: int, y2: int, z: real, dzx: real, dzy: real, item: T, zb: ZBuffer<T>)
    returns (r: Result<()>, ghost n: nat)
    requires zb.Valid()
    modifies zb.items, zb.zs
    ensures var l := Line(x1, y1, x2, y2);
            var ps := LinePixels(l);
            n <= |ps| && (forall m :: 0 <= m < n ==> InSize(ps[m], zb.width, zb.height)) &&
            (r.Ok? <==> n == |ps|) &&
            (r.Err? ==> r.error == IndexOutOfRange && !InSize(ps[n], zb.width, zb.height)) &&
            forall i, j :: zb.InRange(i, j) ==>
              zb.Cell(i, j) == if Vec2I(i, j) in ps[..n]
                               then Insertion(old(zb.Cell(i, j)), DepthAt(l, z, dzx, dzy, Vec2I(i, j)), item)
                               else old(zb.Cell(i, j))
  {
    var x1, y1, z := x1, y1, z;
    ghost var z0 := z;
    ghost var l := Line(x1, y1, x2, y2);
    ghost var ps := LinePixels(l);
    var dx := Abs(x2 - x1);
    var dy := -(Abs(y2 - y1) as int);
    var sx := if x2 > x1 then 1 else -1;
    var sy := if y2 > y1 then 1 else -1;
    var err := dx + dy;
    ghost var k: nat := 0;
    ghost var done: seq<Vec2I> := [];
    PixelAt(l, 0);
    while true
      invariant k <= l.Steps() && Walker(x1, y1, err) == Walk(l, k) && |ps| == l.Steps() + 1
      invariant z == DepthAt(l, z0, dzx, dzy, Vec2I(x1, y1))
      invariant done == ps[..k]
      invariant forall p :: p in done ==> InSize(p, zb.width, zb.height)
      invariant forall i, j :: zb.InRange(i, j) ==>
                  zb.Cell(i, j) == if Vec2I(i, j) in done
                                   then Insertion(old(zb.Cell(i, j)), DepthAt(l, z0, dzx, dzy, Vec2I(i, j)), item)
                                   else old(zb.Cell(i, j))
      decreases l.Steps() - k
    {
      WalkEnd(l, k);
      PixelAt(l, k);
      var inserted := zb.Insert(x1, y1, z, item);
      if inserted.Err? {
        return Err(IndexOutOfRange), k;
      }
      assert InSize(ps[k], zb.width, zb.height);
      assert ps[..k + 1] == ps[..k] + [Vec2I(x1, y1)];
      done := done + [Vec2I(x1, y1)];
      if y1 == y2 && x1 == x2 {
        assert ps[..k + 1] == ps;
        return Ok(()), k + 1;
      }
      x1, y1, err, z := AdvanceDepth(l, k, z0, x1, y1, err, z, dx, dy, sx, sy, dzx, dzy);
      k := k + 1;
    }
  }

  /** The loop of `indicateScanLine` on the map a, from (x1, y1) to
      (x2, y2): every iteration that moves x writes 0 into the cell it
      enters, before the y-step. The first such cell outside the map, mark
      n, stops it with an error; the n marks before it stay written. */
  method MarkEdge(x1: int, y1: int, x2: int, y2: int, a: array2<real>) returns (r: Result<()>, ghost n: nat)
    modifies a
    ensures var cs := LineMarks(Line(x1, y1, x2, y2));
            n <= |cs| && (forall m :: 0 <= m < n ==> InSize(cs[m], a.Length0, a.Length1)) &&
            (r.Ok? <==> n == |cs|) &&
            (r.Err? ==> r.error == IndexOutOfRange && !InSize(cs[n], a.Length0, a.Length1)) &&
            forall i, j :: 0 <= i < a.Length0 && 0 <= j < a.Length1 ==>
              a[i, j] == if Vec2I(i, j) in cs[..n] then 0.0 else old(a[i, j])
  {
    var x1, y1 := x1, y1;
    ghost var l := Line(x1, y1, x2, y2);
    ghost var cs := LineMarks(l);
    ghost var w, h := a.Length0, a.Length1;
    var dx := Abs(x2 - x1);
    var dy := -(Abs(y2 - y1) as int);
    var sx := if x2 > x1 then 1 else -1;
    var sy := if y2 > y1 then 1 else -1;
    var err := dx + dy;
    ghost var k: nat := 0;
    ghost var done: seq<Vec2I> := [];
    WalkOffset(l, 0);
    MarksCount(l);
    while true
      invariant k <= l.Steps() && Walker(x1, y1, err) == Walk(l, k) && |cs| == l.DX()
      invariant 0 <= A(l, Walk(l, k)) <= |cs| && done == cs[..A(l, Walk(l, k))]
      invariant forall p :: p in done ==> InSize(p, w, h)
      invariant forall i, j :: 0 <= i < w && 0 <= j < h ==>
                  a[i, j] == if Vec2I(i, j) in done then 0.0 else old(a[i, j])
      decreases l.Steps() - k
    {
      MarkAt(l, k);
      WalkEnd(l, k);
      if y1 == y2 && x1 == x2 {
        assert done == cs;
        return Ok(()), |cs|;
      }
      MarksTaken(l, k);
      ghost var before := Walker(x1, y1, err);
      ghost var cell := Vec2I(x1 + sx, y1);
      var written;
      x1, y1, err, written := MarkStep(l, x1, y1, err, dx, dy, sx, sy, a);
      if written.Err? {
        return Err(IndexOutOfRange), |done|;
      }
      if XMove(l, before) {
        done := done + [cell];
      }
      k := k + 1;
    }
  }

  /** One iteration of `indicateScanLine` after the exit test: the walk's
      step, with a write of 0 into the cell entered by the x-step. A cell
      outside the map stops it with an error before the write. */
  method MarkStep(ghost l: Line, x1: int, y1: int, err: int, dx: int, dy: int, sx: int, sy: int, a: array2<real>)
    returns (x: int, y: int, e: int, r: Result<()>)
    requires dx == l.DX() && dy == -(l.DY() as int) && sx == l.SX() && sy == l.SY()
    modifies a
    ensures r.Ok? ==> Walker(x, y, e) == Step(l, Walker(x1, y1, err))
    ensures r.Err? <==> XMove(l, Walker(x1, y1, err)) && !InSize(Vec2I(x1 + sx, y1), a.Length0, a.Length1)
    ensures r.Err? ==> r.error == IndexOutOfRange
    ensures forall i, j :: 0 <= i < a.Length0 && 0 <= j < a.Length1 ==>
              a[i, j] == if r.Ok? && XMove(l, Walker(x1, y1, err)) && Vec2I(i, j) == Vec2I(x1 + sx, y1)
                         then 0.0 else old(a[i, j])
  {
    x, y, e, r := x1, y1, err, Ok(());
    var e2 := err + err;
    if e2 > dy {
      e := e + dy;
      x := x + sx;
      if !(0 <= x < a.Length0 && 0 <= y < a.Length1) {
        r := Err(IndexOutOfRange);
        return;
      }
      a[x, y] := 0.0;
    }
    if e2 < dx {
      e := e + dx;
      y := y + sy;
    }
  }

  /** The loop of the ZBuffer `indicateScanLine`: as `MarkEdge`, but z
      starts at the first end point's depth, moves by dzx with every
      x-step and by dzy with every y-step, and the value written into the
      cell entered by an x-step is z after that step: the depth
      interpolated at the cell. */
  method MarkEdgeDepth(x1: int, y1: int, x2: int, y2: int, z: real, dzx: real, dzy: real, a: array2<real>)
    returns (r: Result<()>, ghost n: nat)
    modifies a
    ensures var l := Line(x1, y1, x2, y2);
            var cs := LineMarks(l);
            n <= |cs| && (forall m :: 0 <= m < n ==> InSize(cs[m], a.Length0, a.Length1)) &&
            (r.Ok? <==> n == |cs|) &&
            (r.Err? ==> r.error == IndexOutOfRange && !InSize(cs[n], a.Length0, a.Length1)) &&
            forall i, j :: 0 <= i < a.Length0 && 0 <= j < a.Length1 ==>
              a[i, j] == if Vec2I(i, j) in cs[..n] then DepthAt(l, z, dzx, dzy, Vec2I(i, j)) else old(a[i, j])
  {
    var x1, y1, z := x1, y1, z;
    ghost var z0 := z;
    ghost var l := Line(x1, y1, x2, y2);
    ghost var cs := LineMarks(l);
    ghost var w, h := a.Length0, a.Length1;
    var dx := Abs(x2 - x1);
    var dy := -(Abs(y2 - y1) as int);
    var sx := if x2 > x1 then 1 else -1;
    var sy := if y2 > y1 then 1 else -1;
    var err := dx + dy;
    ghost var k: nat := 0;
    ghost var done: seq<Vec2I> := [];
    WalkOffset(l, 0);
    MarksCount(l);
    while true
      invariant k <= l.Steps() && Walker(x1, y1, err) == Walk(l, k) && |cs| == l.DX()
      invariant z == DepthAt(l, z0, dzx, dzy, Vec2I(x1, y1))
      invariant 0 <= A(l, Walk(l, k)) <= |cs| && done == cs[..A(l, Walk(l, k))]
      invariant forall p :: p in done ==> InSize(p, w, h)
      invariant forall i, j :: 0 <= i < w && 0 <= j < h ==>
                  a[i, j] == if Vec2I(i, j) in done then DepthAt(l, z0, dzx, dzy, Vec2I(i, j)) else old(a[i, j])
      decreases l.Steps() - k
    {
      MarkAt(l, k);
      WalkEnd(l, k);
      if y1 == y2 && x1 == x2 {
        assert done == cs;
        return Ok(()), |cs|;
      }
      MarksTaken(l, k);
      ghost var before := Walker(x1, y1, err);
      ghost var cell := Vec2I(x1 + sx, y1);
      var written;
      x1, y1, err, z, written := MarkStepDepth(l, z0, x1, y1, err, z, dx, dy, sx, sy, dzx, dzy, a);
      if written.Err? {
        return Err(IndexOutOfRange), |done|;
      }
      if XMove(l, before) {
        done := done + [cell];
      }
      k := k + 1;
    }
  }

  /** One iteration of the ZBuffer `indicateScanLine` after the exit test:
      `MarkStep` with z carried along, so that it stays the depth
      interpolated at the walker's pixel and the value written is the
      depth interpolated at the marked cell. */
  method MarkStepDepth(ghost l: Line, ghost z0: real, x1: int, y1: int, err: int, z: real,
                       dx: int, dy: int, sx: int, sy: int, dzx: real, dzy: real, a: array2<real>)
    returns (x: int, y: int, e: int, z': real, r: Result<()>)
    requires dx == l.DX() && dy == -(l.DY() as int) && sx == l.SX() && sy == l.SY()
    requires z == DepthAt(l, z0, dzx, dzy, Vec2I(x1, y1))
    modifies a
    ensures r.Ok? ==> Walker(x, y, e) == Step(l, Walker(x1, y1, err)) && z' == DepthAt(l, z0, dzx, dzy, Vec2I(x, y))
    ensures r.Err? <==> XMove(l, Walker(x1, y1, err)) && !InSize(Vec2I(x1 + sx, y1), a.Length0, a.Length1)
    ensures r.Err? ==> r.error == IndexOutOfRange
    ensures forall i, j :: 0 <= i < a.Length0 && 0 <= j < a.Length1 ==>
              a[i, j] == if r.Ok? && XMove(l, Walker(x1, y1, err)) && Vec2I(i, j) == Vec2I(x1 + sx, y1)
                         then DepthAt(l, z0, dzx, dzy, Vec2I(i, j)) else old(a[i, j])
  {
    x, y, e, z', r := x1, y1, err, z, Ok(());
    var e2 := err + err;
    if e2 > dy {
      e := e + dy;
      x := x + sx;
      z' := z' + dzx;
      DepthMove(l, Vec2I(x1, y1), Vec2I(x, y), z0, dzx, dzy, true, false);
      if !(0 <= x < a.Length0 && 0 <= y < a.Length1) {
        r := Err(IndexOutOfRange);
        return;
      }
      a[x, y] := z';
    }
    if e2 < dx {
      e := e + dx;
      y := y + sy;
      z' := z' + dzy;
      DepthMove(l, Vec2I(x, y1), Vec2I(x, y), z0, dzx, dzy, false, true);
    }
  }

  // ---------------------------------------------------------------------
  // Polygons: the marks of the edges and the box that is scanned
  // ---------------------------------------------------------------------

  /** The far end of edge k of a closed polygon: the next vertex, and the
      first vertex after the last one. */
  function EdgeTo<P>(poly: seq<P>, k: int): P
    requires 0 <= k < |poly|
  {
    if k + 1 < |poly| then poly[k + 1] else poly[0]
  }

  /** The segment of edge k, truncated and shifted. */
  function EdgeLine(poly: seq<Vec2>, k: int, offX: int, offY: int): Line
    requires 0 <= k < |poly|
  {
    LineFrom(poly[k], EdgeTo(poly, k), offX, offY)
  }

  /** The x and y of every vertex. */
  function XYs(poly: seq<Vec3>): (ps: seq<Vec2>)
    ensures |ps| == |poly| && forall k :: 0 <= k < |poly| ==> ps[k] == XY(poly[k])
  {
    seq(|poly|, k requires 0 <= k < |poly| => XY(poly[k]))
  }

  /** The writes of the 2D `indicateScanLine` for edge k: 0 in every mark
      of the edge, in order. */
  function EdgeMarks(poly: seq<Vec2>, k: int, offX: int, offY: int): seq<Mark<real>>
    requires 0 <= k < |poly|
  {
    ByCell(LineMarks(EdgeLine(poly, k, offX, offY)), p => 0.0)
  }

  /** The writes of the 3D `indicateScanLine` for edge k: in every mark of
      the edge, the depth interpolated from the edge's first vertex with
      the increments of `EdgeSlopes`. An edge without horizontal extent
      has no marks. */
  function EdgeMarksDepth(poly: seq<Vec3>, k: int, offX: int, offY: int): seq<Mark<real>>
    requires 0 <= k < |poly|
  {
    var l := EdgeLine(XYs(poly), k, offX, offY);
    var slopes := EdgeSlopes(l, poly[k].z, EdgeTo(poly, k).z);
    ByCell(LineMarks(l), p => DepthAt(l, poly[k].z, slopes.0, slopes.1, p))
  }

  /** The writes of every edge, edge by edge. */
  function EdgeList(poly: seq<Vec2>, offX: int, offY: int): (ess: seq<seq<Mark<real>>>)
    ensures |ess| == |poly| && forall k :: 0 <= k < |poly| ==> ess[k] == EdgeMarks(poly, k, offX, offY)
  {
    seq(|poly|, k requires 0 <= k < |poly| => EdgeMarks(poly, k, offX, offY))
  }

  function EdgeListDepth(poly: seq<Vec3>, offX: int, offY: int): (ess: seq<seq<Mark<real>>>)
    ensures |ess| == |poly| && forall k :: 0 <= k < |poly| ==> ess[k] == EdgeMarksDepth(poly, k, offX, offY)
  {
    seq(|poly|, k requires 0 <= k < |poly| => EdgeMarksDepth(poly, k, offX, offY))
  }

  /** All writes `rasterPoly` makes into the indicator map before the
      scan: edges 0 to n-2 from vertex k to vertex k + 1, then the closing
      edge from the last vertex to the first. */
  function PolyMarks(poly: seq<Vec2>, offX: int, offY: int): seq<Mark<real>>
  {
    Flatten(EdgeList(poly, offX, offY))
  }

  function PolyMarksDepth(poly: seq<Vec3>, offX: int, offY: int): seq<Mark<real>>
  {
    Flatten(EdgeListDepth(poly, offX, offY))
  }

  /** The box `rasterPoly` scans: `(RectI)GetBounds(poly)` shifted by the
      offsets. */
  function PolyBox(poly: seq<Vec2>, offX: int, offY: int): RectI
    requires |poly| > 0
  {
    var b := BoundsOf(poly).ToRectI();
    RectI(b.l - offX, b.t - offY, b.r - offX, b.b - offY)
  }

  function InSizeOf(w: int, h: int): Vec2I -> bool
  {
    (p: Vec2I) => InSize(p, w, h)
  }

  function InBoxOf(box: RectI): Vec2I -> bool
  {
    (p: Vec2I) => InBox(box, p.x, p.y)
  }

  /** Every write lands in a w-by-h map. */
  predicate Fits(ms: seq<Mark<real>>, w: int, h: int)
  {
    AllCells(ms, InSizeOf(w, h))
  }

  /** The box of a polygon is never empty. */
  lemma PolyBoxProper(poly: seq<Vec2>, offX: int, offY: int)
    requires |poly| > 0
    ensures var box := PolyBox(poly, offX, offY); box.l <= box.r && box.t <= box.b
  {
    var rc := BoundsOf(poly);
    TruncMonotone(rc.l, rc.r);
    TruncMonotone(rc.t, rc.b);
  }

  /** The marks of an edge lie between its end points, and so in the box
      of the polygon: truncation is monotone. */
  lemma EdgeInBox(poly: seq<Vec2>, k: int, offX: int, offY: int)
    requires 0 <= k < |poly|
    ensures AllCells(EdgeMarks(poly, k, offX, offY), InBoxOf(PolyBox(poly, offX, offY)))
  {
    var rc := BoundsOf(poly);
    var l := EdgeLine(poly, k, offX, offY);
    var box := PolyBox(poly, offX, offY);
    var ms := LineMarks(l);
    var p, q := poly[k], EdgeTo(poly, k);
    assert rc.ContainsXY(p.x, p.y) && rc.ContainsXY(q.x, q.y);
    TruncMonotone(rc.l, p.x);
    TruncMonotone(p.x, rc.r);
    TruncMonotone(rc.t, p.y);
    TruncMonotone(p.y, rc.b);
    TruncMonotone(rc.l, q.x);
    TruncMonotone(q.x, rc.r);
    TruncMonotone(rc.t, q.y);
    TruncMonotone(q.y, rc.b);
    LineMarksProperties(l);
    forall m | 0 <= m < |ms| ensures InBox(box, ms[m].x, ms[m].y) {
      assert l.InBox(ms[m]);
    }
  }

  /** The marks of a 3D edge are those of its 2D shadow. */
  lemma EdgeInBoxDepth(poly: seq<Vec3>, k: int, offX: int, offY: int)
    requires 0 <= k < |poly|
    ensures AllCells(EdgeMarksDepth(poly, k, offX, offY), InBoxOf(PolyBox(XYs(poly), offX, offY)))
  {
    EdgeInBox(XYs(poly), k, offX, offY);
  }

  /** Every mark of a polygon lies in its box. */
  lemma PolyMarksInBox(poly: seq<Vec2>, offX: int, offY: int)
    requires |poly| > 0
    ensures AllCells(PolyMarks(poly, offX, offY), InBoxOf(PolyBox(poly, offX, offY)))
  {
    var ess := EdgeList(poly, offX, offY);
    var P := InBoxOf(PolyBox(poly, offX, offY));
    forall k | 0 <= k < |ess| ensures AllCells(ess[k], P) {
      EdgeInBox(poly, k, offX, offY);
    }
    FlattenAll(ess, P);
  }

  lemma PolyMarksDepthInBox(poly: seq<Vec3>, offX: int, offY: int)
    requires |poly| > 0
    ensures AllCells(PolyMarksDepth(poly, offX, offY), InBoxOf(PolyBox(XYs(poly), offX, offY)))
  {
    var ess := EdgeListDepth(poly, offX, offY);
    var P := InBoxOf(PolyBox(XYs(poly), offX, offY));
    forall k | 0 <= k < |ess| ensures AllCells(ess[k], P) {
      EdgeInBoxDepth(poly, k, offX, offY);
    }
    FlattenAll(ess, P);
  }

  /** An indicator map without marks has none again after a polygon is
      filled: every mark lies in the box, and the scan resets every cell
      of the box. */
  lemma PolyScanRestores(poly: seq<Vec2>, offX: int, offY: int, g0: Grid<real>)
    requires |poly| > 0 && AllEmpty(g0)
    ensures AllEmpty(ClearBox(Stamp(g0, PolyMarks(poly, offX, offY)), PolyBox(poly, offX, offY)))
  {
    var ms, box := PolyMarks(poly, offX, offY), PolyBox(poly, offX, offY);
    PolyMarksInBox(poly, offX, offY);
    assert forall k :: 0 <= k < |ms| ==> InBoxOf(box)(ms[k].cell);
    EmptyRestored(g0, ms, box);
  }

  lemma PolyScanDepthRestores(poly: seq<Vec3>, offX: int, offY: int, g0: Grid<real>)
    requires |poly| > 0 && AllEmpty(g0)
    ensures AllEmpty(ClearBox(Stamp(g0, PolyMarksDepth(poly, offX, offY)), PolyBox(XYs(poly), offX, offY)))
  {
    var ms, box := PolyMarksDepth(poly, offX, offY), PolyBox(XYs(poly), offX, offY);
    PolyMarksDepthInBox(poly, offX, offY);
    assert forall k :: 0 <= k < |ms| ==> InBoxOf(box)(ms[k].cell);
    EmptyRestored(g0, ms, box);
  }

  /** Stamping the writes of edge k after earlier writes: a mark of the
      edge holds 0, every other cell what the earlier writes left. */
  lemma EdgeStamp(g: Grid<real>, ms: seq<Mark<real>>, poly: seq<Vec2>, k: int, offX: int, offY: int, i: int, j: int)
    requires 0 <= k < |poly| && 0 <= i < |g| && 0 <= j < |g[i]|
    ensures Stamp(g, ms + EdgeMarks(poly, k, offX, offY))[i][j] ==
            if Vec2I(i, j) in LineMarks(EdgeLine(poly, k, offX, offY)) then 0.0 else Stamp(g, ms)[i][j]
  {
    var cs := LineMarks(EdgeLine(poly, k, offX, offY));
    var f := (p: Vec2I) => 0.0;
    assert EdgeMarks(poly, k, offX, offY) == ByCell(cs, f);
    StampThenByCell(g, ms, cs, f, i, j);
  }

  /** The same for the 3D edge, whose marks hold interpolated depths. */
  lemma EdgeStampDepth(g: Grid<real>, ms: seq<Mark<real>>, poly: seq<Vec3>, k: int, offX: int, offY: int, i: int, j: int)
    requires 0 <= k < |poly| && 0 <= i < |g| && 0 <= j < |g[i]|
    ensures var l := EdgeLine(XYs(poly), k, offX, offY);
            var slopes := EdgeSlopes(l, poly[k].z, EdgeTo(poly, k).z);
            Stamp(g, ms + EdgeMarksDepth(poly, k, offX, offY))[i][j] ==
              if Vec2I(i, j) in LineMarks(l) then DepthAt(l, poly[k].z, slopes.0, slopes.1, Vec2I(i, j)) else Stamp(g, ms)[i][j]
  {
    var l := EdgeLine(XYs(poly), k, offX, offY);
    var slopes := EdgeSlopes(l, poly[k].z, EdgeTo(poly, k).z);
    var cs := LineMarks(l);
    var f := (p: Vec2I) => DepthAt(l, poly[k].z, slopes.0, slopes.1, p);
    assert EdgeMarksDepth(poly, k, offX, offY) == ByCell(cs, f);
    StampThenByCell(g, ms, cs, f, i, j);
  }

  /** A grid that differs from `g` exactly on the cells of edge k, where it
      holds 0, is `g` stamped with the edge's marks. */
  lemma EdgeStamped(g: Grid<real>, g': Grid<real>, poly: seq<Vec2>, k: int, offX: int, offY: int, w: int, h: int)
    requires 0 <= k < |poly| && IsGrid(g, w, h) && IsGrid(g', w, h)
    requires forall i, j :: 0 <= i < w && 0 <= j < h ==>
               g'[i][j] == if Vec2I(i, j) in LineMarks(EdgeLine(poly, k, offX, offY)) then 0.0 else g[i][j]
    ensures g' == Stamp(g, EdgeMarks(poly, k, offX, offY))
  {
    var ms := EdgeMarks(poly, k, offX, offY);
    assert [] + ms == ms;
    forall i, j | 0 <= i < w && 0 <= j < h
      ensures g'[i][j] == Stamp(g, ms)[i][j]
    {
      EdgeStamp(g, [], poly, k, offX, offY, i, j);
    }
    GridExt(g', Stamp(g, ms), w, h);
  }

  /** The same for the 3D edge and its interpolated depths. */
  lemma EdgeStampedDepth(g: Grid<real>, g': Grid<real>, poly: seq<Vec3>, k: int, offX: int, offY: int, w: int, h: int)
    requires 0 <= k < |poly| && IsGrid(g, w, h) && IsGrid(g', w, h)
    requires var l := EdgeLine(XYs(poly), k, offX, offY);
             var slopes := EdgeSlopes(l, poly[k].z, EdgeTo(poly, k).z);
             forall i, j :: 0 <= i < w && 0 <= j < h ==>
               g'[i][j] == if Vec2I(i, j) in LineMarks(l) then DepthAt(l, poly[k].z, slopes.0, slopes.1, Vec2I(i, j)) else g[i][j]
    ensures g' == Stamp(g, EdgeMarksDepth(poly, k, offX, offY))
  {
    var ms := EdgeMarksDepth(poly, k, offX, offY);
    assert [] + ms == ms;
    forall i, j | 0 <= i < w && 0 <= j < h
      ensures g'[i][j] == Stamp(g, ms)[i][j]
    {
      EdgeStampDepth(g, [], poly, k, offX, offY, i, j);
    }
    GridExt(g', Stamp(g, ms), w, h);
  }

  /** The writes of the first k + 1 lists are those of the first k
      followed by list k, and stamping them is stamping list k after the
      first k. */
  /** Edges whose every write has the value v write only v. */
  lemma {:induction false} FlattenValues(ess: seq<seq<Mark<real>>>, v: real)
    requires forall k, m :: 0 <= k < |ess| && 0 <= m < |ess[k]| ==> ess[k][m].value == v
    ensures forall m :: 0 <= m < |Flatten(ess)| ==> Flatten(ess)[m].value == v
    decreases |ess|
  {
    if |ess| > 0 {
      FlattenValues(ess[..|ess| - 1], v);
    }
  }

  /** An edge between two vertices at the same depth marks every cell
      with that depth. */
  lemma LevelEdge(poly: seq<Vec3>, k: int, offX: int, offY: int)
    requires 0 <= k < |poly| && poly[k].z == EdgeTo(poly, k).z
    ensures forall m :: 0 <= m < |EdgeMarksDepth(poly, k, offX, offY)| ==>
              EdgeMarksDepth(poly, k, offX, offY)[m].value == poly[k].z
  {
    var l := EdgeLine(XYs(poly), k, offX, offY);
    var slopes := EdgeSlopes(l, poly[k].z, EdgeTo(poly, k).z);
    assert slopes.0 == 0.0 by {
      if l.DX() as real != 0.0 {
        assert slopes.0 * l.DX() as real == 0.0;
      }
    }
    assert slopes.1 == 0.0;
    forall p: Vec2I ensures DepthAt(l, poly[k].z, slopes.0, slopes.1, p) == poly[k].z {
      ScaledIsProduct(AOf(l, p), 0.0);
      ScaledIsProduct(BOf(l, p), 0.0);
    }
  }

  /** A polygon lying in the plane z = 1 paints nothing: every mark it
      writes has the value `EMPTY`, so the column scan of an all-`EMPTY`
      indicator map finds no edge and the z-buffer is left as it was. */
  lemma PolygonAtOnePaintsNothing(poly: seq<Vec3>, offX: int, offY: int, g: Grid<real>)
    requires |poly| > 2 && AllEmpty(g)
    requires forall k :: 0 <= k < |poly| ==> poly[k].z == EMPTY
    ensures forall x, y :: !Painted(Stamp(g, PolyMarksDepth(poly, offX, offY)), PolyBox(XYs(poly), offX, offY), x, y)
  {
    var ess: seq<seq<Mark<real>>> := EdgeListDepth(poly, offX, offY);
    forall k | 0 <= k < |ess| ensures forall m :: 0 <= m < |ess[k]| ==> ess[k][m].value == EMPTY {
      LevelEdge(poly, k, offX, offY);
    }
    FlattenValues(ess, EMPTY);
    MarksOfOnePaintNothing(g, PolyMarksDepth(poly, offX, offY), PolyBox(XYs(poly), offX, offY));
  }

  lemma FlattenNext<C>(g: Grid<C>, ess: seq<seq<Mark<C>>>, k: int)
    requires 0 <= k < |ess|
    ensures Flatten(ess[..k + 1]) == Flatten(ess[..k]) + ess[k]
    ensures Stamp(g, Flatten(ess[..k + 1])) == Stamp(Stamp(g, Flatten(ess[..k])), ess[k])
  {
    assert ess[..k + 1][..k] == ess[..k];
    StampAppend(g, Flatten(ess[..k]), ess[k]);
  }

  /** A polygon's writes fit the map exactly when those of every edge do. */
  lemma PolyFitsEdges(poly: seq<Vec2>, offX: int, offY: int, w: int, h: int)
    ensures Fits(PolyMarks(poly, offX, offY), w, h) <==>
            forall k :: 0 <= k < |poly| ==> Fits(EdgeMarks(poly, k, offX, offY), w, h)
  {
    FlattenAll(EdgeList(poly, offX, offY), InSizeOf(w, h));
  }

  lemma PolyFitsEdgesDepth(poly: seq<Vec3>, offX: int, offY: int, w: int, h: int)
    ensures Fits(PolyMarksDepth(poly, offX, offY), w, h) <==>
            forall k :: 0 <= k < |poly| ==> Fits(EdgeMarksDepth(poly, k, offX, offY), w, h)
  {
    FlattenAll(EdgeListDepth(poly, offX, offY), InSizeOf(w, h));
  }

  /** Two lists of writes fit the map exactly when each does. */
  lemma FitsAppend(ms: seq<Mark<real>>, ms': seq<Mark<real>>, w: int, h: int)
    ensures Fits(ms + ms', w, h) <==> Fits(ms, w, h) && Fits(ms', w, h)
  {
    var both := ms + ms';
    if Fits(ms, w, h) && Fits(ms', w, h) {
      forall k | 0 <= k < |both| ensures InSizeOf(w, h)(both[k].cell) {
        if k >= |ms| {
          assert both[k] == ms'[k - |ms|];
        }
      }
    }
    if Fits(both, w, h) {
      forall k | 0 <= k < |ms| ensures InSizeOf(w, h)(ms[k].cell) {
        assert both[k] == ms[k];
      }
      forall k | 0 <= k < |ms'| ensures InSizeOf(w, h)(ms'[k].cell) {
        assert both[|ms| + k] == ms'[k];
      }
    }
  }

  /** Writes that all land in a box that fits the map all land in the map. */
  lemma FitsFromBox(ms: seq<Mark<real>>, box: RectI, w: int, h: int)
    requires box.l <= box.r && box.t <= box.b && AllCells(ms, InBoxOf(box))
    ensures BoxFits(box, w, h) ==> Fits(ms, w, h)
  {
    if BoxFits(box, w, h) {
      forall k | 0 <= k < |ms| ensures InSizeOf(w, h)(ms[k].cell) {
        assert InBoxOf(box)(ms[k].cell);
      }
    }
  }

  /** The marks of a polygon fit the map when its box does, so marking
      fails only when the box does not fit. */
  lemma PolyFits(poly: seq<Vec2>, offX: int, offY: int, w: int, h: int)
    requires |poly| > 0
    ensures var box := PolyBox(poly, offX, offY);
            box.l <= box.r && box.t <= box.b &&
            (BoxFits(box, w, h) ==> Fits(PolyMarks(poly, offX, offY), w, h))
  {
    PolyBoxProper(poly, offX, offY);
    PolyMarksInBox(poly, offX, offY);
    FitsFromBox(PolyMarks(poly, offX, offY), PolyBox(poly, offX, offY), w, h);
  }

  lemma PolyFitsDepth(poly: seq<Vec3>, offX: int, offY: int, w: int, h: int)
    requires |poly| > 0
    ensures var box := PolyBox(XYs(poly), offX, offY);
            box.l <= box.r && box.t <= box.b &&
            (BoxFits(box, w, h) ==> Fits(PolyMarksDepth(poly, offX, offY), w, h))
  {
    PolyBoxProper(XYs(poly), offX, offY);
    PolyMarksDepthInBox(poly, offX, offY);
    FitsFromBox(PolyMarksDepth(poly, offX, offY), PolyBox(XYs(poly), offX, offY), w, h);
  }

  class Rasterizer {
    const width: int
    const height: int
    var offsetX: int
    var offsetY: int
    const idcMap: array2<real>

    ghost predicate Valid()
    {
      idcMap.Length0 == width && idcMap.Length1 == ColumnLength(width, height)
    }

    predicate InMap(x: int, y: int)
    {
      0 <= x < idcMap.Length0 && 0 <= y < idcMap.Length1
    }

    /** Every cell of the indicator map starts `EMPTY`. */
    constructor (w: int, h: int, offX: int, offY: int)
      requires !JaggedThrows(w, h)
      ensures Valid() && width == w && height == h && offsetX == offX && offsetY == offY
      ensures fresh(idcMap)
      ensures forall i, j :: 0 <= i < w && 0 <= j < h ==> idcMap[i, j] == EMPTY
    {
      width, height := w, h;
      offsetX, offsetY := offX, offY;
      var cells := new real[w, ColumnLength(w, h)]((i, j) => 0.0);
      for i := 0 to w
        invariant forall a, b :: 0 <= a < i && 0 <= b < h ==> cells[a, b] == EMPTY
      {
        for j := 0 to h
          invariant forall a, b :: 0 <= a < w && 0 <= b < h && (a < i || (a == i && b < j)) ==> cells[a, b] == EMPTY
        {
          cells[i, j] := EMPTY;
        }
      }
      idcMap := cells;
    }

    /** `new Rasterizer(width, height, offsetX, offsetY)` for any sizes: a
        negative width, or a negative height with a column to allocate,
        throws. */
    static method Create(w: int, h: int, offX: int, offY: int) returns (r: Result<Rasterizer>)
      ensures r.Err? <==> JaggedThrows(w, h)
      ensures r.Err? ==> r.error == Overflow
      ensures r.Ok? ==> fresh(r.value) && fresh(r.value.idcMap) && r.value.Valid() &&
                        r.value.width == w && r.value.height == h &&
                        r.value.offsetX == offX && r.value.offsetY == offY &&
                        forall i, j :: 0 <= i < w && 0 <= j < h ==> r.value.idcMap[i, j] == EMPTY
    {
      if JaggedThrows(w, h) {
        return Err(Overflow);
      }
      var rz := new Rasterizer(w, h, offX, offY);
      return Ok(rz);
    }

    /** The segment `rasterLine` walks for these end points. */
    function LineOf(from: Vec2, to: Vec2): Line
      reads this
    {
      LineFrom(from, to, offsetX, offsetY)
    }

    /** `indicateScanLine` for a 2D edge: writes 0 into the edge's marks
        in order, stopping with an error at the first one outside the
        map. */
    method IndicateScanLine(from: Vec2, to: Vec2) returns (r: Result<()>, ghost n: nat)
      modifies idcMap
      ensures var cs := LineMarks(LineOf(from, to));
              n <= |cs| && (forall m :: 0 <= m < n ==> InSize(cs[m], idcMap.Length0, idcMap.Length1)) &&
              (r.Ok? <==> n == |cs|) &&
              (r.Err? ==> r.error == IndexOutOfRange && !InSize(cs[n], idcMap.Length0, idcMap.Length1)) &&
              forall i, j :: 0 <= i < idcMap.Length0 && 0 <= j < idcMap.Length1 ==>
                idcMap[i, j] == if Vec2I(i, j) in cs[..n] then 0.0 else old(idcMap[i, j])
    {
      var x1 := Trunc(from.x) - offsetX;
      var x2 := Trunc(to.x) - offsetX;
      var y1 := Trunc(from.y) - offsetY;
      var y2 := Trunc(to.y) - offsetY;
      assert Line(x1, y1, x2, y2) == LineOf(from, to);
      r, n := MarkEdge(x1, y1, x2, y2, idcMap);
    }

    /** `indicateScanLine` for a 3D edge: an edge without horizontal extent
        writes nothing; otherwise every mark gets the depth interpolated
        from the first end point's z with the increments of `EdgeSlopes`. */
    method IndicateScanLineDepth(from: Vec3, to: Vec3) returns (r: Result<()>, ghost n: nat)
      modifies idcMap
      ensures var l := LineOf(XY(from), XY(to));
              var cs := LineMarks(l);
              var (dzx, dzy) := EdgeSlopes(l, from.z, to.z);
              n <= |cs| && (forall m :: 0 <= m < n ==> InSize(cs[m], idcMap.Length0, idcMap.Length1)) &&
              (r.Ok? <==> n == |cs|) &&
              (r.Err? ==> r.error == IndexOutOfRange && !InSize(cs[n], idcMap.Length0, idcMap.Length1)) &&
              forall i, j :: 0 <= i < idcMap.Length0 && 0 <= j < idcMap.Length1 ==>
                idcMap[i, j] == if Vec2I(i, j) in cs[..n] then DepthAt(l, from.z, dzx, dzy, Vec2I(i, j)) else old(idcMap[i, j])
    {
      var x1 := Trunc(from.x) - offsetX;
      var x2 := Trunc(to.x) - offsetX;
      var y1 := Trunc(from.y) - offsetY;
      var y2 := Trunc(to.y) - offsetY;
      var z := from.z;
      ghost var l := Line(x1, y1, x2, y2);
      assert l == LineOf(XY(from), XY(to));
      var dx := Abs(x2 - x1);
      if dx == 0 {
        MarksCount(l);
        return Ok(()), 0;
      }
      var dy := -(Abs(y2 - y1) as int);
      var dz := to.z - z;
      var dzx := 0.0;
      var dzy := 0.0;
      if dy < 0 {
        dz := dz / 2.0;
        dzy := -dz / dy as real;
        NegQuotient(dz, l.DY() as real);
      }
      dzx := dz / dx as real;
      assert (dzx, dzy) == EdgeSlopes(l, from.z, to.z);
      r, n := MarkEdgeDepth(x1, y1, x2, y2, z, dzx, dzy, idcMap);
    }

    /** `rasterLine` into a list: appends the pixels of the segment, from
        the first end point to the second. */
    method RasterLine(from: Vec2, to: Vec2, result: seq<Vec2I>) returns (out: seq<Vec2I>)
      ensures out == result + LinePixels(LineOf(from, to))
    {
      var x1 := Trunc(from.x) - offsetX;
      var x2 := Trunc(to.x) - offsetX;
      var y1 := Trunc(from.y) - offsetY;
      var y2 := Trunc(to.y) - offsetY;
      ghost var l := Line(x1, y1, x2, y2);
      var dx := Abs(x2 - x1);
      var dy := -(Abs(y2 - y1) as int);
      var sx := if x2 > x1 then 1 else -1;
      var sy := if y2 > y1 then 1 else -1;
      var err := dx + dy;
      ghost var k: nat := 0;
      PixelAt(l, 0);
      out := result;
      while true
        invariant k <= l.Steps() && Walker(x1, y1, err) == Walk(l, k)
        invariant out == result + LinePixels(l)[..k]
        decreases l.Steps() - k
      {
        EmitPixel(l, k, result, out);
        out := out + [Vec2I(x1, y1)];
        if y1 == y2 && x1 == x2 {
          assert l == LineOf(from, to);
          break;
        }
        x1, y1, err := Advance(l, x1, y1, err, dx, dy, sx, sy);
        k := k + 1;
      }
    }

    /** `rasterLine` into a screen: the pixels of the segment are painted
        in order until one falls outside the screen, which stops it with an
        error. */
    method RasterLineScreen<T>(from: Vec2, to: Vec2, item: T, screen: Screen<T>) returns (r: Result<()>, ghost n: nat)
      modifies screen.items
      ensures var ps := LinePixels(LineOf(from, to));
              n <= |ps| && (forall m :: 0 <= m < n ==> InSize(ps[m], screen.items.Length0, screen.items.Length1)) &&
              (r.Ok? <==> n == |ps|) &&
              (r.Err? ==> r.error == IndexOutOfRange && !InSize(ps[n], screen.items.Length0, screen.items.Length1)) &&
              forall i, j :: 0 <= i < screen.items.Length0 && 0 <= j < screen.items.Length1 ==>
                screen.items[i, j] == if Vec2I(i, j) in ps[..n] then item else old(screen.items[i, j])
    {
      var x1 := Trunc(from.x) - offsetX;
      var x2 := Trunc(to.x) - offsetX;
      var y1 := Trunc(from.y) - offsetY;
      var y2 := Trunc(to.y) - offsetY;
      assert Line(x1, y1, x2, y2) == LineOf(from, to);
      r, n := PaintLine(x1, y1, x2, y2, item, screen);
    }

    /** `rasterLine` into a z-buffer: the depth starts at the first end
        point's z and moves by the increments of `LineSlopes`. */
    method RasterLineDepth<T>(from: Vec3, to: Vec3, item: T, zb: ZBuffer<T>) returns (r: Result<()>, ghost n: nat)
      requires zb.Valid()
      modifies zb.items, zb.zs
      ensures var l := LineOf(XY(from), XY(to));
              var ps := LinePixels(l);
              var (dzx, dzy) := LineSlopes(l, from.z, to.z);
              n <= |ps| && (forall m :: 0 <= m < n ==> InSize(ps[m], zb.width, zb.height)) &&
              (r.Ok? <==> n == |ps|) &&
              (r.Err? ==> r.error == IndexOutOfRange && !InSize(ps[n], zb.width, zb.height)) &&
              forall i, j :: zb.InRange(i, j) ==>
                zb.Cell(i, j) == if Vec2I(i, j) in ps[..n]
                                 then Insertion(old(zb.Cell(i, j)), DepthAt(l, from.z, dzx, dzy, Vec2I(i, j)), item)
                                 else old(zb.Cell(i, j))
    {
      var x1 := Trunc(from.x) - offsetX;
      var x2 := Trunc(to.x) - offsetX;
      var y1 := Trunc(from.y) - offsetY;
      var y2 := Trunc(to.y) - offsetY;
      var z := from.z;
      ghost var l := Line(x1, y1, x2, y2);
      var dx := Abs(x2 - x1);
      var dy := -(Abs(y2 - y1) as int);
      var dz := to.z - z;
      var dzx := 0.0;
      var dzy := 0.0;
      var znorm := 0;
      if dy < 0 {
        znorm := znorm + 1;
        dzy := -dz / dy as real;
        NegQuotient(dz, l.DY() as real);
      }
      if dx > 0 {
        znorm := znorm + 1;
        dzx := dz / dx as real;
      }
      dzx := Div(dzx, znorm as real);
      dzy := Div(dzy, znorm as real);
      assert (dzx, dzy) == LineSlopes(l, from.z, to.z);
      assert l == LineOf(XY(from), XY(to));
      r, n := InsertLine(x1, y1, x2, y2, z, dzx, dzy, item, zb);
    }

    // -------------------------------------------------------------------
    // Polygons
    // -------------------------------------------------------------------

    /** One `indicateScanLine` call of `rasterPoly`: the 2D edge k. */
    method IndicateEdge(poly: seq<Vec2>, k: int) returns (r: Result<()>)
      requires 0 <= k < |poly|
      modifies idcMap
      ensures r.Ok? <==> Fits(EdgeMarks(poly, k, offsetX, offsetY), idcMap.Length0, idcMap.Length1)
      ensures r.Err? ==> r.error == IndexOutOfRange
      ensures r.Ok? ==> Snapshot(idcMap) == Stamp(old(Snapshot(idcMap)), EdgeMarks(poly, k, offsetX, offsetY))
    {
      ghost var g := Snapshot(idcMap);
      ghost var n;
      r, n := IndicateScanLine(poly[k], EdgeTo(poly, k));
      ghost var cs := LineMarks(EdgeLine(poly, k, offsetX, offsetY));
      ghost var ms := EdgeMarks(poly, k, offsetX, offsetY);
      assert |ms| == |cs| && forall m :: 0 <= m < |ms| ==> ms[m].cell == cs[m];
      if r.Ok? {
        assert cs[..n] == cs;
        ghost var g' := Snapshot(idcMap);
        forall i, j | 0 <= i < idcMap.Length0 && 0 <= j < idcMap.Length1
          ensures g'[i][j] == if Vec2I(i, j) in cs then 0.0 else g[i][j]
        {
          assert g[i][j] == old(idcMap[i, j]);
          assert g'[i][j] == idcMap[i, j];
        }
        EdgeStamped(g, g', poly, k, offsetX, offsetY, idcMap.Length0, idcMap.Length1);
      } else {
        assert !InSizeOf(idcMap.Length0, idcMap.Length1)(ms[n].cell);
      }
    }

    /** Edge k of the edge pass, after the first k edges were marked. */
    method IndicateNext(poly: seq<Vec2>, k: int, ghost g0: Grid<real>, ghost ess: seq<seq<Mark<real>>>)
      returns (r: Result<()>)
      requires 0 <= k < |poly| && ess == EdgeList(poly, offsetX, offsetY)
      requires Fits(Flatten(ess[..k]), idcMap.Length0, idcMap.Length1)
      requires Snapshot(idcMap) == Stamp(g0, Flatten(ess[..k]))
      modifies idcMap
      ensures r.Err? ==> r.error == IndexOutOfRange && !Fits(Flatten(ess), idcMap.Length0, idcMap.Length1)
      ensures r.Ok? ==> Fits(Flatten(ess[..k + 1]), idcMap.Length0, idcMap.Length1)
      ensures r.Ok? ==> Snapshot(idcMap) == Stamp(g0, Flatten(ess[..k + 1]))
    {
      r := IndicateEdge(poly, k);
      if r.Ok? {
        FlattenNext(g0, ess, k);
        FitsAppend(Flatten(ess[..k]), ess[k], idcMap.Length0, idcMap.Length1);
      } else {
        FlattenAll(ess, InSizeOf(idcMap.Length0, idcMap.Length1));
      }
    }

    /** The edge pass of the 2D `rasterPoly`: edges from every vertex to
        the next, then the closing edge from the last vertex to the first.
        The first edge with a mark outside the map stops it. */
    method IndicatePoly(poly: seq<Vec2>) returns (r: Result<()>)
      requires |poly| > 0
      modifies idcMap
      ensures r.Ok? <==> Fits(PolyMarks(poly, offsetX, offsetY), idcMap.Length0, idcMap.Length1)
      ensures r.Err? ==> r.error == IndexOutOfRange
      ensures r.Ok? ==> Snapshot(idcMap) == Stamp(old(Snapshot(idcMap)), PolyMarks(poly, offsetX, offsetY))
    {
      ghost var g0 := Snapshot(idcMap);
      ghost var ess := EdgeList(poly, offsetX, offsetY);
      var k := 0;
      while k < |poly| - 1
        invariant 0 <= k <= |poly| - 1
        invariant Fits(Flatten(ess[..k]), idcMap.Length0, idcMap.Length1)
        invariant Snapshot(idcMap) == Stamp(g0, Flatten(ess[..k]))
      {
        r := IndicateNext(poly, k, g0, ess);
        if r.Err? {
          return;
        }
        k := k + 1;
      }
      r := IndicateNext(poly, k, g0, ess);
      assert ess[..k + 1] == ess;
    }

    /** One `indicateScanLine` call of the 3D `rasterPoly`: edge k. */
    method IndicateEdgeDepth(poly: seq<Vec3>, k: int) returns (r: Result<()>)
      requires 0 <= k < |poly|
      modifies idcMap
      ensures r.Ok? <==> Fits(EdgeMarksDepth(poly, k, offsetX, offsetY), idcMap.Length0, idcMap.Length1)
      ensures r.Err? ==> r.error == IndexOutOfRange
      ensures r.Ok? ==> Snapshot(idcMap) == Stamp(old(Snapshot(idcMap)), EdgeMarksDepth(poly, k, offsetX, offsetY))
    {
      ghost var g := Snapshot(idcMap);
      ghost var n;
      r, n := IndicateScanLineDepth(poly[k], EdgeTo(poly, k));
      ghost var l := EdgeLine(XYs(poly), k, offsetX, offsetY);
      assert EdgeTo(XYs(poly), k) == XY(EdgeTo(poly, k));
      assert l == LineOf(XY(poly[k]), XY(EdgeTo(poly, k)));
      ghost var cs := LineMarks(l);
      ghost var ms := EdgeMarksDepth(poly, k, offsetX, offsetY);
      assert |ms| == |cs| && forall m :: 0 <= m < |ms| ==> ms[m].cell == cs[m];
      if r.Ok? {
        assert cs[..n] == cs;
        ghost var g' := Snapshot(idcMap);
        ghost var slopes := EdgeSlopes(l, poly[k].z, EdgeTo(poly, k).z);
        forall i, j | 0 <= i < idcMap.Length0 && 0 <= j < idcMap.Length1
          ensures g'[i][j] == if Vec2I(i, j) in cs then DepthAt(l, poly[k].z, slopes.0, slopes.1, Vec2I(i, j)) else g[i][j]
        {
          assert g[i][j] == old(idcMap[i, j]);
          assert g'[i][j] == idcMap[i, j];
        }
        EdgeStampedDepth(g, g', poly, k, offsetX, offsetY, idcMap.Length0, idcMap.Length1);
      } else {
        assert !InSizeOf(idcMap.Length0, idcMap.Length1)(ms[n].cell);
      }
    }

    method IndicateNextDepth(poly: seq<Vec3>, k: int, ghost g0: Grid<real>, ghost ess: seq<seq<Mark<real>>>)
      returns (r: Result<()>)
      requires 0 <= k < |poly| && ess == EdgeListDepth(poly, offsetX, offsetY)
      requires Fits(Flatten(ess[..k]), idcMap.Length0, idcMap.Length1)
      requires Snapshot(idcMap) == Stamp(g0, Flatten(ess[..k]))
      modifies idcMap
      ensures r.Err? ==> r.error == IndexOutOfRange && !Fits(Flatten(ess), idcMap.Length0, idcMap.Length1)
      ensures r.Ok? ==> Fits(Flatten(ess[..k + 1]), idcMap.Length0, idcMap.Length1)
      ensures r.Ok? ==> Snapshot(idcMap) == Stamp(g0, Flatten(ess[..k + 1]))
    {
      r := IndicateEdgeDepth(poly, k);
      if r.Ok? {
        FlattenNext(g0, ess, k);
        FitsAppend(Flatten(ess[..k]), ess[k], idcMap.Length0, idcMap.Length1);
      } else {
        FlattenAll(ess, InSizeOf(idcMap.Length0, idcMap.Length1));
      }
    }

    /** The edge pass of the 3D `rasterPoly`. */
    method IndicatePolyDepth(poly: seq<Vec3>) returns (r: Result<()>)
      requires |poly| > 0
      modifies idcMap
      ensures r.Ok? <==> Fits(PolyMarksDepth(poly, offsetX, offsetY), idcMap.Length0, idcMap.Length1)
      ensures r.Err? ==> r.error == IndexOutOfRange
      ensures r.Ok? ==> Snapshot(idcMap) == Stamp(old(Snapshot(idcMap)), PolyMarksDepth(poly, offsetX, offsetY))
    {
      ghost var g0 := Snapshot(idcMap);
      ghost var ess := EdgeListDepth(poly, offsetX, offsetY);
      var k := 0;
      while k < |poly| - 1
        invariant 0 <= k <= |poly| - 1
        invariant Fits(Flatten(ess[..k]), idcMap.Length0, idcMap.Length1)
        invariant Snapshot(idcMap) == Stamp(g0, Flatten(ess[..k]))
      {
        r := IndicateNextDepth(poly, k, g0, ess);
        if r.Err? {
          return;
        }
        k := k + 1;
      }
      r := IndicateNextDepth(poly, k, g0, ess);
      assert ess[..k + 1] == ess;
    }

    /** The scan box of `rasterPoly`: `GetBounds` of the vertices, cast to
        int and shifted by the offsets. */
    method PolyBounds(poly: seq<Vec2>) returns (box: RectI)
      requires |poly| > 0
      requires forall i :: 0 <= i < |poly| ==> FiniteDouble(poly[i].x) && FiniteDouble(poly[i].y)
      ensures box == PolyBox(poly, offsetX, offsetY)
      ensures box.l <= box.r && box.t <= box.b
    {
      var rc := GetBounds(poly);
      var b := rc.ToRectI();
      box := RectI(b.l - offsetX, b.t - offsetY, b.r - offsetX, b.b - offsetY);
      PolyBoxProper(poly, offsetX, offsetY);
    }

    /** `rasterPoly` into a list: the edges are marked, then the box is
        scanned column by column and the cells inside by the even-odd rule
        are appended. It fails exactly when the box leaves the map; on
        success the map is as before with the box cleared, so a map without
        marks stays without marks. */
    method RasterPoly(poly: seq<Vec2>, result: seq<Vec2I>) returns (r: Result<seq<Vec2I>>)
      requires |poly| > 2
      requires forall i :: 0 <= i < |poly| ==> FiniteDouble(poly[i].x) && FiniteDouble(poly[i].y)
      modifies idcMap
      ensures r.Ok? <==> BoxFits(PolyBox(poly, offsetX, offsetY), idcMap.Length0, idcMap.Length1)
      ensures r.Err? ==> r.error == IndexOutOfRange
      ensures r.Ok? ==> r.value == result + ScanCells(Stamp(old(Snapshot(idcMap)), PolyMarks(poly, offsetX, offsetY)),
                                                      PolyBox(poly, offsetX, offsetY))
      ensures r.Ok? ==> Snapshot(idcMap) == ClearBox(Stamp(old(Snapshot(idcMap)), PolyMarks(poly, offsetX, offsetY)),
                                                     PolyBox(poly, offsetX, offsetY))
      ensures r.Ok? && AllEmpty(old(Snapshot(idcMap))) ==> AllEmpty(Snapshot(idcMap))
    {
      ghost var g0 := Snapshot(idcMap);
      var box := PolyBounds(poly);
      PolyFits(poly, offsetX, offsetY, idcMap.Length0, idcMap.Length1);
      var marked := IndicatePoly(poly);
      if marked.Err? {
        return Err(marked.error);
      }
      r := ScanBoxList(idcMap, box, result);
      if r.Ok? && AllEmpty(g0) {
        PolyScanRestores(poly, offsetX, offsetY, g0);
      }
    }

    /** `rasterPoly` into a screen: as `RasterPoly`, but every cell inside
        by the even-odd rule, marked or not, is painted with `item`. */
    method RasterPolyScreen<T>(poly: seq<Vec2>, item: T, screen: Screen<T>) returns (r: Result<()>)
      requires |poly| > 2
      requires forall i :: 0 <= i < |poly| ==> FiniteDouble(poly[i].x) && FiniteDouble(poly[i].y)
      requires idcMap as object != screen.items as object
      modifies idcMap, screen.items
      ensures var box := PolyBox(poly, offsetX, offsetY);
              BoxFits(box, idcMap.Length0, idcMap.Length1) && BoxFits(box, screen.items.Length0, screen.items.Length1) ==> r.Ok?
      ensures r.Ok? ==> BoxFits(PolyBox(poly, offsetX, offsetY), idcMap.Length0, idcMap.Length1)
      ensures r.Err? ==> r.error == IndexOutOfRange
      ensures r.Ok? ==> Snapshot(idcMap) == ClearBox(Stamp(old(Snapshot(idcMap)), PolyMarks(poly, offsetX, offsetY)),
                                                     PolyBox(poly, offsetX, offsetY))
      ensures r.Ok? ==>
                var g := Stamp(old(Snapshot(idcMap)), PolyMarks(poly, offsetX, offsetY));
                forall x, y :: 0 <= x < screen.items.Length0 && 0 <= y < screen.items.Length1 ==>
                  screen.items[x, y] == if Painted(g, PolyBox(poly, offsetX, offsetY), x, y) then item else old(screen.items[x, y])
      ensures r.Ok? && AllEmpty(old(Snapshot(idcMap))) ==> AllEmpty(Snapshot(idcMap))
    {
      ghost var g0 := Snapshot(idcMap);
      var box := PolyBounds(poly);
      PolyFits(poly, offsetX, offsetY, idcMap.Length0, idcMap.Length1);
      var marked := IndicatePoly(poly);
      if marked.Err? {
        return Err(marked.error);
      }
      r := ScanBoxScreen(idcMap, box, item, screen);
      if r.Ok? && AllEmpty(g0) {
        PolyScanRestores(poly, offsetX, offsetY, g0);
      }
    }

    /** `rasterPoly` into a z-buffer: the edges are marked with their
        interpolated depths, and every cell inside by the even-odd rule gets
        an insertion at the depth the scan interpolates between the marks. */
    method RasterPolyDepth<T>(poly: seq<Vec3>, item: T, zb: ZBuffer<T>) returns (r: Result<()>)
      requires |poly| > 2
      requires forall i :: 0 <= i < |poly| ==> FiniteDouble(poly[i].x) && FiniteDouble(poly[i].y)
      requires zb.Valid() && idcMap as object != zb.items as object
      modifies idcMap, zb.items, zb.zs
      ensures var box := PolyBox(XYs(poly), offsetX, offsetY);
              BoxFits(box, idcMap.Length0, idcMap.Length1) && BoxFits(box, zb.width, zb.height) ==> r.Ok?
      ensures r.Ok? ==> BoxFits(PolyBox(XYs(poly), offsetX, offsetY), idcMap.Length0, idcMap.Length1)
      ensures r.Err? ==> r.error == IndexOutOfRange
      ensures r.Ok? ==> Snapshot(idcMap) == ClearBox(Stamp(old(Snapshot(idcMap)), PolyMarksDepth(poly, offsetX, offsetY)),
                                                     PolyBox(XYs(poly), offsetX, offsetY))
      ensures r.Ok? ==>
                var g := Stamp(old(Snapshot(idcMap)), PolyMarksDepth(poly, offsetX, offsetY));
                var box := PolyBox(XYs(poly), offsetX, offsetY);
                forall x, y :: zb.InRange(x, y) ==>
                  zb.Cell(x, y) == if Painted(g, box, x, y)
                                   then Insertion(old(zb.Cell(x, y)), BoxDepth(g, box, x, y), item)
                                   else old(zb.Cell(x, y))
      ensures r.Ok? && AllEmpty(old(Snapshot(idcMap))) ==> AllEmpty(Snapshot(idcMap))
    {
      ghost var g0 := Snapshot(idcMap);
      var box := PolyBounds(XYs(poly));
      PolyFitsDepth(poly, offsetX, offsetY, idcMap.Length0, idcMap.Length1);
      var marked := IndicatePolyDepth(poly);
      if marked.Err? {
        return Err(marked.error);
      }
      r := ScanBoxDepth(idcMap, box, item, zb);
      if r.Ok? && AllEmpty(g0) {
        PolyScanDepthRestores(poly, offsetX, offsetY, g0);
      }
    }

    // -------------------------------------------------------------------
    // Dispatch
    // -------------------------------------------------------------------

    /** `Rasterize` into a list: nothing for no vertex; a single vertex
        reads a second vertex that is not there and fails; two vertices
        make a line, more a polygon. */
    method Rasterize(poly: seq<Vec2>, result: seq<Vec2I>) returns (r: Result<seq<Vec2I>>)
      requires |poly| > 2 ==> forall i :: 0 <= i < |poly| ==> FiniteDouble(poly[i].x) && FiniteDouble(poly[i].y)
      modifies idcMap
      ensures |poly| == 0 ==> r == Ok(result)
      ensures |poly| == 1 ==> r == Err(IndexOutOfRange)
      ensures |poly| == 2 ==> r == Ok(result + LinePixels(LineOf(poly[0], poly[1])))
      ensures |poly| > 2 ==>
                (r.Ok? <==> BoxFits(PolyBox(poly, offsetX, offsetY), idcMap.Length0, idcMap.Length1)) &&
                (r.Err? ==> r.error == IndexOutOfRange) &&
                (r.Ok? ==> r.value == result + ScanCells(Stamp(old(Snapshot(idcMap)), PolyMarks(poly, offsetX, offsetY)),
                                                         PolyBox(poly, offsetX, offsetY)))
    {
      if |poly| == 1 {
        r := Err(IndexOutOfRange);
      } else if |poly| == 2 {
        var out := RasterLine(poly[0], poly[1], result);
        r := Ok(out);
      } else if |poly| > 2 {
        r := RasterPoly(poly, result);
      } else {
        r := Ok(result);
      }
    }

    /** The array-returning `Rasterize`: the same into a fresh list. */
    method RasterizeNew(poly: seq<Vec2>) returns (r: Result<seq<Vec2I>>)
      requires |poly| > 2 ==> forall i :: 0 <= i < |poly| ==> FiniteDouble(poly[i].x) && FiniteDouble(poly[i].y)
      modifies idcMap
      ensures |poly| == 0 ==> r == Ok([])
      ensures |poly| == 1 ==> r == Err(IndexOutOfRange)
      ensures |poly| == 2 ==> r == Ok(LinePixels(LineOf(poly[0], poly[1])))
      ensures |poly| > 2 ==>
                (r.Ok? <==> BoxFits(PolyBox(poly, offsetX, offsetY), idcMap.Length0, idcMap.Length1)) &&
                (r.Ok? ==> r.value == ScanCells(Stamp(old(Snapshot(idcMap)), PolyMarks(poly, offsetX, offsetY)),
                                                PolyBox(poly, offsetX, offsetY)))
    {
      r := Rasterize(poly, []);
      if |poly| == 2 {
        assert [] + LinePixels(LineOf(poly[0], poly[1])) == LinePixels(LineOf(poly[0], poly[1]));
      } else if |poly| > 2 && r.Ok? {
        ghost var cells := ScanCells(Stamp(old(Snapshot(idcMap)), PolyMarks(poly, offsetX, offsetY)), PolyBox(poly, offsetX, offsetY));
        assert [] + cells == cells;
      }
    }

    /** `Rasterize` into a screen: a single vertex is painted through the
        screen's indexer, truncated but not shifted by the offsets; two
        vertices make a line, more a polygon. */
    method RasterizeScreen<T>(poly: seq<Vec2>, item: T, screen: Screen<T>) returns (r: Result<()>)
      requires |poly| > 2 ==> forall i :: 0 <= i < |poly| ==> FiniteDouble(poly[i].x) && FiniteDouble(poly[i].y)
      requires idcMap as object != screen.items as object
      modifies idcMap, screen.items
      ensures |poly| == 0 ==> r.Ok? && unchanged(screen.items)
      ensures |poly| == 1 ==>
                var x, y := Trunc(poly[0].x), Trunc(poly[0].y);
                (r.Ok? <==> screen.InRange(x, y)) &&
                forall i, j :: 0 <= i < screen.items.Length0 && 0 <= j < screen.items.Length1 ==>
                  screen.items[i, j] == if r.Ok? && i == x && j == y then item else old(screen.items[i, j])
      ensures |poly| == 2 ==>
                var ps := LinePixels(LineOf(poly[0], poly[1]));
                (r.Ok? <==> forall m :: 0 <= m < |ps| ==> InSize(ps[m], screen.items.Length0, screen.items.Length1)) &&
                (r.Ok? ==> forall i, j :: 0 <= i < screen.items.Length0 && 0 <= j < screen.items.Length1 ==>
                             screen.items[i, j] == if Vec2I(i, j) in ps then item else old(screen.items[i, j]))
      ensures |poly| > 2 && r.Ok? ==>
                var g := Stamp(old(Snapshot(idcMap)), PolyMarks(poly, offsetX, offsetY));
                forall x, y :: 0 <= x < screen.items.Length0 && 0 <= y < screen.items.Length1 ==>
                  screen.items[x, y] == if Painted(g, PolyBox(poly, offsetX, offsetY), x, y) then item else old(screen.items[x, y])
      ensures r.Err? ==> r.error == IndexOutOfRange
    {
      if |poly| == 1 {
        r := screen.Set(Trunc(poly[0].x), Trunc(poly[0].y), item);
      } else if |poly| == 2 {
        ghost var n;
        r, n := RasterLineScreen(poly[0], poly[1], item, screen);
        ghost var ps := LinePixels(LineOf(poly[0], poly[1]));
        if r.Ok? {
          assert ps[..n] == ps;
        }
      } else if |poly| > 2 {
        r := RasterPolyScreen(poly, item, screen);
      } else {
        r := Ok(());
      }
    }

    /** `Rasterize` into a z-buffer: a single vertex is inserted at its
        truncated x, y and z, not shifted by the offsets; two vertices make
        a line, more a polygon. */
    method RasterizeDepth<T>(poly: seq<Vec3>, item: T, zb: ZBuffer<T>) returns (r: Result<()>)
      requires |poly| > 2 ==> forall i :: 0 <= i < |poly| ==> FiniteDouble(poly[i].x) && FiniteDouble(poly[i].y)
      requires zb.Valid() && idcMap as object != zb.items as object
      modifies idcMap, zb.items, zb.zs
      ensures |poly| == 0 ==> r.Ok? && unchanged(zb.items, zb.zs)
      ensures |poly| == 1 ==>
                var x, y := Trunc(poly[0].x), Trunc(poly[0].y);
                (r.Ok? <==> zb.InRange(x, y)) &&
                forall i, j :: zb.InRange(i, j) ==>
                  zb.Cell(i, j) == if r.Ok? && i == x && j == y
                                   then Insertion(old(zb.Cell(i, j)), Trunc(poly[0].z) as real, item)
                                   else old(zb.Cell(i, j))
      ensures |poly| == 2 ==>
                var l := LineOf(XY(poly[0]), XY(poly[1]));
                var ps := LinePixels(l);
                var (dzx, dzy) := LineSlopes(l, poly[0].z, poly[1].z);
                (r.Ok? <==> forall m :: 0 <= m < |ps| ==> InSize(ps[m], zb.width, zb.height)) &&
                (r.Ok? ==> forall i, j :: zb.InRange(i, j) ==>
                             zb.Cell(i, j) == if Vec2I(i, j) in ps
                                              then Insertion(old(zb.Cell(i, j)), DepthAt(l, poly[0].z, dzx, dzy, Vec2I(i, j)), item)
                                              else old(zb.Cell(i, j)))
      ensures |poly| > 2 && r.Ok? ==>
                var g := Stamp(old(Snapshot(idcMap)), PolyMarksDepth(poly, offsetX, offsetY));
                var box := PolyBox(XYs(poly), offsetX, offsetY);
                forall x, y :: zb.InRange(x, y) ==>
                  zb.Cell(x, y) == if Painted(g, box, x, y)
                                   then Insertion(old(zb.Cell(x, y)), BoxDepth(g, box, x, y), item)
                                   else old(zb.Cell(x, y))
      ensures r.Err? ==> r.error == IndexOutOfRange
    {
      if |poly| == 1 {
        var inserted := zb.Insert(Trunc(poly[0].x), Trunc(poly[0].y), Trunc(poly[0].z) as real, item);
        r := if inserted.Ok? then Ok(()) else Err(inserted.error);
      } else if |poly| == 2 {
        ghost var n;
        r, n := RasterLineDepth(poly[0], poly[1], item, zb);
        ghost var ps := LinePixels(LineOf(XY(poly[0]), XY(poly[1])));
        if r.Ok? {
          assert ps[..n] == ps;
        }
      } else if |poly| > 2 {
        r := RasterPolyDepth(poly, item, zb);
      } else {
        r := Ok(());
      }
    }
  }
}
