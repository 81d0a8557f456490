// The fill pass of `rasterPoly` (Rasterizer.cs), run in place on the
// indicator map: the bounding box is read column by column and top to
// bottom; every mark toggles `inside` (after a look-ahead for a closing mark
// further down) and is reset to `EMPTY` as it is read. The three variants
// (result list, screen, z-buffer) are proved against the column definitions
// of the Fills module. Reading a cell outside the map, or writing one outside
// the screen or z-buffer, throws; the methods then stop with an error.
module Scans {
  import opened Numerics
  import opened Vectors
  import opened Screens
  import opened Fills

  /** Column i, rows `box.t..box.b`, lies in a w-by-h map. */
  predicate ColumnFits(box: RectI, i: int, w: int, h: int)
  {
    0 <= i < w && 0 <= box.t && box.b < h
  }

  /** The depth the z-buffer variant writes at row t of a column when that
      row is inside. The state carried over from the previous column does
      not matter (`ZScanFresh`), so it is taken as zero here. */
  function PaintDepth(c: seq<real>, t: int): real
    requires 0 <= t < |c|
  {
    ZScan(c, t + 1, ZState(false, 0.0, 0.0)).z
  }

  /** A painted depth leads linearly to the value of the closing mark. */
  lemma PaintDepthReaches(c: seq<real>, t: int)
    requires 0 <= t < |c| && Inside(c, t)
    ensures var s := ZScan(c, t + 1, ZState(false, 0.0, 0.0));
            s.z == PaintDepth(c, t) && Reaches(c, t + 1, s)
  {
    ZScanInside(c, t + 1, ZState(false, 0.0, 0.0));
  }

  /** After row t, whatever the state carried in from the previous column,
      the scan is inside exactly when the even-odd rule says so, and then
      its depth is the painted depth. */
  lemma ZScanPaints(c: seq<real>, t: int, s0: ZState)
    requires 0 <= t < |c| && !s0.inside
    ensures var s := ZScan(c, t + 1, s0);
            s.inside == Inside(c, t) && (s.inside ==> s.z == PaintDepth(c, t))
  {
    ZScanInside(c, t + 1, s0);
    ZScanFresh(c, t + 1, s0, ZState(false, 0.0, 0.0));
  }

  /** The first marked row strictly below t is the one `NextMark` finds. */
  lemma NextMarkIs(c: seq<real>, t: int, u: int)
    requires 0 <= t < u < |c| && c[u] != EMPTY
    requires forall v :: t < v < u ==> c[v] == EMPTY
    ensures NextMark(c, t + 1) == Some(u)
  {
    var r := NextMark(c, t + 1);
    assert c[u] != EMPTY;
    if r.Some? {
      assert c[r.value] != EMPTY;
    }
  }

  /** The look-ahead of the column scan: the first marked row of column i
      strictly below row j, down to row `bottom`. */
  method NextMarkIn(a: array2<real>, i: int, j: int, bottom: int) returns (r: Result<Option<int>>)
    ensures 0 <= i < a.Length0 && 0 <= j + 1 && bottom < a.Length1 ==> r.Ok?
    ensures r.Err? ==> r.error == IndexOutOfRange && j < bottom &&
                       !(0 <= i < a.Length0 && 0 <= j + 1 && bottom < a.Length1)
    ensures r.Ok? && r.value.Some? ==>
              var u := r.value.value;
              j < u <= bottom && 0 <= i < a.Length0 && 0 <= j + 1 && u < a.Length1 &&
              a[i, u] != EMPTY && forall v :: j < v < u ==> a[i, v] == EMPTY
    ensures r.Ok? && r.value.None? ==>
              (j < bottom ==> 0 <= i < a.Length0 && 0 <= j + 1 && bottom < a.Length1) &&
              forall v :: j < v <= bottom ==> a[i, v] == EMPTY
  {
    if j >= bottom {
      return Ok(None);
    }
    var v := j + 1;
    while v <= bottom
      invariant j + 1 <= v <= bottom + 1
      invariant v > j + 1 ==> 0 <= i < a.Length0 && 0 <= j + 1 && v - 1 < a.Length1
      invariant forall w :: j < w < v ==> a[i, w] == EMPTY
      decreases bottom - v
    {
      if !(0 <= i < a.Length0 && 0 <= v < a.Length1) {
        return Err(IndexOutOfRange);
      }
      if a[i, v] != EMPTY {
        return Ok(Some(v));
      }
      v := v + 1;
    }
    return Ok(None);
  }

  // ---------------------------------------------------------------------
  // One column
  // ---------------------------------------------------------------------

  /** The rows of column i of the box before row j hold `EMPTY`, every
      other cell holds what it held at the start of the column. */
  ghost predicate ScannedUpTo(a: array2<real>, i: int, box: RectI, j: int, before: seq<seq<real>>)
    reads a
    requires IsGrid(before, a.Length0, a.Length1)
  {
    forall x, y {:trigger a[x, y]} :: 0 <= x < a.Length0 && 0 <= y < a.Length1 ==>
      a[x, y] == if x == i && box.t <= y < j then EMPTY else before[x][y]
  }

  /** A marked row: the mark is reset to `EMPTY` and `inside` toggles; if
      that turned it on, it stays on only when the look-ahead finds another
      mark further down the column. The new flag is the even-odd rule's. */
  method ReadMark(a: array2<real>, i: int, j: int, box: RectI, ghost g: Grid<real>, ghost c: seq<real>, inside: bool)
    returns (r: Result<bool>)
    requires IsGrid(g, a.Length0, a.Length1) && c == ColumnOf(g, i, box)
    requires box.t <= j <= box.b && 0 <= i < a.Length0 && 0 <= j < a.Length1
    requires forall y :: j <= y <= box.b && 0 <= y < a.Length1 ==> a[i, y] == g[i][y]
    requires a[i, j] != EMPTY
    requires inside == (j > box.t && Inside(c, j - 1 - box.t))
    modifies a
    ensures forall x, y :: 0 <= x < a.Length0 && 0 <= y < a.Length1 ==>
              a[x, y] == if x == i && y == j then EMPTY else old(a[x, y])
    ensures r.Ok? ==> r.value == Inside(c, j - box.t)
    ensures r.Err? ==> r.error == IndexOutOfRange && !ColumnFits(box, i, a.Length0, a.Length1)
    ensures ColumnFits(box, i, a.Length0, a.Length1) ==> r.Ok?
  {
    assert c[j - box.t] == g[i][j];
    a[i, j] := EMPTY;
    var now := !inside;
    if now {
      var below := NextMarkIn(a, i, j, box.b);
      if below.Err? {
        return Err(below.error);
      }
      LookAhead(a, i, j, box, g, c, below.value);
      if below.value.Some? {
        now := false;
      }
      now := !now;
    }
    return Ok(now);
  }

  /** Column i of the list variant: appends the unmarked rows read while
      inside, and resets the column's rows of the box to `EMPTY`. */
  method ScanColumnList(a: array2<real>, i: int, box: RectI, ghost g: Grid<real>, out0: seq<Vec2I>)
    returns (r: Result<seq<Vec2I>>)
    requires box.t <= box.b && IsGrid(g, a.Length0, a.Length1)
    requires ScannedUpTo(a, i, box, box.t, g)
    modifies a
    ensures r.Ok? <==> ColumnFits(box, i, a.Length0, a.Length1)
    ensures r.Err? ==> r.error == IndexOutOfRange
    ensures r.Ok? ==> r.value == out0 + ColumnCells(ColumnOf(g, i, box), i, box.t, Rows(box))
    ensures r.Ok? ==> ScannedUpTo(a, i, box, box.b + 1, g)
  {
    ghost var c := ColumnOf(g, i, box);
    var inside := false;
    var out := out0;
    var j := box.t;
    while j <= box.b
      invariant box.t <= j <= box.b + 1
      invariant j > box.t ==> 0 <= i < a.Length0 && 0 <= box.t && j - 1 < a.Length1
      invariant inside == (j > box.t && Inside(c, j - 1 - box.t))
      invariant out == out0 + ColumnCells(c, i, box.t, j - box.t)
      invariant ScannedUpTo(a, i, box, j, g)
      decreases box.b - j
    {
      if !(0 <= i < a.Length0 && 0 <= j < a.Length1) {
        return Err(IndexOutOfRange);
      }
      assert a[i, j] == c[j - box.t];
      ColumnCellsNext(c, i, box.t, j - box.t);
      if a[i, j] != EMPTY {
        var read := ReadMark(a, i, j, box, g, c, inside);
        if read.Err? {
          return Err(read.error);
        }
        inside := read.value;
      } else if inside {
        out := out + [Vec2I(i, j)];
      }
      j := j + 1;
    }
    return Ok(out);
  }

  /** One more row of the list variant's output. */
  lemma ColumnCellsNext(c: seq<real>, i: int, top: int, t: int)
    requires 0 <= t < |c|
    ensures ColumnCells(c, i, top, t + 1) ==
              ColumnCells(c, i, top, t) + if c[t] == EMPTY && t > 0 && Inside(c, t - 1) then [Vec2I(i, top + t)] else []
  {
  }

  /** What the look-ahead found, read in the column as it was before the
      scan: the rows below j are not yet touched. */
  lemma LookAhead(a: array2<real>, i: int, j: int, box: RectI, g: Grid<real>, c: seq<real>, found: Option<int>)
    requires IsGrid(g, a.Length0, a.Length1) && c == ColumnOf(g, i, box)
    requires box.t <= j <= box.b && 0 <= i < a.Length0 && 0 <= j < a.Length1
    requires forall y :: j < y <= box.b && 0 <= y < a.Length1 ==> a[i, y] == g[i][y]
    requires found.Some? ==>
               var u := found.value;
               j < u <= box.b && u < a.Length1 && a[i, u] != EMPTY && forall v :: j < v < u ==> a[i, v] == EMPTY
    requires found.None? ==>
               (j < box.b ==> box.b < a.Length1) && forall v :: j < v <= box.b ==> a[i, v] == EMPTY
    ensures found.Some? <==> MarkBelow(c, j - box.t)
    ensures found.Some? ==> NextMark(c, j - box.t + 1) == Some(found.value - box.t)
  {
    var t := j - box.t;
    if found.Some? {
      var u := found.value;
      assert c[u - box.t] == g[i][u];
      forall v | t < v < u - box.t ensures c[v] == EMPTY {
        assert c[v] == g[i][box.t + v];
      }
      NextMarkIs(c, t, u - box.t);
    } else {
      forall v | 0 <= v < |c| && t < v ensures c[v] == EMPTY {
        assert c[v] == g[i][box.t + v];
      }
    }
  }

  /** Column i of the screen variant: paints every row at which `inside`
      is on after reading it, and resets the column's rows of the box. */
  method ScanColumnScreen<T>(a: array2<real>, i: int, box: RectI, ghost g: Grid<real>, item: T, screen: Screen<T>)
    returns (r: Result<()>)
    requires box.t <= box.b && IsGrid(g, a.Length0, a.Length1)
    requires ScannedUpTo(a, i, box, box.t, g)
    requires a as object != screen.items as object
    modifies a, screen.items
    ensures ColumnFits(box, i, a.Length0, a.Length1) && ColumnFits(box, i, screen.items.Length0, screen.items.Length1) ==> r.Ok?
    ensures r.Ok? ==> ColumnFits(box, i, a.Length0, a.Length1)
    ensures r.Err? ==> r.error == IndexOutOfRange
    ensures r.Ok? ==> ScannedUpTo(a, i, box, box.b + 1, g)
    ensures r.Ok? ==>
              forall x, y :: 0 <= x < screen.items.Length0 && 0 <= y < screen.items.Length1 ==>
                screen.items[x, y] ==
                  if x == i && box.t <= y <= box.b && Inside(ColumnOf(g, i, box), y - box.t) then item
                  else old(screen.items[x, y])
  {
    ghost var c := ColumnOf(g, i, box);
    var inside := false;
    var j := box.t;
    while j <= box.b
      invariant box.t <= j <= box.b + 1
      invariant j > box.t ==> 0 <= i < a.Length0 && 0 <= box.t && j - 1 < a.Length1
      invariant j > box.t && ColumnFits(box, i, screen.items.Length0, screen.items.Length1) ==> j - 1 < screen.items.Length1
      invariant inside == (j > box.t && Inside(c, j - 1 - box.t))
      invariant ScannedUpTo(a, i, box, j, g)
      invariant forall x, y :: 0 <= x < screen.items.Length0 && 0 <= y < screen.items.Length1 ==>
                  screen.items[x, y] ==
                    if x == i && box.t <= y < j && Inside(c, y - box.t) then item else old(screen.items[x, y])
      decreases box.b - j
    {
      if !(0 <= i < a.Length0 && 0 <= j < a.Length1) {
        return Err(IndexOutOfRange);
      }
      assert a[i, j] == c[j - box.t];
      if a[i, j] != EMPTY {
        var read := ReadMark(a, i, j, box, g, c, inside);
        if read.Err? {
          return Err(read.error);
        }
        inside := read.value;
      }
      if inside {
        var painted := screen.Set(i, j, item);
        if painted.Err? {
          return Err(painted.error);
        }
      }
      j := j + 1;
    }
    return Ok(());
  }

  /** A marked row of the z-buffer variant: `z` takes the mark's value and
      the mark is reset; on entering a span, `sz` becomes the slope from
      this mark to the next one below. The answer is the state before the
      row's `z += sz`. */
  method ReadMarkDepth(a: array2<real>, i: int, j: int, box: RectI, ghost g: Grid<real>, ghost c: seq<real>, s: ZState)
    returns (r: Result<ZState>)
    requires IsGrid(g, a.Length0, a.Length1) && c == ColumnOf(g, i, box)
    requires box.t <= j <= box.b && 0 <= i < a.Length0 && 0 <= j < a.Length1
    requires forall y :: j <= y <= box.b && 0 <= y < a.Length1 ==> a[i, y] == g[i][y]
    requires a[i, j] != EMPTY
    modifies a
    ensures forall x, y :: 0 <= x < a.Length0 && 0 <= y < a.Length1 ==>
              a[x, y] == if x == i && y == j then EMPTY else old(a[x, y])
    ensures r.Ok? ==>
              ZStep(c, j - box.t, s) ==
                if r.value.inside then ZState(true, r.value.z + r.value.sz, r.value.sz) else r.value
    ensures r.Err? ==> r.error == IndexOutOfRange && !ColumnFits(box, i, a.Length0, a.Length1)
    ensures ColumnFits(box, i, a.Length0, a.Length1) ==> r.Ok?
  {
    assert c[j - box.t] == g[i][j];
    var inside, z, sz := s.inside, s.z, s.sz;
    z := a[i, j];
    a[i, j] := EMPTY;
    inside := !inside;
    if inside {
      var below := NextMarkIn(a, i, j, box.b);
      if below.Err? {
        return Err(below.error);
      }
      LookAhead(a, i, j, box, g, c, below.value);
      if below.value.Some? {
        var j2 := below.value.value;
        assert a[i, j2] == c[j2 - box.t];
        sz := (a[i, j2] - z) / (j2 - j) as real;
        inside := false;
      }
      inside := !inside;
    }
    return Ok(ZState(inside, z, sz));
  }

  /** One row of the z-buffer variant: read a mark if there is one, then,
      while inside, add `sz` to `z` and insert the item at depth z. */
  method ScanRowDepth<T>(a: array2<real>, i: int, j: int, box: RectI, ghost g: Grid<real>, ghost c: seq<real>,
                         s: ZState, item: T, zb: ZBuffer<T>)
    returns (r: Result<ZState>)
    requires IsGrid(g, a.Length0, a.Length1) && c == ColumnOf(g, i, box)
    requires box.t <= j <= box.b && 0 <= i < a.Length0 && 0 <= j < a.Length1
    requires ScannedUpTo(a, i, box, j, g)
    requires zb.Valid() && a as object != zb.items as object
    modifies a, zb.items, zb.zs
    ensures ScannedUpTo(a, i, box, j + 1, g)
    ensures r.Ok? ==> r.value == ZStep(c, j - box.t, s)
    ensures r.Ok? ==>
              forall x, y :: zb.InRange(x, y) ==>
                zb.Cell(x, y) == if x == i && y == j && r.value.inside
                                 then Insertion(old(zb.Cell(x, y)), r.value.z, item) else old(zb.Cell(x, y))
    ensures r.Err? ==> r.error == IndexOutOfRange &&
                       !(ColumnFits(box, i, a.Length0, a.Length1) && ColumnFits(box, i, zb.width, zb.height))
  {
    assert a[i, j] == c[j - box.t];
    var inside, z, sz := s.inside, s.z, s.sz;
    if a[i, j] != EMPTY {
      var read := ReadMarkDepth(a, i, j, box, g, c, s);
      if read.Err? {
        return Err(read.error);
      }
      inside, z, sz := read.value.inside, read.value.z, read.value.sz;
    }
    if inside {
      z := z + sz;
      var inserted := zb.Insert(i, j, z, item);
      if inserted.Err? {
        return Err(inserted.error);
      }
    }
    return Ok(ZState(inside, z, sz));
  }

  /** Column i of the z-buffer variant: every row at which `inside` is on
      after reading it gets `z += sz` and an insertion at depth z; the
      column's rows of the box are reset. `z` and `sz` are carried over
      from the previous column, as in the source. */
  method ScanColumnDepth<T>(a: array2<real>, i: int, box: RectI, ghost g: Grid<real>, item: T, zb: ZBuffer<T>,
                            z0: real, sz0: real)
    returns (r: Result<()>, z: real, sz: real)
    requires box.t <= box.b && IsGrid(g, a.Length0, a.Length1)
    requires ScannedUpTo(a, i, box, box.t, g)
    requires zb.Valid() && a as object != zb.items as object
    modifies a, zb.items, zb.zs
    ensures ColumnFits(box, i, a.Length0, a.Length1) && ColumnFits(box, i, zb.width, zb.height) ==> r.Ok?
    ensures r.Ok? ==> ColumnFits(box, i, a.Length0, a.Length1)
    ensures r.Err? ==> r.error == IndexOutOfRange
    ensures r.Ok? ==> ScannedUpTo(a, i, box, box.b + 1, g)
    ensures r.Ok? ==>
              forall x, y :: zb.InRange(x, y) ==>
                zb.Cell(x, y) ==
                  if x == i && box.t <= y <= box.b && Inside(ColumnOf(g, i, box), y - box.t)
                  then Insertion(old(zb.Cell(x, y)), PaintDepth(ColumnOf(g, i, box), y - box.t), item)
                  else old(zb.Cell(x, y))
  {
    ghost var c := ColumnOf(g, i, box);
    ghost var s0 := ZState(false, z0, sz0);
    var inside := false;
    z, sz := z0, sz0;
    var j := box.t;
    while j <= box.b
      invariant box.t <= j <= box.b + 1
      invariant j > box.t ==> 0 <= i < a.Length0 && 0 <= box.t && j - 1 < a.Length1
      invariant ZState(inside, z, sz) == ZScan(c, j - box.t, s0)
      invariant ScannedUpTo(a, i, box, j, g)
      invariant forall x, y :: zb.InRange(x, y) ==>
                  zb.Cell(x, y) ==
                    if x == i && box.t <= y < j && Inside(c, y - box.t)
                    then Insertion(old(zb.Cell(x, y)), PaintDepth(c, y - box.t), item)
                    else old(zb.Cell(x, y))
      decreases box.b - j
    {
      if !(0 <= i < a.Length0 && 0 <= j < a.Length1) {
        return Err(IndexOutOfRange), z, sz;
      }
      ghost var t := j - box.t;
      var row := ScanRowDepth(a, i, j, box, g, c, ZState(inside, z, sz), item, zb);
      if row.Err? {
        return Err(row.error), z, sz;
      }
      inside, z, sz := row.value.inside, row.value.z, row.value.sz;
      ZScanPaints(c, t, s0);
      j := j + 1;
    }
    return Ok(()), z, sz;
  }

  // ---------------------------------------------------------------------
  // The whole box
  // ---------------------------------------------------------------------

  /** The columns of the box left of column i are scanned: their rows of
      the box hold `EMPTY`, every other cell what it held in g. */
  ghost predicate Cleared(a: array2<real>, box: RectI, i: int, g: Grid<real>)
    reads a
  {
    IsGrid(g, a.Length0, a.Length1) &&
    forall x, y {:trigger a[x, y]} :: 0 <= x < a.Length0 && 0 <= y < a.Length1 ==>
      a[x, y] == if InBox(box, x, y) && x < i then EMPTY else g[x][y]
  }

  /** Column i itself is still as it was when the pass began. */
  lemma ColumnUntouched(a: array2<real>, box: RectI, i: int, g: Grid<real>)
    requires Cleared(a, box, i, g)
    ensures ScannedUpTo(a, i, box, box.t, Snapshot(a))
    ensures ColumnOf(Snapshot(a), i, box) == ColumnOf(g, i, box)
  {
    var h := Snapshot(a);
    var c, d := ColumnOf(h, i, box), ColumnOf(g, i, box);
    forall t | 0 <= t < |c| ensures c[t] == d[t] {
      if 0 <= i < a.Length0 && 0 <= box.t + t < a.Length1 {
        assert h[i][box.t + t] == a[i, box.t + t] == g[i][box.t + t];
      }
    }
  }

  /** Scanning column i of a partly cleared map clears one more column. */
  lemma ColumnCleared(a: array2<real>, h: Grid<real>, box: RectI, i: int, g: Grid<real>)
    requires IsGrid(h, a.Length0, a.Length1) && IsGrid(g, a.Length0, a.Length1)
    requires forall x, y :: 0 <= x < a.Length0 && 0 <= y < a.Length1 ==>
               h[x][y] == if InBox(box, x, y) && x < i then EMPTY else g[x][y]
    requires box.l <= i <= box.r && ScannedUpTo(a, i, box, box.b + 1, h)
    ensures Cleared(a, box, i + 1, g)
  {
  }

  /** A fully scanned box is the grid with the box cleared. */
  lemma ClearedBox(a: array2<real>, box: RectI, g: Grid<real>)
    requires Cleared(a, box, box.r + 1, g)
    ensures Snapshot(a) == ClearBox(g, box)
  {
    GridExt(Snapshot(a), ClearBox(g, box), a.Length0, a.Length1);
  }

  /** Emitting column box.l + n after the first n columns gives the first
      n + 1 columns. */
  lemma BoxCellsNext(g: Grid<real>, box: RectI, i: int, n: nat, c: seq<real>, out0: seq<Vec2I>, out: seq<Vec2I>)
    requires n == i - box.l && c == ColumnOf(g, i, box) && out == out0 + BoxCells(g, box, n)
    ensures out + ColumnCells(c, i, box.t, Rows(box)) == out0 + BoxCells(g, box, n + 1)
  {
  }

  lemma ScanCellsAll(g: Grid<real>, box: RectI, out0: seq<Vec2I>, out: seq<Vec2I>, n: nat)
    requires box.l <= box.r && n == box.r + 1 - box.l && out == out0 + BoxCells(g, box, n)
    ensures out == out0 + ScanCells(g, box)
  {
  }

  /** One column of the list variant's pass over the box. */
  method ScanBoxColumnList(a: array2<real>, i: int, box: RectI, ghost g: Grid<real>, ghost n: nat,
                            out0: seq<Vec2I>, out: seq<Vec2I>)
    returns (r: Result<seq<Vec2I>>)
    requires box.l <= i <= box.r && box.t <= box.b && IsGrid(g, a.Length0, a.Length1)
    requires n == i - box.l && out == out0 + BoxCells(g, box, n)
    requires Cleared(a, box, i, g)
    modifies a
    ensures r.Ok? <==> ColumnFits(box, i, a.Length0, a.Length1)
    ensures r.Err? ==> r.error == IndexOutOfRange
    ensures r.Ok? ==> r.value == out0 + BoxCells(g, box, n + 1)
    ensures r.Ok? ==> Cleared(a, box, i + 1, g)
  {
    ghost var h := Snapshot(a);
    ColumnUntouched(a, box, i, g);
    r := ScanColumnList(a, i, box, h, out);
    if r.Ok? {
      ColumnCleared(a, h, box, i, g);
      BoxCellsNext(g, box, i, n, ColumnOf(h, i, box), out0, out);
    }
  }

  /** The columns of the list variant, left to right, over a map whose
      columns are all still as in g. */
  method ScanColumnsList(a: array2<real>, box: RectI, ghost g: Grid<real>, out0: seq<Vec2I>)
    returns (r: Result<seq<Vec2I>>)
    requires box.l <= box.r && box.t <= box.b
    requires Cleared(a, box, box.l, g)
    modifies a
    ensures r.Ok? <==> BoxFits(box, a.Length0, a.Length1)
    ensures r.Err? ==> r.error == IndexOutOfRange
    ensures r.Ok? ==> r.value == out0 + ScanCells(g, box)
    ensures r.Ok? ==> Cleared(a, box, box.r + 1, g)
  {
    var out := out0;
    var i := box.l;
    ghost var n: nat := 0;
    while i <= box.r
      invariant box.l <= i <= box.r + 1
      invariant i > box.l ==> 0 <= box.l && i - 1 < a.Length0 && 0 <= box.t && box.b < a.Length1
      invariant n == i - box.l && out == out0 + BoxCells(g, box, n)
      invariant Cleared(a, box, i, g)
      decreases box.r - i
    {
      var column := ScanBoxColumnList(a, i, box, g, n, out0, out);
      if column.Err? {
        return Err(column.error);
      }
      out := column.value;
      i, n := i + 1, n + 1;
    }
    ScanCellsAll(g, box, out0, out, n);
    return Ok(out);
  }

  /** The fill pass of the list variant over the whole box: appends
      `ScanCells` of the map as it was, and clears the box. */
  method ScanBoxList(a: array2<real>, box: RectI, out0: seq<Vec2I>) returns (r: Result<seq<Vec2I>>)
    requires box.l <= box.r && box.t <= box.b
    modifies a
    ensures r.Ok? <==> BoxFits(box, a.Length0, a.Length1)
    ensures r.Err? ==> r.error == IndexOutOfRange
    ensures r.Ok? ==> r.value == out0 + ScanCells(old(Snapshot(a)), box)
    ensures r.Ok? ==> Snapshot(a) == ClearBox(old(Snapshot(a)), box)
  {
    ghost var g := Snapshot(a);
    r := ScanColumnsList(a, box, g, out0);
    if r.Ok? {
      ClearedBox(a, box, g);
    }
  }

  /** The fill pass of the screen variant over the whole box: paints the
      cells `Painted` by the map as it was, and clears the box. */
  method ScanBoxScreen<T>(a: array2<real>, box: RectI, item: T, screen: Screen<T>) returns (r: Result<()>)
    requires box.l <= box.r && box.t <= box.b
    requires a as object != screen.items as object
    modifies a, screen.items
    ensures BoxFits(box, a.Length0, a.Length1) && BoxFits(box, screen.items.Length0, screen.items.Length1) ==> r.Ok?
    ensures r.Ok? ==> BoxFits(box, a.Length0, a.Length1)
    ensures r.Err? ==> r.error == IndexOutOfRange
    ensures r.Ok? ==> Snapshot(a) == ClearBox(old(Snapshot(a)), box)
    ensures r.Ok? ==>
              forall x, y :: 0 <= x < screen.items.Length0 && 0 <= y < screen.items.Length1 ==>
                screen.items[x, y] == if Painted(old(Snapshot(a)), box, x, y) then item else old(screen.items[x, y])
  {
    ghost var g := Snapshot(a);
    var i := box.l;
    while i <= box.r
      invariant box.l <= i <= box.r + 1
      invariant i > box.l ==> 0 <= box.l && i - 1 < a.Length0 && 0 <= box.t && box.b < a.Length1
      invariant Cleared(a, box, i, g)
      invariant forall x, y :: 0 <= x < screen.items.Length0 && 0 <= y < screen.items.Length1 ==>
                  screen.items[x, y] == if Painted(g, box, x, y) && x < i then item else old(screen.items[x, y])
      decreases box.r - i
    {
      ghost var h := Snapshot(a);
      ColumnUntouched(a, box, i, g);
      var column := ScanColumnScreen(a, i, box, h, item, screen);
      if column.Err? {
        return Err(column.error);
      }
      ColumnCleared(a, h, box, i, g);
      i := i + 1;
    }
    ClearedBox(a, box, g);
    return Ok(());
  }

  /** The depth a painted cell of the box receives. */
  function BoxDepth(g: Grid<real>, box: RectI, x: int, y: int): real
    requires InBox(box, x, y)
  {
    PaintDepth(ColumnOf(g, x, box), y - box.t)
  }

  /** The fill pass of the z-buffer variant over the whole box: every
      `Painted` cell gets an insertion at the interpolated depth, and the
      box is cleared. */
  method ScanBoxDepth<T>(a: array2<real>, box: RectI, item: T, zb: ZBuffer<T>) returns (r: Result<()>)
    requires box.l <= box.r && box.t <= box.b
    requires zb.Valid() && a as object != zb.items as object
    modifies a, zb.items, zb.zs
    ensures BoxFits(box, a.Length0, a.Length1) && BoxFits(box, zb.width, zb.height) ==> r.Ok?
    ensures r.Ok? ==> BoxFits(box, a.Length0, a.Length1)
    ensures r.Err? ==> r.error == IndexOutOfRange
    ensures r.Ok? ==> Snapshot(a) == ClearBox(old(Snapshot(a)), box)
    ensures r.Ok? ==>
              forall x, y :: zb.InRange(x, y) ==>
                zb.Cell(x, y) == if Painted(old(Snapshot(a)), box, x, y)
                                 then Insertion(old(zb.Cell(x, y)), BoxDepth(old(Snapshot(a)), box, x, y), item)
                                 else old(zb.Cell(x, y))
  {
    ghost var g := Snapshot(a);
    var z: real := 0.0;
    var sz: real := 0.0;
    var i := box.l;
    while i <= box.r
      invariant box.l <= i <= box.r + 1
      invariant i > box.l ==> 0 <= box.l && i - 1 < a.Length0 && 0 <= box.t && box.b < a.Length1
      invariant Cleared(a, box, i, g)
      invariant forall x, y :: zb.InRange(x, y) ==>
                  zb.Cell(x, y) == if Painted(g, box, x, y) && x < i
                                   then Insertion(old(zb.Cell(x, y)), BoxDepth(g, box, x, y), item)
                                   else old(zb.Cell(x, y))
      decreases box.r - i
    {
      var column;
      ghost var h := Snapshot(a);
      ColumnUntouched(a, box, i, g);
      column, z, sz := ScanColumnDepth(a, i, box, h, item, zb, z, sz);
      if column.Err? {
        return Err(column.error);
      }
      ColumnCleared(a, h, box, i, g);
      i := i + 1;
    }
    ClearedBox(a, box, g);
    return Ok(());
  }
}
