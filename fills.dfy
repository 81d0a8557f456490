// The indicator map of the polygon rasterizer (Rasterizer.cs) as a value:
// a grid of floats in which `EMPTY` means "no mark". The edges stamp marks
// into it; the column scan reads every cell of the bounding box top to
// bottom, toggling an `inside` flag at every mark and resetting the mark to
// `EMPTY`. The definitions here describe one column scan and its result;
// the rasterizer's loops are proved against them.
module Fills {
  import opened Numerics
  import opened Vectors
  import opened Screens

  /** The sentinel of an unmarked cell. A mark whose value happens to be
      1.0 is indistinguishable from no mark. */
  const EMPTY: real := 1.0

  /** The bounding box, rows `t..b` of columns `l..r`, both inclusive. */
  predicate InBox(box: RectI, i: int, j: int)
  {
    box.l <= i <= box.r && box.t <= j <= box.b
  }

  /** The box is empty or lies within a w-by-h map. */
  predicate BoxFits(box: RectI, w: int, h: int)
  {
    box.l <= box.r && box.t <= box.b ==> 0 <= box.l && box.r < w && 0 <= box.t && box.b < h
  }

  // ---------------------------------------------------------------------
  // One column
  // ---------------------------------------------------------------------

  /** There is a mark in a row below row t. */
  predicate MarkBelow(c: seq<real>, t: int)
  {
    exists u :: 0 <= u < |c| && t < u && c[u] != EMPTY
  }

  /** The `inside` flag after the scan has read row t of column c: at a
      mark it turns on if it was off and another mark lies further down,
      and turns off otherwise; elsewhere it keeps its value. */
  function Inside(c: seq<real>, t: int): bool
    requires 0 <= t < |c|
  {
    var before := t > 0 && Inside(c, t - 1);
    if c[t] != EMPTY then !before && MarkBelow(c, t) else before
  }

  /** The number of marks in rows 0..n-1. */
  function Marks(c: seq<real>, n: int): nat
    requires 0 <= n <= |c|
  {
    if n == 0 then 0 else Marks(c, n - 1) + if c[n - 1] != EMPTY then 1 else 0
  }

  /** The even-odd rule: the scan is inside after row t exactly when an odd
      number of marks lie in rows 0..t and another one lies below. So the
      rows from the first mark down to the row before the second are
      inside, then from the third to the row before the fourth, and so on;
      an unpaired last mark opens nothing. */
  lemma {:induction false} EvenOdd(c: seq<real>, t: int)
    requires 0 <= t < |c|
    ensures Inside(c, t) <==> Marks(c, t + 1) % 2 == 1 && MarkBelow(c, t)
  {
    if t > 0 {
      EvenOdd(c, t - 1);
      if c[t] != EMPTY {
        assert MarkBelow(c, t - 1);
      } else {
        assert MarkBelow(c, t - 1) <==> MarkBelow(c, t) by {
          if MarkBelow(c, t - 1) {
            var u :| t - 1 < u < |c| && c[u] != EMPTY;
            assert u != t;
          }
        }
      }
    }
  }

  /** What the list variant emits for rows 0..n-1 of column i: the unmarked
      rows read while inside, as cells (i, top + row). */
  function ColumnCells(c: seq<real>, i: int, top: int, n: int): (cs: seq<Vec2I>)
    requires 0 <= n <= |c|
  {
    if n == 0 then [] else
      var last := if c[n - 1] == EMPTY && n - 1 > 0 && Inside(c, n - 2) then [Vec2I(i, top + n - 1)] else [];
      ColumnCells(c, i, top, n - 1) + last
  }

  /** Every cell of cs is (i, top + u) for an unmarked row u < n that the
      even-odd rule puts inside, in increasing row order. */
  predicate Emitted(c: seq<real>, i: int, top: int, n: int, cs: seq<Vec2I>)
    requires 0 <= n <= |c|
  {
    (forall k :: 0 <= k < |cs| ==>
       cs[k].x == i && 0 <= cs[k].y - top < n && c[cs[k].y - top] == EMPTY && Inside(c, cs[k].y - top)) &&
    (forall k, m :: 0 <= k < m < |cs| ==> cs[k].y < cs[m].y)
  }

  /** The list variant emits only unmarked rows that the even-odd rule
      puts inside, each once and in order. */
  lemma {:induction false} ColumnCellsSound(c: seq<real>, i: int, top: int, n: int)
    requires 0 <= n <= |c|
    ensures Emitted(c, i, top, n, ColumnCells(c, i, top, n))
  {
    if n > 0 {
      ColumnCellsSound(c, i, top, n - 1);
      var prev := ColumnCells(c, i, top, n - 1);
      var cs := ColumnCells(c, i, top, n);
      if c[n - 1] == EMPTY && n - 1 > 0 && Inside(c, n - 2) {
        EmittedSnoc(c, i, top, n, prev);
      } else {
        assert cs == prev;
        EmittedWiden(c, i, top, n, prev);
      }
    }
  }

  lemma EmittedWiden(c: seq<real>, i: int, top: int, n: int, cs: seq<Vec2I>)
    requires 1 <= n <= |c| && Emitted(c, i, top, n - 1, cs)
    ensures Emitted(c, i, top, n, cs)
  {
  }

  lemma EmittedSnoc(c: seq<real>, i: int, top: int, n: int, prev: seq<Vec2I>)
    requires 2 <= n <= |c| && Emitted(c, i, top, n - 1, prev)
    requires c[n - 1] == EMPTY && Inside(c, n - 2)
    ensures Emitted(c, i, top, n, prev + [Vec2I(i, top + n - 1)])
  {
    var cs := prev + [Vec2I(i, top + n - 1)];
    assert Inside(c, n - 1);
    forall k | 0 <= k < |cs|
      ensures cs[k].x == i && 0 <= cs[k].y - top < n && c[cs[k].y - top] == EMPTY && Inside(c, cs[k].y - top)
    {
      if k < |prev| {
        assert cs[k] == prev[k];
      }
    }
    forall k, m | 0 <= k < m < |cs| ensures cs[k].y < cs[m].y {
      assert cs[k] == prev[k];
      if m < |prev| {
        assert cs[m] == prev[m];
      }
    }
  }

  /** Every unmarked row that the even-odd rule puts inside is emitted. */
  lemma {:induction false} ColumnCellsComplete(c: seq<real>, i: int, top: int, n: int)
    requires 0 <= n <= |c|
    ensures forall u :: 0 <= u < n && c[u] == EMPTY && Inside(c, u) ==> Vec2I(i, top + u) in ColumnCells(c, i, top, n)
  {
    if n > 0 {
      ColumnCellsComplete(c, i, top, n - 1);
      var prev := ColumnCells(c, i, top, n - 1);
      var cs := ColumnCells(c, i, top, n);
      forall u | 0 <= u < n && c[u] == EMPTY && Inside(c, u) ensures Vec2I(i, top + u) in cs {
        if u < n - 1 {
          assert Vec2I(i, top + u) in prev;
        } else {
          assert cs == prev + [Vec2I(i, top + u)];
        }
      }
    }
  }

  /** The number of rows of the box. */
  function Rows(box: RectI): nat
  {
    if box.b >= box.t then box.b - box.t + 1 else 0
  }

  /** Column i of g over the rows of the box. A cell outside g reads as
      `EMPTY`; the scan fails before it would read one. */
  function ColumnOf(g: Grid<real>, i: int, box: RectI): (c: seq<real>)
    ensures |c| == Rows(box)
    ensures forall t :: 0 <= t < |c| && InGrid(g, Vec2I(i, box.t + t)) ==> c[t] == g[i][box.t + t]
  {
    RowsFrom(g, i, box.t, Rows(box))
  }

  /** Cell (i, y) of g, or `EMPTY` outside g. */
  function CellOr(g: Grid<real>, i: int, y: int): real
  {
    if 0 <= i < |g| && 0 <= y < |g[i]| then g[i][y] else EMPTY
  }

  /** Rows top..top+n-1 of column i of g. */
  function RowsFrom(g: Grid<real>, i: int, top: int, n: nat): (c: seq<real>)
    ensures |c| == n && forall t :: 0 <= t < n ==> c[t] == CellOr(g, i, top + t)
  {
    if n == 0 then [] else RowsFrom(g, i, top, n - 1) + [CellOr(g, i, top + n - 1)]
  }

  /** What the list variant emits for the first n columns of the box. */
  function BoxCells(g: Grid<real>, box: RectI, n: int): seq<Vec2I>
    requires n >= 0
  {
    if n == 0 then [] else
      var i := box.l + n - 1;
      BoxCells(g, box, n - 1) + ColumnCells(ColumnOf(g, i, box), i, box.t, Rows(box))
  }

  /** What the list variant emits for the whole box. */
  function ScanCells(g: Grid<real>, box: RectI): seq<Vec2I>
  {
    if box.l <= box.r then BoxCells(g, box, box.r - box.l + 1) else []
  }

  /** A cell the list variant may emit: in a row of the box, unmarked, and
      inside by the even-odd rule of its column. */
  predicate Emits(g: Grid<real>, box: RectI, p: Vec2I)
  {
    box.t <= p.y <= box.b &&
    ColumnOf(g, p.x, box)[p.y - box.t] == EMPTY && Inside(ColumnOf(g, p.x, box), p.y - box.t)
  }

  lemma ColumnSound(g: Grid<real>, box: RectI, i: int)
    ensures forall p :: p in ColumnCells(ColumnOf(g, i, box), i, box.t, Rows(box)) ==> p.x == i && Emits(g, box, p)
  {
    var c := ColumnOf(g, i, box);
    ColumnCellsSound(c, i, box.t, Rows(box));
    var cs := ColumnCells(c, i, box.t, Rows(box));
    forall p | p in cs ensures p.x == i && Emits(g, box, p) {
      var k :| 0 <= k < |cs| && cs[k] == p;
    }
  }

  /** Every cell emitted for the first n columns is one of them and may be
      emitted. */
  lemma {:induction false} BoxCellsSound(g: Grid<real>, box: RectI, n: int)
    requires n >= 0
    ensures forall p :: p in BoxCells(g, box, n) ==> box.l <= p.x < box.l + n && Emits(g, box, p)
  {
    if n > 0 {
      BoxCellsSound(g, box, n - 1);
      ColumnSound(g, box, box.l + n - 1);
    }
  }

  /** `rasterPoly` into a list emits only unmarked cells of the box that
      lie between a mark and the next one below it. */
  lemma ScanCellsSound(g: Grid<real>, box: RectI)
    ensures forall p :: p in ScanCells(g, box) ==>
              InBox(box, p.x, p.y) && Emits(g, box, p) && (InGrid(g, p) ==> g[p.x][p.y] == EMPTY)
  {
    if box.l <= box.r {
      BoxCellsSound(g, box, box.r - box.l + 1);
    }
  }

  /** The Screen and ZBuffer variants paint a cell of the box when the
      column's `inside` flag is on after reading it. */
  predicate Painted(g: Grid<real>, box: RectI, i: int, j: int)
  {
    InBox(box, i, j) && Inside(ColumnOf(g, i, box), j - box.t)
  }

  /** The grid with every cell of the box reset to `EMPTY`. */
  function ClearBox(g: Grid<real>, box: RectI): (g': Grid<real>)
    ensures |g'| == |g| && forall i :: 0 <= i < |g| ==> |g'[i]| == |g[i]|
    ensures forall i, j :: 0 <= i < |g| && 0 <= j < |g[i]| ==>
              g'[i][j] == if InBox(box, i, j) then EMPTY else g[i][j]
  {
    seq(|g|, i requires 0 <= i < |g| =>
      seq(|g[i]|, j requires 0 <= j < |g[i]| => if InBox(box, i, j) then EMPTY else g[i][j]))
  }

  predicate AllEmpty(g: Grid<real>)
  {
    forall i, j :: 0 <= i < |g| && 0 <= j < |g[i]| ==> g[i][j] == EMPTY
  }

  /** Marks that all fall inside the box are all consumed by the scan: an
      all-`EMPTY` map is all `EMPTY` again afterwards. */
  lemma EmptyRestored(g: Grid<real>, ms: seq<Mark<real>>, box: RectI)
    requires AllEmpty(g)
    requires forall k :: 0 <= k < |ms| ==> InBox(box, ms[k].cell.x, ms[k].cell.y)
    ensures AllEmpty(ClearBox(Stamp(g, ms), box))
  {
    var g' := Stamp(g, ms);
    forall i, j | 0 <= i < |g| && 0 <= j < |g[i]| && !InBox(box, i, j)
      ensures g'[i][j] == EMPTY
    {
      StampElsewhere(g, ms, i, j);
    }
  }

  /** Writes of the value `EMPTY` into an all-`EMPTY` map leave it
      all `EMPTY`. */
  lemma {:induction false} StampEmpty(g: Grid<real>, ms: seq<Mark<real>>)
    requires AllEmpty(g)
    requires forall k :: 0 <= k < |ms| ==> ms[k].value == EMPTY
    ensures AllEmpty(Stamp(g, ms))
    decreases |ms|
  {
    if |ms| > 0 {
      StampEmpty(g, ms[..|ms| - 1]);
    }
  }

  /** A column without marks is never inside. */
  lemma {:induction false} UnmarkedOutside(c: seq<real>, t: int)
    requires 0 <= t < |c|
    requires forall u :: 0 <= u < |c| ==> c[u] == EMPTY
    ensures !Inside(c, t)
  {
    if t > 0 {
      UnmarkedOutside(c, t - 1);
    }
  }

  /** A mark whose value is `EMPTY` is no mark: when every write into an
      all-`EMPTY` map has the value 1.0, the scan meets no mark, so it
      paints no cell and the list variant emits none. */
  lemma MarksOfOnePaintNothing(g: Grid<real>, ms: seq<Mark<real>>, box: RectI)
    requires AllEmpty(g)
    requires forall k :: 0 <= k < |ms| ==> ms[k].value == EMPTY
    ensures forall i, j :: !Painted(Stamp(g, ms), box, i, j)
    ensures ScanCells(Stamp(g, ms), box) == []
  {
    var g' := Stamp(g, ms);
    StampEmpty(g, ms);
    forall i, j | InBox(box, i, j) ensures !Inside(ColumnOf(g', i, box), j - box.t) {
      UnmarkedOutside(ColumnOf(g', i, box), j - box.t);
    }
    ScanCellsSound(g', box);
    var cs := ScanCells(g', box);
    if |cs| > 0 {
      var p := cs[0];
      UnmarkedOutside(ColumnOf(g', p.x, box), p.y - box.t);
    }
  }

  // ---------------------------------------------------------------------
  // The depth-interpolating column scan of the ZBuffer variant
  // ---------------------------------------------------------------------

  /** The nearest marked row at or after row u. */
  function NextMark(c: seq<real>, u: int): (r: Option<int>)
    requires 0 <= u <= |c|
    ensures r.Some? ==> u <= r.value < |c| && c[r.value] != EMPTY &&
                        forall v :: u <= v < r.value ==> c[v] == EMPTY
    ensures r.None? ==> forall v :: u <= v < |c| ==> c[v] == EMPTY
    decreases |c| - u
  {
    if u == |c| then None else if c[u] != EMPTY then Some(u) else NextMark(c, u + 1)
  }

  /** The scan's variables after a row: `inside`, the running depth `z`
      and the per-row increment `sz`. */
  datatype ZState = ZState(inside: bool, z: real, sz: real)

  /** One row of the ZBuffer variant: at a mark `z` takes the mark's value;
      on entering, `sz` becomes the slope to the next mark; every row read
      while inside adds `sz` to `z` before painting. */
  function ZStep(c: seq<real>, t: int, s: ZState): ZState
    requires 0 <= t < |c|
  {
    var s1 :=
      if c[t] == EMPTY then s
      else if s.inside then ZState(false, c[t], s.sz)
      else match NextMark(c, t + 1)
        case Some(u) => ZState(true, c[t], (c[u] - c[t]) / (u - t) as real)
        case None => ZState(false, c[t], s.sz);
    if s1.inside then ZState(true, s1.z + s1.sz, s1.sz) else s1
  }

  /** The variables after rows 0..n-1, from `s0` at the top of the column. */
  function ZScan(c: seq<real>, n: int, s0: ZState): ZState
    requires 0 <= n <= |c|
  {
    if n == 0 then s0 else ZStep(c, n - 1, ZScan(c, n - 1, s0))
  }

  /** The running depth of state s reaches the value of the next mark at
      or after row n on the row just above that mark. */
  predicate Reaches(c: seq<real>, n: int, s: ZState)
    requires 0 <= n <= |c|
  {
    match NextMark(c, n)
    case Some(u) => s.z + (u - n) as real * s.sz == c[u]
    case None => false
  }

  /** One row keeps the relation between the state and the even-odd rule. */
  lemma ZStepKeeps(c: seq<real>, t: int, prev: ZState)
    requires 0 <= t < |c|
    requires prev.inside <==> t > 0 && Inside(c, t - 1)
    requires prev.inside ==> Reaches(c, t, prev)
    ensures var s := ZStep(c, t, prev);
            (s.inside <==> Inside(c, t)) && (s.inside ==> Reaches(c, t + 1, s))
  {
    if c[t] != EMPTY && !prev.inside {
      ZStepOpens(c, t, prev);
    } else if c[t] == EMPTY && prev.inside {
      ZStepContinues(c, t, prev);
    } else if c[t] != EMPTY && prev.inside {
      assert MarkBelow(c, t - 1);
    }
  }

  lemma ZStepOpens(c: seq<real>, t: int, prev: ZState)
    requires 0 <= t < |c| && c[t] != EMPTY && !prev.inside
    ensures var s := ZStep(c, t, prev);
            (s.inside <==> MarkBelow(c, t)) && (s.inside ==> Reaches(c, t + 1, s))
  {
    match NextMark(c, t + 1)
    case Some(u) =>
      var sz := (c[u] - c[t]) / (u - t) as real;
      var s := ZStep(c, t, prev);
      assert s == ZState(true, c[t] + sz, sz);
      assert sz * (u - t) as real == c[u] - c[t];
      assert (u - (t + 1)) as real * sz == sz * (u - t) as real - sz;
    case None =>
  }

  lemma ZStepContinues(c: seq<real>, t: int, prev: ZState)
    requires 0 <= t < |c| && c[t] == EMPTY && prev.inside && Reaches(c, t, prev)
    ensures var s := ZStep(c, t, prev);
            s.inside && Reaches(c, t + 1, s)
  {
    var u := NextMark(c, t).value;
    assert u != t;
    assert NextMark(c, t + 1) == Some(u);
    var s := ZStep(c, t, prev);
    assert s == ZState(true, prev.z + prev.sz, prev.sz);
    assert (u - t) as real * prev.sz == (u - (t + 1)) as real * prev.sz + prev.sz;
  }

  /** The ZBuffer variant paints exactly the rows the even-odd rule puts
      inside; it paints marked rows that open a span too. Whenever it is
      inside, the running depth reaches the next mark's value on the row
      just above that mark, so the painted depths run from the opening
      mark's value plus one increment to the closing mark's value. */
  lemma {:induction false} ZScanInside(c: seq<real>, n: int, s0: ZState)
    requires 1 <= n <= |c| && !s0.inside
    ensures var s := ZScan(c, n, s0);
            (s.inside <==> Inside(c, n - 1)) && (s.inside ==> Reaches(c, n, s))
  {
    if n > 1 {
      ZScanInside(c, n - 1, s0);
    }
    ZStepKeeps(c, n - 1, ZScan(c, n - 1, s0));
  }

  /** What the scan carries over from the previous column does not change
      which rows are painted or the depths painted. */
  lemma {:induction false} ZScanFresh(c: seq<real>, n: int, s0: ZState, s1: ZState)
    requires 0 <= n <= |c| && !s0.inside && !s1.inside
    ensures var a, b := ZScan(c, n, s0), ZScan(c, n, s1);
            a.inside == b.inside && (a.inside ==> a.z == b.z && a.sz == b.sz)
  {
    if n > 0 {
      ZScanFresh(c, n - 1, s0, s1);
    }
  }
}
