// `Screen<T>` and `ZBuffer<T>` (Rasterizer.cs): the grids the rasterizer
// paints into. A screen is a plain 2D array of items; a z-buffer adds a depth
// per cell and lets an item in only when it lies strictly in front. The
// jagged `T[][]` and `float[][]` arrays are modelled as 2D arrays, and C#'s
// `default(T)` is a constructor parameter.
module Screens {
  import opened Numerics
  import opened Vectors

  /** A w-by-h grid of cells, indexed [x][y]: the value held by a 2D array. */
  type Grid<C> = seq<seq<C>>

  predicate IsGrid<C>(g: Grid<C>, w: int, h: int)
  {
    |g| == w && forall i :: 0 <= i < |g| ==> |g[i]| == h
  }

  predicate InGrid<C>(g: Grid<C>, p: Vec2I)
  {
    0 <= p.x < |g| && 0 <= p.y < |g[p.x]|
  }

  /** The contents of a 2D array as a grid. */
  ghost function Snapshot<C>(a: array2<C>): (g: Grid<C>)
    reads a
    ensures IsGrid(g, a.Length0, a.Length1)
    ensures forall i, j {:trigger g[i][j]} :: 0 <= i < a.Length0 && 0 <= j < a.Length1 ==> g[i][j] == a[i, j]
  {
    SnapshotRows(a, a.Length0)
  }

  /** The first `n` columns of a 2D array. */
  ghost function SnapshotRows<C>(a: array2<C>, n: nat): (g: Grid<C>)
    reads a
    requires n <= a.Length0
    ensures |g| == n && forall i :: 0 <= i < n ==> g[i] == SnapshotRow(a, i, a.Length1)
  {
    if n == 0 then [] else SnapshotRows(a, n - 1) + [SnapshotRow(a, n - 1, a.Length1)]
  }

  /** The first `n` cells of column `i` of a 2D array. */
  ghost function SnapshotRow<C>(a: array2<C>, i: nat, n: nat): (r: seq<C>)
    reads a
    requires i < a.Length0 && n <= a.Length1
    ensures |r| == n && forall j {:trigger r[j]} :: 0 <= j < n ==> r[j] == a[i, j]
  {
    if n == 0 then [] else SnapshotRow(a, i, n - 1) + [a[i, n - 1]]
  }

  /** Two grids of the same shape with the same cells are equal. */
  lemma GridExt<C>(g: Grid<C>, g': Grid<C>, w: int, h: int)
    requires IsGrid(g, w, h) && IsGrid(g', w, h)
    requires forall i, j :: 0 <= i < w && 0 <= j < h ==> g[i][j] == g'[i][j]
    ensures g == g'
  {
    forall i | 0 <= i < w ensures g[i] == g'[i] {
      assert forall j :: 0 <= j < h ==> g[i][j] == g'[i][j];
    }
  }

  /** The grid with one cell replaced; a cell outside leaves it alone. */
  function Put<C>(g: Grid<C>, p: Vec2I, v: C): (g': Grid<C>)
    ensures |g'| == |g| && forall i :: 0 <= i < |g| ==> |g'[i]| == |g[i]|
    ensures forall i, j :: 0 <= i < |g| && 0 <= j < |g[i]| ==>
              g'[i][j] == if Vec2I(i, j) == p then v else g[i][j]
  {
    if InGrid(g, p) then g[p.x := g[p.x][p.y := v]] else g
  }

  /** A write: a cell and the value written into it. */
  datatype Mark<C> = Mark(cell: Vec2I, value: C)

  /** The grid after the writes in order; a later write of the same cell
      overwrites an earlier one, and a write outside the grid changes
      nothing. */
  function Stamp<C>(g: Grid<C>, ms: seq<Mark<C>>): (g': Grid<C>)
    ensures |g'| == |g| && forall i :: 0 <= i < |g| ==> |g'[i]| == |g[i]|
    decreases |ms|
  {
    if |ms| == 0 then g else Put(Stamp(g, ms[..|ms| - 1]), ms[|ms| - 1].cell, ms[|ms| - 1].value)
  }

  /** Stamping is done write by write. */
  lemma StampAppend<C>(g: Grid<C>, ms: seq<Mark<C>>, ms': seq<Mark<C>>)
    ensures Stamp(g, ms + ms') == Stamp(Stamp(g, ms), ms')
    decreases |ms'|
  {
    if |ms'| > 0 {
      assert (ms + ms')[..|ms + ms'| - 1] == ms + ms'[..|ms'| - 1];
      StampAppend(g, ms, ms'[..|ms'| - 1]);
    } else {
      assert ms + ms' == ms;
    }
  }

  /** One more write: the grid after k + 1 writes is the grid after k
      with write k applied. */
  lemma StampSnoc<C>(g: Grid<C>, ms: seq<Mark<C>>, k: nat)
    requires k < |ms|
    ensures Stamp(g, ms[..k + 1]) == Put(Stamp(g, ms[..k]), ms[k].cell, ms[k].value)
  {
    assert ms[..k + 1][..k] == ms[..k];
  }

  /** A cell that no write names keeps its value. */
  lemma {:induction false} StampElsewhere<C>(g: Grid<C>, ms: seq<Mark<C>>, i: int, j: int)
    requires 0 <= i < |g| && 0 <= j < |g[i]|
    requires forall k :: 0 <= k < |ms| ==> ms[k].cell != Vec2I(i, j)
    ensures Stamp(g, ms)[i][j] == g[i][j]
    decreases |ms|
  {
    if |ms| > 0 {
      StampElsewhere(g, ms[..|ms| - 1], i, j);
    }
  }

  /** Every cell of `cells` written with a value that depends on the cell
      alone. */
  function ByCell<C>(cells: seq<Vec2I>, f: Vec2I -> C): (ms: seq<Mark<C>>)
    ensures |ms| == |cells| && forall k :: 0 <= k < |ms| ==> ms[k] == Mark(cells[k], f(cells[k]))
  {
    seq(|cells|, k requires 0 <= k < |cells| => Mark(cells[k], f(cells[k])))
  }

  /** Writes whose value depends on the cell alone: a cell that some write
      names ends up with that value, whichever write came last, and every
      other cell keeps its value. */
  lemma {:induction false} StampByCell<C>(g: Grid<C>, cells: seq<Vec2I>, f: Vec2I -> C, i: int, j: int)
    requires 0 <= i < |g| && 0 <= j < |g[i]|
    ensures Stamp(g, ByCell(cells, f))[i][j] == if Vec2I(i, j) in cells then f(Vec2I(i, j)) else g[i][j]
    decreases |cells|
  {
    if |cells| > 0 {
      var n := |cells|;
      assert ByCell(cells, f)[..n - 1] == ByCell(cells[..n - 1], f);
      StampByCell(g, cells[..n - 1], f, i, j);
      assert cells == cells[..n - 1] + [cells[n - 1]];
    }
  }

  /** The same after earlier writes `ms`. */
  lemma StampThenByCell<C>(g: Grid<C>, ms: seq<Mark<C>>, cells: seq<Vec2I>, f: Vec2I -> C, i: int, j: int)
    requires 0 <= i < |g| && 0 <= j < |g[i]|
    ensures Stamp(g, ms + ByCell(cells, f))[i][j] == if Vec2I(i, j) in cells then f(Vec2I(i, j)) else Stamp(g, ms)[i][j]
  {
    StampAppend(g, ms, ByCell(cells, f));
    StampByCell(Stamp(g, ms), cells, f, i, j);
  }

  /** Several lists of writes, one after the other. */
  function Flatten<C>(ess: seq<seq<Mark<C>>>): seq<Mark<C>>
  {
    if |ess| == 0 then [] else Flatten(ess[..|ess| - 1]) + ess[|ess| - 1]
  }

  /** Every write of ms names a cell with property P. */
  predicate AllCells<C>(ms: seq<Mark<C>>, P: Vec2I -> bool)
  {
    forall k :: 0 <= k < |ms| ==> P(ms[k].cell)
  }

  /** The writes of all lists name cells with property P exactly when
      those of each list do. */
  lemma {:induction false} FlattenAll<C>(ess: seq<seq<Mark<C>>>, P: Vec2I -> bool)
    ensures AllCells(Flatten(ess), P) <==> forall k :: 0 <= k < |ess| ==> AllCells(ess[k], P)
    decreases |ess|
  {
    if |ess| > 0 {
      var n := |ess|;
      var front, last := Flatten(ess[..n - 1]), ess[n - 1];
      FlattenAll(ess[..n - 1], P);
      assert AllCells(front + last, P) <==> AllCells(front, P) && AllCells(last, P) by {
        var both := front + last;
        if AllCells(both, P) {
          forall k | 0 <= k < |front| ensures P(front[k].cell) {
            assert both[k] == front[k];
          }
          forall k | 0 <= k < |last| ensures P(last[k].cell) {
            assert both[|front| + k] == last[k];
          }
        }
        if AllCells(front, P) && AllCells(last, P) {
          forall k | 0 <= k < |both| ensures P(both[k].cell) {
            if k < |front| {
              assert both[k] == front[k];
            } else {
              assert both[k] == last[k - |front|];
            }
          }
        }
      }
      assert forall k :: 0 <= k < n - 1 ==> ess[..n - 1][k] == ess[k];
    }
  }

  class Screen<T> {
    const width: int
    const height: int
    const items: array2<T>

    ghost predicate Valid()
    {
      items.Length0 == width && items.Length1 == ColumnLength(width, height)
    }

    predicate InRange(x: int, y: int)
    {
      0 <= x < items.Length0 && 0 <= y < items.Length1
    }

    /** `Screen(width, height)`: every cell holds `default(T)`. The sizes
        are those for which the allocation does not throw (see `Create`). */
    constructor (w: int, h: int, init: T)
      requires !JaggedThrows(w, h)
      ensures Valid() && width == w && height == h && fresh(items)
      ensures forall i, j :: 0 <= i < w && 0 <= j < h ==> items[i, j] == init
    {
      width, height := w, h;
      items := new T[w, ColumnLength(w, h)]((i, j) => init);
    }

    /** `Screen(width, height, background)`: then `Clear(background)`. */
    constructor WithBackground(w: int, h: int, background: T)
      requires !JaggedThrows(w, h)
      ensures Valid() && width == w && height == h && fresh(items)
      ensures forall i, j :: 0 <= i < w && 0 <= j < h ==> items[i, j] == background
    {
      width, height := w, h;
      items := new T[w, ColumnLength(w, h)]((i, j) => background);
      new;
      Clear(background);
    }

    /** `new Screen<T>(width, height)` for any sizes: a negative width, or a
        negative height with a column to allocate, throws. */
    static method Create(w: int, h: int, init: T) returns (r: Result<Screen<T>>)
      ensures r.Err? <==> JaggedThrows(w, h)
      ensures r.Err? ==> r.error == Overflow
      ensures r.Ok? ==> fresh(r.value) && fresh(r.value.items) && r.value.Valid() &&
                        r.value.width == w && r.value.height == h &&
                        forall i, j :: 0 <= i < w && 0 <= j < h ==> r.value.items[i, j] == init
    {
      if JaggedThrows(w, h) {
        return Err(Overflow);
      }
      var screen := new Screen(w, h, init);
      return Ok(screen);
    }

    /** `new Screen<T>(width, height, background)` for any sizes. */
    static method CreateWithBackground(w: int, h: int, background: T) returns (r: Result<Screen<T>>)
      ensures r.Err? <==> JaggedThrows(w, h)
      ensures r.Err? ==> r.error == Overflow
      ensures r.Ok? ==> fresh(r.value) && fresh(r.value.items) && r.value.Valid() &&
                        r.value.width == w && r.value.height == h &&
                        forall i, j :: 0 <= i < w && 0 <= j < h ==> r.value.items[i, j] == background
    {
      if JaggedThrows(w, h) {
        return Err(Overflow);
      }
      var screen := new Screen.WithBackground(w, h, background);
      return Ok(screen);
    }

    /** The indexer's getter; an index outside the items throws. */
    function Get(x: int, y: int): (r: Result<T>)
      reads items
      ensures r.Ok? <==> InRange(x, y)
      ensures r.Ok? ==> r.value == items[x, y]
      ensures r.Err? ==> r.error == IndexOutOfRange
    {
      if InRange(x, y) then Ok(items[x, y]) else Err(IndexOutOfRange)
    }

    /** The indexer's setter: writes one cell and nothing else; a cell
        outside the screen throws. */
    method Set(x: int, y: int, item: T) returns (r: Result<()>)
      modifies items
      ensures r.Ok? <==> InRange(x, y)
      ensures r.Err? ==> r.error == IndexOutOfRange
      ensures forall i, j :: 0 <= i < items.Length0 && 0 <= j < items.Length1 ==>
                items[i, j] == if r.Ok? && i == x && j == y then item else old(items[i, j])
    {
      if !InRange(x, y) {
        return Err(IndexOutOfRange);
      }
      items[x, y] := item;
      return Ok(());
    }

    /** Every cell becomes `background`. */
    method Clear(background: T)
      requires Valid()
      modifies items
      ensures forall i, j :: 0 <= i < width && 0 <= j < height ==> items[i, j] == background
    {
      for i := 0 to width
        invariant forall a, b :: 0 <= a < width && 0 <= b < height ==>
                    items[a, b] == if a < i then background else old(items[a, b])
      {
        for j := 0 to height
          invariant forall a, b :: 0 <= a < width && 0 <= b < height ==>
                      items[a, b] == if a < i || (a == i && b < j) then background else old(items[a, b])
        {
          items[i, j] := background;
        }
      }
    }
  }

  /** What `Insert` does to one cell: the item goes in exactly when the
      stored depth is strictly below the new one. */
  function Insertion<T>(cell: (Depth, T), z: real, item: T): (r: (Depth, T))
  {
    if cell.0.Below(Fin(z)) then (Fin(z), item) else cell
  }

  /** Insertion keeps the greater depth: the stored depth never decreases,
      ends at or above the new one, and the item changes only with it. */
  lemma InsertionKeepsFront<T>(cell: (Depth, T), z: real, item: T)
    ensures var r := Insertion(cell, z, item);
            !r.0.Below(cell.0) && !r.0.Below(Fin(z)) &&
            (r.1 != cell.1 ==> r == (Fin(z), item))
  {
    BelowStrictOrder(cell.0, Fin(z), Fin(z));
  }

  /** The cell after a run of writes through `ZBuffer`'s indexer, which
      inserts every item at depth 0. */
  function ZeroWrites<T>(cell: (Depth, T), ws: seq<T>): (Depth, T)
    decreases |ws|
  {
    if |ws| == 0 then cell else ZeroWrites(Insertion(cell, 0.0, ws[0]), ws[1..])
  }

  /** Writes through the indexer keep the first writer: on a cell below
      depth 0 (a cleared cell is at -infinity) the first item goes in at
      depth 0 and every later one loses, because 0 < 0 is false; on a cell
      at depth 0 or above nothing goes in. */
  lemma {:induction false} FirstWriteKept<T>(cell: (Depth, T), ws: seq<T>)
    ensures |ws| > 0 && cell.0.Below(Fin(0.0)) ==> ZeroWrites(cell, ws) == (Fin(0.0), ws[0])
    ensures !cell.0.Below(Fin(0.0)) ==> ZeroWrites(cell, ws) == cell
    decreases |ws|
  {
    if |ws| > 0 {
      var next := Insertion(cell, 0.0, ws[0]);
      FirstWriteKept(next, ws[1..]);
    }
  }

  class ZBuffer<T> {
    const width: int
    const height: int
    const items: array2<T>
    const zs: array2<Depth>

    ghost predicate Valid()
    {
      items.Length0 == width && items.Length1 == ColumnLength(width, height) &&
      zs.Length0 == width && zs.Length1 == ColumnLength(width, height) &&
      items as object != zs as object
    }

    predicate InRange(x: int, y: int)
    {
      0 <= x < items.Length0 && 0 <= y < items.Length1 &&
      0 <= x < zs.Length0 && 0 <= y < zs.Length1
    }

    /** The contents of one cell: its depth and its item. */
    function Cell(x: int, y: int): (Depth, T)
      requires InRange(x, y)
      reads items, zs
    {
      (zs[x, y], items[x, y])
    }

    /** `ZBuffer(width, height)`: every item is `default(T)` and every depth
        is -infinity. */
    constructor (w: int, h: int, init: T)
      requires !JaggedThrows(w, h)
      ensures Valid() && width == w && height == h && fresh(items) && fresh(zs)
      ensures forall i, j :: 0 <= i < w && 0 <= j < h ==> items[i, j] == init && zs[i, j] == NegInf
    {
      width, height := w, h;
      items := new T[w, ColumnLength(w, h)]((i, j) => init);
      var depths := new Depth[w, ColumnLength(w, h)]((i, j) => NegInf);
      FillNegInf(depths);
      zs := depths;
    }

    /** `ZBuffer(width, height, background)`: the base constructor clears
        the items to `background`, then every depth is -infinity. */
    constructor WithBackground(w: int, h: int, background: T)
      requires !JaggedThrows(w, h)
      ensures Valid() && width == w && height == h && fresh(items) && fresh(zs)
      ensures forall i, j :: 0 <= i < w && 0 <= j < h ==> items[i, j] == background && zs[i, j] == NegInf
    {
      width, height := w, h;
      items := new T[w, ColumnLength(w, h)]((i, j) => background);
      var depths := new Depth[w, ColumnLength(w, h)]((i, j) => NegInf);
      FillNegInf(depths);
      zs := depths;
    }

    /** `new ZBuffer<T>(width, height)` for any sizes: the base constructor's
        allocation throws first. */
    static method Create(w: int, h: int, init: T) returns (r: Result<ZBuffer<T>>)
      ensures r.Err? <==> JaggedThrows(w, h)
      ensures r.Err? ==> r.error == Overflow
      ensures r.Ok? ==> fresh(r.value) && fresh(r.value.items) && fresh(r.value.zs) && r.value.Valid() &&
                        r.value.width == w && r.value.height == h &&
                        forall i, j :: 0 <= i < w && 0 <= j < h ==> r.value.Cell(i, j) == (NegInf, init)
    {
      if JaggedThrows(w, h) {
        return Err(Overflow);
      }
      var zb := new ZBuffer(w, h, init);
      return Ok(zb);
    }

    /** `new ZBuffer<T>(width, height, background)` for any sizes. */
    static method CreateWithBackground(w: int, h: int, background: T) returns (r: Result<ZBuffer<T>>)
      ensures r.Err? <==> JaggedThrows(w, h)
      ensures r.Err? ==> r.error == Overflow
      ensures r.Ok? ==> fresh(r.value) && fresh(r.value.items) && fresh(r.value.zs) && r.value.Valid() &&
                        r.value.width == w && r.value.height == h &&
                        forall i, j :: 0 <= i < w && 0 <= j < h ==> r.value.Cell(i, j) == (NegInf, background)
    {
      if JaggedThrows(w, h) {
        return Err(Overflow);
      }
      var zb := new ZBuffer.WithBackground(w, h, background);
      return Ok(zb);
    }

    /** The getter is the screen's: it reads the item. */
    function Get(x: int, y: int): (r: Result<T>)
      reads items
      ensures r.Ok? <==> 0 <= x < items.Length0 && 0 <= y < items.Length1
      ensures r.Ok? ==> r.value == items[x, y]
      ensures r.Err? ==> r.error == IndexOutOfRange
    {
      if 0 <= x < items.Length0 && 0 <= y < items.Length1 then Ok(items[x, y]) else Err(IndexOutOfRange)
    }

    /** `Insert(x, y, z, obj)`: stores (z, obj) and answers true exactly
        when the stored depth is strictly below z; no other cell changes. */
    method Insert(x: int, y: int, z: real, item: T) returns (r: Result<bool>)
      requires Valid()
      modifies items, zs
      ensures r.Ok? <==> InRange(x, y)
      ensures r.Err? ==> r.error == IndexOutOfRange
      ensures r.Ok? ==> (r.value <==> old(zs[x, y]).Below(Fin(z)))
      ensures forall i, j :: InRange(i, j) ==>
                Cell(i, j) == if r.Ok? && i == x && j == y then Insertion(old(Cell(i, j)), z, item) else old(Cell(i, j))
    {
      if !InRange(x, y) {
        return Err(IndexOutOfRange);
      }
      if zs[x, y].Below(Fin(z)) {
        zs[x, y] := Fin(z);
        items[x, y] := item;
        return Ok(true);
      }
      return Ok(false);
    }

    /** The indexer's setter does not write directly: it inserts at depth 0
        and drops the answer. */
    method Set(x: int, y: int, item: T) returns (r: Result<()>)
      requires Valid()
      modifies items, zs
      ensures r.Ok? <==> InRange(x, y)
      ensures r.Err? ==> r.error == IndexOutOfRange
      ensures forall i, j :: InRange(i, j) ==>
                Cell(i, j) == if r.Ok? && i == x && j == y then Insertion(old(Cell(i, j)), 0.0, item) else old(Cell(i, j))
    {
      var inserted := Insert(x, y, 0.0, item);
      if inserted.Err? {
        return Err(inserted.error);
      }
      return Ok(());
    }

    /** `Clear(background)` is `Clear(background, -infinity)`. */
    method Clear(background: T)
      requires Valid()
      modifies items, zs
      ensures forall i, j :: 0 <= i < width && 0 <= j < height ==> Cell(i, j) == (NegInf, background)
    {
      ClearTo(background, NegInf);
    }

    /** Every cell becomes (z, background). */
    method ClearTo(background: T, z: Depth)
      requires Valid()
      modifies items, zs
      ensures forall i, j :: 0 <= i < width && 0 <= j < height ==> Cell(i, j) == (z, background)
    {
      for i := 0 to width
        invariant forall a, b :: 0 <= a < width && 0 <= b < height ==>
                    zs[a, b] == if a < i then z else old(zs[a, b])
        invariant forall a, b :: 0 <= a < width && 0 <= b < height ==>
                    items[a, b] == if a < i then background else old(items[a, b])
      {
        for j := 0 to height
          invariant forall a, b :: 0 <= a < width && 0 <= b < height ==>
                      zs[a, b] == if a < i || (a == i && b < j) then z else old(zs[a, b])
          invariant forall a, b :: 0 <= a < width && 0 <= b < height ==>
                      items[a, b] == if a < i || (a == i && b < j) then background else old(items[a, b])
        {
          zs[i, j] := z;
          items[i, j] := background;
        }
      }
    }
  }

  /** The constructors' loops that set every depth to -infinity. */
  method FillNegInf(zs: array2<Depth>)
    modifies zs
    ensures forall i, j :: 0 <= i < zs.Length0 && 0 <= j < zs.Length1 ==> zs[i, j] == NegInf
  {
    for i := 0 to zs.Length0
      invariant forall a, b :: 0 <= a < i && 0 <= b < zs.Length1 ==> zs[a, b] == NegInf
    {
      for j := 0 to zs.Length1
        invariant forall a, b :: 0 <= a < zs.Length0 && 0 <= b < zs.Length1 && (a < i || (a == i && b < j)) ==> zs[a, b] == NegInf
      {
        zs[i, j] := NegInf;
      }
    }
  }
}
