// The int-tagged `ZBuffer` (ZBuffer.cs): a depth per cell and the hash code
// of the object drawn there. A code goes in only in front of what is
// stored. Its `width` and `height` fields are never assigned, so they keep
// C#'s default 0 and `Clear` visits no cell.
module DepthBuffers {
  import opened Numerics

  /** One cell: its depth and the code of the object drawn there. */
  datatype Cell = Cell(depth: Depth, code: int)

  /** One `TryInsert` on a cell: the code goes in with its depth exactly
      when the stored depth is strictly below it. */
  function Attempt(c: Cell, z: Depth, code: int): Cell
  {
    if c.depth.Below(z) then Cell(z, code) else c
  }

  /** A cell after a sequence of `TryInsert` calls from the constructor's
      state (-infinity, background). */
  function Replay(background: int, ops: seq<(Depth, int)>): Cell
  {
    if |ops| == 0 then Cell(NegInf, background)
    else Attempt(Replay(background, ops[..|ops| - 1]), ops[|ops| - 1].0, ops[|ops| - 1].1)
  }

  /** The k-th call succeeded. */
  predicate Won(background: int, ops: seq<(Depth, int)>, k: int)
    requires 0 <= k < |ops|
  {
    Replay(background, ops[..k]).depth.Below(ops[k].0)
  }

  /** After any sequence of calls, the stored depth is at least every
      inserted depth. */
  lemma {:induction false} ReplayFront(background: int, ops: seq<(Depth, int)>)
    ensures forall k :: 0 <= k < |ops| ==> !Replay(background, ops).depth.Below(ops[k].0)
  {
    if |ops| > 0 {
      var n := |ops| - 1;
      var init := ops[..n];
      ReplayFront(background, init);
      var prev := Replay(background, init);
      var c := Replay(background, ops);
      assert c == Attempt(prev, ops[n].0, ops[n].1);
      forall k | 0 <= k < |ops| ensures !c.depth.Below(ops[k].0) {
        BelowStrictOrder(c.depth, prev.depth, ops[k].0);
        BelowStrictOrder(c.depth, ops[n].0, ops[n].0);
        BelowStrictOrder(prev.depth, ops[n].0, ops[k].0);
        if k < n {
          assert ops[k] == init[k];
        }
      }
    }
  }

  /** The last of the first n calls that succeeded, if any. */
  function LastWon(background: int, ops: seq<(Depth, int)>, n: int): (r: Option<int>)
    requires 0 <= n <= |ops|
    ensures r.Some? ==> 0 <= r.value < n && Won(background, ops, r.value) &&
                        forall m :: r.value < m < n ==> !Won(background, ops, m)
    ensures r.None? ==> forall m :: 0 <= m < n ==> !Won(background, ops, m)
  {
    if n == 0 then None
    else if Won(background, ops, n - 1) then Some(n - 1)
    else LastWon(background, ops, n - 1)
  }

  /** After the first n calls, the code is that of the last successful
      call, or the background when none succeeded. */
  lemma {:induction false} ReplayLastWinner(background: int, ops: seq<(Depth, int)>, n: int)
    requires 0 <= n <= |ops|
    ensures Replay(background, ops[..n]) ==
              match LastWon(background, ops, n)
              case None => Cell(NegInf, background)
              case Some(k) => Cell(ops[k].0, ops[k].1)
  {
    if n > 0 {
      ReplayLastWinner(background, ops, n - 1);
      assert ops[..n][..n - 1] == ops[..n - 1];
    }
  }

  class ZBuffer {
    const zs: array2<Depth>
    const codes: array2<int>
    /** Never assigned in the source. */
    const width: int
    const height: int

    ghost predicate Valid()
    {
      zs.Length0 == codes.Length0 && zs.Length1 == codes.Length1 &&
      0 <= width <= zs.Length0 && 0 <= height <= zs.Length1
    }

    predicate InRange(x: int, y: int)
    {
      0 <= x < zs.Length0 && 0 <= y < zs.Length1 && x < codes.Length0 && y < codes.Length1
    }

    function CellAt(x: int, y: int): Cell
      requires InRange(x, y)
      reads zs, codes
    {
      Cell(zs[x, y], codes[x, y])
    }

    /** Every code is `background`, every depth -infinity, and `Width` and
        `Height` are 0. */
    constructor (w: int, h: int, background: int)
      requires !JaggedThrows(w, h)
      ensures Valid() && fresh(zs) && fresh(codes)
      ensures zs.Length0 == w && zs.Length1 == ColumnLength(w, h)
      ensures forall i, j :: 0 <= i < w && 0 <= j < h ==> zs[i, j] == NegInf && codes[i, j] == background
      ensures width == 0 && height == 0
    {
      var depths := new Depth[w, ColumnLength(w, h)]((i, j) => NegInf);
      var hashCodes := new int[w, ColumnLength(w, h)]((i, j) => 0);
      for i := 0 to w
        invariant forall a, b :: 0 <= a < i && 0 <= b < h ==> depths[a, b] == NegInf && hashCodes[a, b] == background
      {
        for j := 0 to h
          invariant forall a, b :: 0 <= a < w && 0 <= b < h && (a < i || (a == i && b < j)) ==>
                      depths[a, b] == NegInf && hashCodes[a, b] == background
        {
          hashCodes[i, j] := background;
          depths[i, j] := NegInf;
        }
      }
      zs, codes := depths, hashCodes;
      width, height := 0, 0;
    }

    /** `new ZBuffer(width, height, background)` for any sizes: a negative
        width, or a negative height with a column to allocate, throws. */
    static method Create(w: int, h: int, background: int) returns (r: Result<ZBuffer>)
      ensures r.Err? <==> JaggedThrows(w, h)
      ensures r.Err? ==> r.error == Overflow
      ensures r.Ok? ==> fresh(r.value) && fresh(r.value.zs) && fresh(r.value.codes) && r.value.Valid() &&
                        r.value.zs.Length0 == w && r.value.zs.Length1 == ColumnLength(w, h) &&
                        r.value.width == 0 && r.value.height == 0 &&
                        forall i, j :: 0 <= i < w && 0 <= j < h ==> r.value.CellAt(i, j) == Cell(NegInf, background)
    {
      if JaggedThrows(w, h) {
        return Err(Overflow);
      }
      var zb := new ZBuffer(w, h, background);
      return Ok(zb);
    }

    /** `this[i, j]`: the code at (i, j); outside the buffer it throws. */
    function Get(i: int, j: int): (r: Result<int>)
      reads codes
      ensures r.Ok? <==> 0 <= i < codes.Length0 && 0 <= j < codes.Length1
      ensures r.Ok? ==> r.value == codes[i, j]
      ensures r.Err? ==> r.error == IndexOutOfRange
    {
      if 0 <= i < codes.Length0 && 0 <= j < codes.Length1 then Ok(codes[i, j]) else Err(IndexOutOfRange)
    }

    /** `Clear(background)` is `Clear(background, -infinity)`. */
    method Clear(background: int)
      requires Valid()
      modifies zs, codes
      ensures forall i, j :: InRange(i, j) ==>
                CellAt(i, j) == if i < width && j < height then Cell(NegInf, background) else old(CellAt(i, j))
    {
      ClearTo(background, NegInf);
    }

    /** Sets the cells of the first `width` columns and `height` rows; as
        both are 0, no cell. */
    method ClearTo(background: int, z: Depth)
      requires Valid()
      modifies zs, codes
      ensures forall i, j :: InRange(i, j) ==>
                CellAt(i, j) == if i < width && j < height then Cell(z, background) else old(CellAt(i, j))
    {
      for i := 0 to width
        invariant forall a, b :: InRange(a, b) ==>
                    CellAt(a, b) == if a < i && b < height then Cell(z, background) else old(CellAt(a, b))
      {
        for j := 0 to height
          invariant forall a, b :: InRange(a, b) ==>
                      CellAt(a, b) == if (a < i && b < height) || (a == i && b < j) then Cell(z, background) else old(CellAt(a, b))
        {
          zs[i, j] := z;
          codes[i, j] := background;
        }
      }
    }

    /** Stores (z, code) and answers true exactly when the stored depth is
        strictly below z; otherwise nothing changes. No other cell changes,
        and no depth decreases. */
    method TryInsert(x: int, y: int, z: Depth, code: int) returns (r: Result<bool>)
      requires Valid()
      modifies zs, codes
      ensures r.Ok? <==> InRange(x, y)
      ensures r.Err? ==> r.error == IndexOutOfRange && unchanged(zs, codes)
      ensures r.Ok? ==> (r.value <==> old(zs[x, y]).Below(z))
      ensures r.Ok? ==> CellAt(x, y) == Attempt(old(CellAt(x, y)), z, code)
      ensures r == Ok(false) ==> unchanged(zs, codes)
      ensures forall i, j :: InRange(i, j) && (i != x || j != y) ==> CellAt(i, j) == old(CellAt(i, j))
      ensures forall i, j :: InRange(i, j) ==> !zs[i, j].Below(old(zs[i, j]))
    {
      if !InRange(x, y) {
        return Err(IndexOutOfRange);
      }
      if zs[x, y].Below(z) {
        zs[x, y] := z;
        codes[x, y] := code;
        BelowStrictOrder(old(zs[x, y]), z, z);
        return Ok(true);
      }
      return Ok(false);
    }
  }

  /** A 1x1 buffer with background 0: inserting (1, A) succeeds, then
      (0.5, B) fails, then (2, C) succeeds, and the cell holds C. */
  method InsertExample() returns (first: Result<bool>, second: Result<bool>, third: Result<bool>, code: Result<int>)
    ensures first == Ok(true) && second == Ok(false) && third == Ok(true)
    ensures code == Ok(3)
  {
    var zb := new ZBuffer(1, 1, 0);
    first := zb.TryInsert(0, 0, Fin(1.0), 1);
    second := zb.TryInsert(0, 0, Fin(0.5), 2);
    third := zb.TryInsert(0, 0, Fin(2.0), 3);
    code := zb.Get(0, 0);
  }

  /** After construction `Clear` changes nothing, whatever it is given. */
  method ClearExample(background: int) returns (before: Result<int>, after: Result<int>)
    ensures before == Ok(0) && after == Ok(0)
  {
    var zb := new ZBuffer(2, 2, 0);
    before := zb.Get(1, 1);
    label Cleared:
    zb.Clear(background);
    assert zb.CellAt(1, 1) == old@Cleared(zb.CellAt(1, 1));
    after := zb.Get(1, 1);
  }
}
