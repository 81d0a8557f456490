// The integer line walk shared by `rasterLine` and `indicateScanLine`
// (Rasterizer.cs): Bresenham's algorithm for all octants, with the error
// term `err` and the doubled error `e2`. The walk is described here once, as
// a step function and the sequence of positions it visits; the rasterizer's
// loops are proved against these definitions.
module Lines {
  import opened Numerics
  import opened Vectors

  /** A segment between two pixels, after truncation and offset. */
  datatype Line = Line(x1: int, y1: int, x2: int, y2: int)
  {
    /** `dx = |x2 - x1|`; the source's `dy` is `-DY()`. */
    function DX(): nat { Abs(x2 - x1) }
    function DY(): nat { Abs(y2 - y1) }
    /** The number of steps the walk takes. */
    function Steps(): nat { if DX() >= DY() then DX() else DY() }
    function SX(): int { if x2 > x1 then 1 else -1 }
    function SY(): int { if y2 > y1 then 1 else -1 }
    function StartPixel(): Vec2I { Vec2I(x1, y1) }
    function EndPixel(): Vec2I { Vec2I(x2, y2) }
    /** The box spanned by the two end points. */
    predicate InBox(p: Vec2I)
    {
      Min(x1, x2) <= p.x <= Max(x1, x2) && Min(y1, y2) <= p.y <= Max(y1, y2)
    }
  }

  /** The loop variables `x1`, `y1` and `err`. */
  datatype Walker = Walker(x: int, y: int, err: int)
  {
    function Pos(): Vec2I { Vec2I(x, y) }
  }

  /** The variables before the first iteration: `err = dx + dy`. */
  function Start(l: Line): Walker
  {
    Walker(l.x1, l.y1, l.DX() - l.DY())
  }

  /** The loop's exit test. */
  predicate AtEnd(l: Line, w: Walker)
  {
    w.x == l.x2 && w.y == l.y2
  }

  /** `e2 > dy`: the iteration moves x. */
  predicate XMove(l: Line, w: Walker)
  {
    2 * w.err > -(l.DY() as int)
  }

  /** `e2 < dx`: the iteration moves y. Both tests use the `e2` computed
      before either update. */
  predicate YMove(l: Line, w: Walker)
  {
    2 * w.err < l.DX()
  }

  /** One iteration after the exit test. */
  function Step(l: Line, w: Walker): Walker
  {
    var w1 := if XMove(l, w) then Walker(w.x + l.SX(), w.y, w.err - l.DY()) else w;
    if YMove(l, w) then Walker(w1.x, w1.y + l.SY(), w1.err + l.DX()) else w1
  }

  /** How far the walker has moved along x and along y. */
  function A(l: Line, w: Walker): int
  {
    if l.x2 > l.x1 then w.x - l.x1 else l.x1 - w.x
  }

  function B(l: Line, w: Walker): int
  {
    if l.y2 > l.y1 then w.y - l.y1 else l.y1 - w.y
  }

  /** The walker after k iterations: it has moved a steps along x and b
      along y without passing the end, `err` is (b+1)*dx - (a+1)*|dy|, and
      the longer axis has moved at every step while the shorter one stays
      within half a pixel of the exact line. */
  ghost predicate Tracks(l: Line, w: Walker, k: int)
  {
    var a, b, dx, dy := A(l, w), B(l, w), l.DX(), l.DY();
    0 <= k <= l.Steps() &&
    0 <= a <= dx && 0 <= b <= dy &&
    w.err == (b + 1) * dx - (a + 1) * dy &&
    (dx > dy ==> a == k && (2 * b - 1) * dx < 2 * a * dy <= (2 * b + 1) * dx) &&
    (dy > dx ==> b == k && (2 * a - 1) * dy < 2 * b * dx <= (2 * a + 1) * dy) &&
    (dx == dy ==> a == k && b == k)
  }

  lemma StartTracks(l: Line)
    ensures Tracks(l, Start(l), 0)
  {
  }

  /** From (2b-1)*d < 2*d*e <= (2b+1)*d with d > 0 follows b == e. */
  lemma HalfPixel(b: int, d: int, e: int)
    requires d > 0 && (2 * b - 1) * d < 2 * d * e <= (2 * b + 1) * d
    ensures b == e
  {
    var t := b - e;
    assert (2 * t - 1) * d == (2 * b - 1) * d - 2 * d * e;
    assert (2 * t + 1) * d == (2 * b + 1) * d - 2 * d * e;
  }

  /** One iteration along a longer axis of span p, with the shorter axis
      of span q at offset b after a steps: the longer axis moves, and the
      shorter one moves exactly when that keeps it within half a pixel. */
  lemma DominantStep(a: int, b: int, p: int, q: int)
    requires p > q >= 0 && 0 <= a < p && 0 <= b <= q
    requires (2 * b - 1) * p < 2 * a * q <= (2 * b + 1) * p
    ensures var e := (b + 1) * p - (a + 1) * q;
            var b' := if 2 * e < p then b + 1 else b;
            2 * e > -q && b' <= q && (2 * b' - 1) * p < 2 * (a + 1) * q <= (2 * b' + 1) * p
  {
    Expand(b, p);
    Expand(a, q);
    var e := (b + 1) * p - (a + 1) * q;
    if 2 * e < p {
      ShorterAxisBound(a, b, p, q);
    }
  }

  /** The products in `DominantStep`, written linearly in x * y. */
  lemma Expand(x: int, y: int)
    ensures (2 * x - 1) * y == 2 * (x * y) - y && (2 * x + 1) * y == 2 * (x * y) + y
    ensures (2 * (x + 1) - 1) * y == 2 * (x * y) + y && (2 * (x + 1) + 1) * y == 2 * (x * y) + 3 * y
    ensures (x + 1) * y == x * y + y && 2 * x * y == 2 * (x * y) && 2 * (x + 1) * y == 2 * (x * y) + 2 * y
  {
  }

  /** The shorter axis cannot move past its end: if (2b+1)*p < 2*(a+1)*q
      with a < p, then b < q. */
  lemma ShorterAxisBound(a: int, b: int, p: int, q: int)
    requires p > 0 && q >= 0 && 0 <= a < p
    requires (2 * b + 1) * p < 2 * (a + 1) * q
    ensures b < q
  {
    NonNegProduct(p - a - 1, q);
    assert (p - a - 1) * q == p * q - (a + 1) * q;
    var x := 2 * b + 1 - 2 * q;
    assert x * p == (2 * b + 1) * p - 2 * (p * q);
    NonNegProduct(x, p);
  }

  lemma NonNegProduct(x: int, y: int)
    ensures x >= 0 && y >= 0 ==> x * y >= 0
  {
  }

  /** The error term after an iteration that moved a' - a along x and
      b' - b along y. */
  lemma ErrUpdate(a: int, b: int, dx: int, dy: int, a': int, b': int)
    requires a' == a || a' == a + 1
    requires b' == b || b' == b + 1
    ensures (b' + 1) * dx - (a' + 1) * dy
         == (b + 1) * dx - (a + 1) * dy + (if b' == b + 1 then dx else 0) - (if a' == a + 1 then dy else 0)
  {
  }

  /** The walker is at the end exactly after `Steps()` iterations. */
  lemma EndExact(l: Line, w: Walker, k: int)
    requires Tracks(l, w, k)
    ensures AtEnd(l, w) <==> k == l.Steps()
  {
    var a, b, dx, dy := A(l, w), B(l, w), l.DX(), l.DY();
    assert AtEnd(l, w) <==> a == dx && b == dy;
    if dx > dy && k == dx {
      HalfPixel(b, dx, dy);
    } else if dy > dx && k == dy {
      HalfPixel(a, dy, dx);
    }
  }

  /** An iteration that does not exit keeps `Tracks`, moving the longer
      axis by one and the shorter one by at most one. */
  lemma StepTracks(l: Line, w: Walker, k: int)
    requires Tracks(l, w, k) && !AtEnd(l, w)
    ensures k < l.Steps() && Tracks(l, Step(l, w), k + 1)
    ensures XMove(l, w) <==> A(l, Step(l, w)) == A(l, w) + 1
    ensures !XMove(l, w) <==> A(l, Step(l, w)) == A(l, w)
    ensures YMove(l, w) <==> B(l, Step(l, w)) == B(l, w) + 1
    ensures !YMove(l, w) <==> B(l, Step(l, w)) == B(l, w)
  {
    EndExact(l, w, k);
    var a, b, dx, dy := A(l, w), B(l, w), l.DX(), l.DY();
    var w' := Step(l, w);
    var a', b' := A(l, w'), B(l, w');
    assert a' == (if XMove(l, w) then a + 1 else a);
    assert b' == (if YMove(l, w) then b + 1 else b);
    ErrUpdate(a, b, dx, dy, a', b');
    if dx > dy {
      DominantStep(a, b, dx, dy);
    } else if dy > dx {
      DominantStep(b, a, dy, dx);
    }
  }

  /** The pixels the walk visits from w, with at most `fuel` iterations. */
  function Pixels(l: Line, w: Walker, fuel: nat): seq<Vec2I>
    decreases fuel
  {
    [w.Pos()] + if AtEnd(l, w) || fuel == 0 then [] else Pixels(l, Step(l, w), fuel - 1)
  }

  /** The pixels of the whole line, in the order `rasterLine` emits them. */
  function LinePixels(l: Line): seq<Vec2I>
  {
    Pixels(l, Start(l), l.Steps())
  }

  /** One iteration of the walk as the loops take it: emit the position,
      then exit or step. */
  lemma PixelsStep(l: Line, w: Walker, k: int)
    requires Tracks(l, w, k)
    ensures !AtEnd(l, w) ==> k < l.Steps()
    ensures Pixels(l, w, l.Steps() - k) ==
              [w.Pos()] + if AtEnd(l, w) then [] else Pixels(l, Step(l, w), l.Steps() - (k + 1))
  {
    EndExact(l, w, k);
    PixelsUnfold(l, w, l.Steps() - k);
  }

  lemma PixelsUnfold(l: Line, w: Walker, fuel: nat)
    requires !AtEnd(l, w) ==> fuel > 0
    ensures Pixels(l, w, fuel) == [w.Pos()] + if AtEnd(l, w) then [] else Pixels(l, Step(l, w), fuel - 1)
  {
  }

  /** The walker after k iterations that did not exit. */
  function Walk(l: Line, k: nat): Walker
  {
    if k == 0 then Start(l) else Step(l, Walk(l, k - 1))
  }

  lemma {:induction false} WalkTracks(l: Line, k: nat)
    requires k <= l.Steps()
    ensures Tracks(l, Walk(l, k), k)
  {
    if k == 0 {
      StartTracks(l);
    } else {
      WalkTracks(l, k - 1);
      EndExact(l, Walk(l, k - 1), k - 1);
      StepTracks(l, Walk(l, k - 1), k - 1);
    }
  }

  /** One iteration of `rasterLine`: emit the position, then exit exactly
      at the end or step. */
  lemma WalkPixels(l: Line, k: nat)
    requires k <= l.Steps()
    ensures !AtEnd(l, Walk(l, k)) ==> k < l.Steps()
    ensures Pixels(l, Walk(l, k), l.Steps() - k) ==
              [Walk(l, k).Pos()] + if AtEnd(l, Walk(l, k)) then [] else Pixels(l, Walk(l, k + 1), l.Steps() - (k + 1))
  {
    WalkTracks(l, k);
    PixelsStep(l, Walk(l, k), k);
  }

  /** The walk reaches the end after exactly `Steps()` iterations. */
  lemma WalkEnd(l: Line, k: nat)
    requires k <= l.Steps()
    ensures AtEnd(l, Walk(l, k)) <==> k == l.Steps()
  {
    WalkTracks(l, k);
    EndExact(l, Walk(l, k), k);
  }

  /** The pixels from the k-th walker on are the line's pixels from index
      k on. */
  lemma {:induction false} PixelsSuffix(l: Line, k: nat)
    requires k <= l.Steps()
    ensures k <= |LinePixels(l)| && LinePixels(l)[k..] == Pixels(l, Walk(l, k), l.Steps() - k)
  {
    if k > 0 {
      PixelsSuffix(l, k - 1);
      WalkEnd(l, k - 1);
      WalkPixels(l, k - 1);
      var ps, tail := LinePixels(l), Pixels(l, Walk(l, k), l.Steps() - k);
      assert ps[k - 1..] == [Walk(l, k - 1).Pos()] + tail;
      assert ps[k..] == ps[k - 1..][1..];
    }
  }

  /** The k-th pixel of the line is where the walker stands after k
      iterations, and it has not appeared before. */
  lemma PixelAt(l: Line, k: nat)
    requires k <= l.Steps()
    ensures |LinePixels(l)| == l.Steps() + 1
    ensures LinePixels(l)[k] == Walk(l, k).Pos()
    ensures Walk(l, k).Pos() !in LinePixels(l)[..k]
  {
    PixelsSuffix(l, k);
    LinePixelsProperties(l);
    var ps := LinePixels(l);
    assert ps[k] == ps[k..][0];
    forall m | 0 <= m < k ensures ps[..k][m] != ps[k] {
      assert ps[..k][m] == ps[m];
    }
  }

  /** One turn of a loop that emits the pixels in order after `acc`:
      emitting the k-th pixel extends the emitted prefix by one, and
      completes the line exactly at the end. */
  lemma EmitPixel(l: Line, k: nat, acc: seq<Vec2I>, out: seq<Vec2I>)
    requires k <= l.Steps() && k <= |LinePixels(l)| && out == acc + LinePixels(l)[..k]
    ensures !AtEnd(l, Walk(l, k)) ==> k < l.Steps()
    ensures |LinePixels(l)| == l.Steps() + 1
    ensures out + [Walk(l, k).Pos()] == acc + LinePixels(l)[..k + 1]
    ensures AtEnd(l, Walk(l, k)) ==> out + [Walk(l, k).Pos()] == acc + LinePixels(l)
  {
    WalkEnd(l, k);
    PixelAt(l, k);
    var ps := LinePixels(l);
    assert ps[..k + 1] == ps[..k] + [ps[k]];
    if AtEnd(l, Walk(l, k)) {
      assert ps[..k + 1] == ps;
    }
  }

  /** Two consecutive pixels are 8-adjacent, distinct, and each coordinate
      moves by 0 or by the step sign toward the end point. */
  predicate Adjacent(l: Line, p: Vec2I, q: Vec2I)
  {
    p != q &&
    (q.x == p.x || q.x == p.x + l.SX()) &&
    (q.y == p.y || q.y == p.y + l.SY())
  }

  /** How far p is from the start along the longer axis. */
  function Progress(l: Line, p: Vec2I): int
  {
    if l.DX() >= l.DY() then Abs(p.x - l.x1) else Abs(p.y - l.y1)
  }

  /** The pixels still to come from a tracked walker: how many there are,
      and where they begin and end. */
  lemma {:induction false} PixelsFrom(l: Line, w: Walker, k: int)
    requires Tracks(l, w, k)
    ensures var ps := Pixels(l, w, l.Steps() - k);
            |ps| == l.Steps() - k + 1 && ps[0] == w.Pos() && ps[|ps| - 1] == l.EndPixel()
    decreases l.Steps() - k
  {
    PixelsStep(l, w, k);
    if !AtEnd(l, w) {
      StepTracks(l, w, k);
      PixelsFrom(l, Step(l, w), k + 1);
    }
  }

  /** Every pixel still to come is inside the box, and the i-th one is
      k + i steps along the longer axis. */
  lemma {:induction false} PixelsInBox(l: Line, w: Walker, k: int)
    requires Tracks(l, w, k)
    ensures var ps := Pixels(l, w, l.Steps() - k);
            forall i :: 0 <= i < |ps| ==> l.InBox(ps[i]) && Progress(l, ps[i]) == k + i
    decreases l.Steps() - k
  {
    InBoxOf(l, w, k);
    PixelsStep(l, w, k);
    if !AtEnd(l, w) {
      StepTracks(l, w, k);
      var w' := Step(l, w);
      PixelsInBox(l, w', k + 1);
      var ps, rest := Pixels(l, w, l.Steps() - k), Pixels(l, w', l.Steps() - (k + 1));
      forall i | 0 < i < |ps| ensures l.InBox(ps[i]) && Progress(l, ps[i]) == k + i {
        assert ps[i] == rest[i - 1];
      }
    }
  }

  /** Consecutive pixels still to come are adjacent. */
  lemma {:induction false} PixelsAdjacent(l: Line, w: Walker, k: int)
    requires Tracks(l, w, k)
    ensures var ps := Pixels(l, w, l.Steps() - k);
            forall i :: 0 <= i < |ps| - 1 ==> Adjacent(l, ps[i], ps[i + 1])
    decreases l.Steps() - k
  {
    PixelsStep(l, w, k);
    if !AtEnd(l, w) {
      StepTracks(l, w, k);
      var w' := Step(l, w);
      PixelsAdjacent(l, w', k + 1);
      var ps, rest := Pixels(l, w, l.Steps() - k), Pixels(l, w', l.Steps() - (k + 1));
      assert Adjacent(l, ps[0], ps[1]);
      forall i | 0 < i < |ps| - 1 ensures Adjacent(l, ps[i], ps[i + 1]) {
        assert ps[i] == rest[i - 1] && ps[i + 1] == rest[i];
      }
    }
  }

  /** A tracked walker is inside the box of the end points, and its
      progress along the longer axis is the iteration count. */
  lemma InBoxOf(l: Line, w: Walker, k: int)
    requires Tracks(l, w, k)
    ensures l.InBox(w.Pos()) && Progress(l, w.Pos()) == k
  {
  }

  /** `rasterLine` starts at the first end point, stops exactly at the
      second, emits max(dx, |dy|) + 1 pixels, each 8-adjacent to the
      previous one and moving toward the end, all distinct and inside the
      box of the end points. */
  lemma LinePixelsProperties(l: Line)
    ensures var ps := LinePixels(l);
            |ps| == l.Steps() + 1 && ps[0] == l.StartPixel() && ps[|ps| - 1] == l.EndPixel() &&
            (forall i :: 0 <= i < |ps| - 1 ==> Adjacent(l, ps[i], ps[i + 1])) &&
            (forall i :: 0 <= i < |ps| ==> l.InBox(ps[i]) && Progress(l, ps[i]) == i) &&
            (forall i, j :: 0 <= i < j < |ps| ==> ps[i] != ps[j])
  {
    StartTracks(l);
    PixelsFrom(l, Start(l), 0);
    PixelsInBox(l, Start(l), 0);
    PixelsAdjacent(l, Start(l), 0);
    DistinctByProgress(l, LinePixels(l));
  }

  /** Pixels at distinct distances from the start are distinct. */
  lemma DistinctByProgress(l: Line, ps: seq<Vec2I>)
    requires forall i :: 0 <= i < |ps| ==> Progress(l, ps[i]) == i
    ensures forall i, j :: 0 <= i < j < |ps| ==> ps[i] != ps[j]
  {
    forall i, j | 0 <= i < j < |ps| ensures ps[i] != ps[j] {
      assert Progress(l, ps[i]) != Progress(l, ps[j]);
    }
  }

  // ---------------------------------------------------------------------
  // The cells `indicateScanLine` marks
  // ---------------------------------------------------------------------

  /** How far a cell is from the start along x, and along y, counted in the
      direction of the end point. */
  function AOf(l: Line, p: Vec2I): int
  {
    if l.x2 > l.x1 then p.x - l.x1 else l.x1 - p.x
  }

  function BOf(l: Line, p: Vec2I): int
  {
    if l.y2 > l.y1 then p.y - l.y1 else l.y1 - p.y
  }

  /** The cells marked from w on: after every iteration that moves x, the
      cell at the new x and at the y from before the iteration's y-step. */
  function MarkCells(l: Line, w: Walker, fuel: nat): seq<Vec2I>
    decreases fuel
  {
    if AtEnd(l, w) || fuel == 0 then []
    else (if XMove(l, w) then [Vec2I(w.x + l.SX(), w.y)] else []) + MarkCells(l, Step(l, w), fuel - 1)
  }

  /** The cells `indicateScanLine` marks for the whole edge, in order. */
  function LineMarks(l: Line): seq<Vec2I>
  {
    MarkCells(l, Start(l), l.Steps())
  }

  /** One iteration of the marking walk: exit, or step and mark the cell
      entered by an x-step. */
  lemma MarksStep(l: Line, w: Walker, k: int)
    requires Tracks(l, w, k)
    ensures !AtEnd(l, w) ==> k < l.Steps()
    ensures MarkCells(l, w, l.Steps() - k) ==
              if AtEnd(l, w) then []
              else (if XMove(l, w) then [Vec2I(w.x + l.SX(), w.y)] else []) + MarkCells(l, Step(l, w), l.Steps() - (k + 1))
  {
    EndExact(l, w, k);
    MarksUnfold(l, w, l.Steps() - k);
  }

  lemma MarksUnfold(l: Line, w: Walker, fuel: nat)
    requires !AtEnd(l, w) ==> fuel > 0
    ensures MarkCells(l, w, fuel) ==
              if AtEnd(l, w) then []
              else (if XMove(l, w) then [Vec2I(w.x + l.SX(), w.y)] else []) + MarkCells(l, Step(l, w), fuel - 1)
  {
  }

  /** One iteration of `indicateScanLine`: exit exactly at the end, or
      step and mark the cell entered by an x-step. */
  lemma WalkMarks(l: Line, k: nat)
    requires k <= l.Steps()
    ensures !AtEnd(l, Walk(l, k)) ==> k < l.Steps()
    ensures var w := Walk(l, k);
            MarkCells(l, w, l.Steps() - k) ==
              if AtEnd(l, w) then []
              else (if XMove(l, w) then [Vec2I(w.x + l.SX(), w.y)] else []) + MarkCells(l, Walk(l, k + 1), l.Steps() - (k + 1))
  {
    WalkTracks(l, k);
    MarksStep(l, Walk(l, k), k);
  }

  /** The marks still to come from a tracked walker: one per remaining
      x-step, at x-offsets A+1, A+2, ..., dx, inside the end-point box. */
  lemma {:induction false} MarksFrom(l: Line, w: Walker, k: int)
    requires Tracks(l, w, k)
    ensures var ms := MarkCells(l, w, l.Steps() - k);
            |ms| == l.DX() - A(l, w) &&
            forall i :: 0 <= i < |ms| ==> AOf(l, ms[i]) == A(l, w) + i + 1 && B(l, w) <= BOf(l, ms[i]) && l.InBox(ms[i])
    decreases l.Steps() - k
  {
    EndExact(l, w, k);
    var ms := MarkCells(l, w, l.Steps() - k);
    if !AtEnd(l, w) {
      StepTracks(l, w, k);
      var w' := Step(l, w);
      MarksFrom(l, w', k + 1);
      var rest := MarkCells(l, w', l.Steps() - k - 1);
      var head := if XMove(l, w) then [Vec2I(w.x + l.SX(), w.y)] else [];
      assert ms == head + rest;
      forall i | 0 <= i < |ms|
        ensures AOf(l, ms[i]) == A(l, w) + i + 1 && B(l, w) <= BOf(l, ms[i]) && l.InBox(ms[i])
      {
        if i < |head| {
          assert ms[i] == Vec2I(w'.x, w.y);
          InBoxOf(l, w', k + 1);
        } else {
          assert ms[i] == rest[i - |head|];
        }
      }
    }
  }

  /** `indicateScanLine` marks exactly dx cells, the i-th of them in the
      column i+1 steps from the start toward the end: one mark per column
      after the first, so never the start cell, no two marks in one column,
      none at all on a vertical edge, and all inside the end-point box. */
  lemma LineMarksProperties(l: Line)
    ensures var ms := LineMarks(l);
            |ms| == l.DX() &&
            (forall i :: 0 <= i < |ms| ==> AOf(l, ms[i]) == i + 1 && l.InBox(ms[i]) && ms[i] != l.StartPixel()) &&
            (forall i, j :: 0 <= i < j < |ms| ==> ms[i].x != ms[j].x)
  {
    StartTracks(l);
    MarksFrom(l, Start(l), 0);
    var ms := LineMarks(l);
    forall i, j | 0 <= i < j < |ms| ensures ms[i].x != ms[j].x {
      assert AOf(l, ms[i]) != AOf(l, ms[j]);
    }
  }

  /** The walker never moves past the end along x. */
  lemma WalkOffset(l: Line, k: nat)
    requires k <= l.Steps()
    ensures 0 <= A(l, Walk(l, k)) <= l.DX()
  {
    WalkTracks(l, k);
  }

  lemma SuffixShift<T>(s: seq<T>, a: int, x: T, rest: seq<T>)
    requires 0 <= a <= |s| && s[a..] == [x] + rest
    ensures a < |s| && s[a] == x && s[a + 1..] == rest
  {
    assert s[a..][0] == s[a];
    assert s[a..][1..] == s[a + 1..];
  }

  /** The marks from the k-th walker on are the line's marks from the
      index of the walker's x offset on. */
  lemma {:induction false} MarksSuffix(l: Line, k: nat)
    requires k <= l.Steps()
    ensures 0 <= A(l, Walk(l, k)) <= |LineMarks(l)|
    ensures LineMarks(l)[A(l, Walk(l, k))..] == MarkCells(l, Walk(l, k), l.Steps() - k)
  {
    if k > 0 {
      MarksSuffix(l, k - 1);
      MarksAdvance(l, k - 1);
    } else {
      MarksCount(l);
      assert LineMarks(l)[0..] == LineMarks(l);
    }
  }

  lemma MarksCount(l: Line)
    ensures |LineMarks(l)| == l.DX()
  {
    LineMarksProperties(l);
  }

  lemma MarksAdvance(l: Line, k: nat)
    requires k < l.Steps()
    requires 0 <= A(l, Walk(l, k)) <= |LineMarks(l)|
    requires LineMarks(l)[A(l, Walk(l, k))..] == MarkCells(l, Walk(l, k), l.Steps() - k)
    ensures 0 <= A(l, Walk(l, k + 1)) <= |LineMarks(l)|
    ensures LineMarks(l)[A(l, Walk(l, k + 1))..] == MarkCells(l, Walk(l, k + 1), l.Steps() - (k + 1))
  {
    WalkEnd(l, k);
    WalkMarks(l, k);
    var w := Walk(l, k);
    if XMove(l, w) {
      SuffixShift(LineMarks(l), A(l, w), Vec2I(w.x + l.SX(), w.y), MarkCells(l, Walk(l, k + 1), l.Steps() - (k + 1)));
      assert A(l, Walk(l, k + 1)) == A(l, w) + 1;
    } else {
      assert A(l, Walk(l, k + 1)) == A(l, w);
    }
  }

  /** An iteration that moves x writes the mark whose index is the
      walker's x offset; the last iteration leaves that offset at the
      number of marks. */
  lemma MarkAt(l: Line, k: nat)
    requires k <= l.Steps()
    ensures var w := Walk(l, k);
            (AtEnd(l, w) ==> A(l, w) == |LineMarks(l)|) &&
            (!AtEnd(l, w) && XMove(l, w) ==>
               0 <= A(l, w) < |LineMarks(l)| && LineMarks(l)[A(l, w)] == Vec2I(w.x + l.SX(), w.y))
  {
    MarksSuffix(l, k);
    WalkEnd(l, k);
    WalkMarks(l, k);
    LineMarksProperties(l);
    var w := Walk(l, k);
    if !AtEnd(l, w) && XMove(l, w) {
      SuffixShift(LineMarks(l), A(l, w), Vec2I(w.x + l.SX(), w.y), MarkCells(l, Walk(l, k + 1), l.Steps() - (k + 1)));
    }
  }

  lemma TakeNext<T>(s: seq<T>, i: int)
    requires 0 <= i < |s|
    ensures s[..i + 1] == s[..i] + [s[i]]
  {
  }

  /** An iteration of `indicateScanLine` that does not exit moves the
      walker's x offset by one exactly when it steps along x. */
  lemma MarkAdvance(l: Line, k: nat)
    requires k <= l.Steps() && !AtEnd(l, Walk(l, k))
    ensures A(l, Walk(l, k + 1)) == A(l, Walk(l, k)) + if XMove(l, Walk(l, k)) then 1 else 0
  {
    WalkTracks(l, k);
    StepTracks(l, Walk(l, k), k);
  }

  /** An iteration of `indicateScanLine` that does not exit takes one step
      of the walk and extends the marks written so far by the cell it
      enters along x, if any. */
  lemma MarksTaken(l: Line, k: nat)
    requires k <= l.Steps() && !AtEnd(l, Walk(l, k))
    ensures var w := Walk(l, k);
            var cs := LineMarks(l);
            Walk(l, k + 1) == Step(l, w) && 0 <= A(l, w) <= |cs| && 0 <= A(l, Walk(l, k + 1)) <= |cs| &&
            cs[..A(l, Walk(l, k + 1))] == if XMove(l, w) then cs[..A(l, w)] + [Vec2I(w.x + l.SX(), w.y)] else cs[..A(l, w)]
  {
    var w := Walk(l, k);
    MarkAt(l, k);
    MarkAdvance(l, k);
    WalkOffset(l, k);
    MarksCount(l);
    if XMove(l, w) {
      TakeNext(LineMarks(l), A(l, w));
    }
  }

  /** The depth `indicateScanLine` writes at a cell: the start depth plus
      dzx per x-step and dzy per y-step taken to reach it. */
  function DepthAt(l: Line, z0: real, dzx: real, dzy: real, p: Vec2I): real
  {
    z0 + Scaled(AOf(l, p), dzx) + Scaled(BOf(l, p), dzy)
  }

  /** n times d, as the sum of n increments d (or of -n decrements). */
  function Scaled(n: int, d: real): real
    decreases if n < 0 then -n else n
  {
    if n == 0 then 0.0 else if n > 0 then Scaled(n - 1, d) + d else Scaled(n + 1, d) - d
  }

  /** The sum of n increments d is the product n * d. */
  lemma {:induction false} ScaledIsProduct(n: int, d: real)
    ensures Scaled(n, d) == n as real * d
    decreases if n < 0 then -n else n
  {
    if n > 0 {
      ScaledIsProduct(n - 1, d);
      assert n as real * d == (n - 1) as real * d + d;
    } else if n < 0 {
      ScaledIsProduct(n + 1, d);
      assert n as real * d == (n + 1) as real * d - d;
    }
  }

  /** One more increment adds d. */
  lemma ScaledNext(n: int, d: real)
    ensures Scaled(n + 1, d) == Scaled(n, d) + d
  {
  }
  /** One iteration of the depth walk: the depth at the next pixel is the
      depth at this one plus dzx for an x-step and dzy for a y-step. */
  lemma DepthStep(l: Line, k: nat, z0: real, dzx: real, dzy: real)
    requires k <= l.Steps() && !AtEnd(l, Walk(l, k))
    ensures var w := Walk(l, k);
            DepthAt(l, z0, dzx, dzy, Walk(l, k + 1).Pos()) ==
              DepthAt(l, z0, dzx, dzy, w.Pos()) + (if XMove(l, w) then dzx else 0.0) + (if YMove(l, w) then dzy else 0.0)
  {
    var w := Walk(l, k);
    WalkTracks(l, k);
    StepTracks(l, w, k);
    DepthMove(l, w.Pos(), Step(l, w).Pos(), z0, dzx, dzy, XMove(l, w), YMove(l, w));
  }

  /** The depth grows by dzx per unit of x-progress and dzy per unit of
      y-progress. */
  lemma DepthMove(l: Line, p: Vec2I, q: Vec2I, z0: real, dzx: real, dzy: real, xm: bool, ym: bool)
    requires AOf(l, q) == AOf(l, p) + (if xm then 1 else 0)
    requires BOf(l, q) == BOf(l, p) + (if ym then 1 else 0)
    ensures DepthAt(l, z0, dzx, dzy, q) ==
              DepthAt(l, z0, dzx, dzy, p) + (if xm then dzx else 0.0) + (if ym then dzy else 0.0)
  {
    ScaledNext(AOf(l, p), dzx);
    ScaledNext(BOf(l, p), dzy);
  }
}
