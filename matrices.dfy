// The matrix classes of GUtility.cs. Each keeps its entries in a `double[]`
// field `v` that some methods overwrite in place and others replace by a new
// array, so the classes keep their array; the arithmetic is specified by
// functions on the entry sequence `v[..]`.
//
// Layout: Matrix4 and Matrix3 are row-major (entry (i, j) at index 4*i + j
// or 3*i + j); Matrix2 stores v0 v1 / v2 v3 row by row as far as its
// operators are concerned.
module Matrices {
  import opened Numerics
  import opened Vectors

  // ---------------------------------------------------------------------
  // 4x4 specification
  // ---------------------------------------------------------------------

  function Dot4(u: Vec4, p: Vec4): real
  {
    u.x * p.x + u.y * p.y + u.z * p.z + u.w * p.w
  }

  /** Entry (i, j), the indexer `this[i, j]` of Matrix4. */
  function At4(m: seq<real>, i: int, j: int): real
    requires |m| == 16 && 0 <= i < 4 && 0 <= j < 4
  {
    m[4 * i + j]
  }

  function Row4(m: seq<real>, i: int): Vec4
    requires |m| == 16 && 0 <= i < 4
  {
    Vec4(m[4 * i], m[4 * i + 1], m[4 * i + 2], m[4 * i + 3])
  }

  function Col4(m: seq<real>, j: int): Vec4
    requires |m| == 16 && 0 <= j < 4
  {
    Vec4(m[j], m[4 + j], m[8 + j], m[12 + j])
  }

  /** Entry (i, j) of the product: row i of `a` times column j of `b`. */
  function MulEntry4(a: seq<real>, b: seq<real>, i: int, j: int): real
    requires |a| == 16 && |b| == 16 && 0 <= i < 4 && 0 <= j < 4
  {
    Dot4(Row4(a, i), Col4(b, j))
  }

  /** The product `l * r` of GUtility.cs:1580-1595. */
  function Mul4(a: seq<real>, b: seq<real>): (c: seq<real>)
    requires |a| == 16 && |b| == 16
    ensures |c| == 16
  {
    [MulEntry4(a, b, 0, 0), MulEntry4(a, b, 0, 1), MulEntry4(a, b, 0, 2), MulEntry4(a, b, 0, 3),
     MulEntry4(a, b, 1, 0), MulEntry4(a, b, 1, 1), MulEntry4(a, b, 1, 2), MulEntry4(a, b, 1, 3),
     MulEntry4(a, b, 2, 0), MulEntry4(a, b, 2, 1), MulEntry4(a, b, 2, 2), MulEntry4(a, b, 2, 3),
     MulEntry4(a, b, 3, 0), MulEntry4(a, b, 3, 1), MulEntry4(a, b, 3, 2), MulEntry4(a, b, 3, 3)]
  }

  /** The matrix-vector product `l * r` of GUtility.cs:1573-1579. */
  function Apply4(m: seq<real>, p: Vec4): Vec4
    requires |m| == 16
  {
    Vec4(Dot4(Row4(m, 0), p), Dot4(Row4(m, 1), p), Dot4(Row4(m, 2), p), Dot4(Row4(m, 3), p))
  }

  function Identity4(): (m: seq<real>)
    ensures |m| == 16
  {
    [1.0, 0.0, 0.0, 0.0,
     0.0, 1.0, 0.0, 0.0,
     0.0, 0.0, 1.0, 0.0,
     0.0, 0.0, 0.0, 1.0]
  }

  function Transpose4(m: seq<real>): (t: seq<real>)
    requires |m| == 16
    ensures |t| == 16
  {
    [m[0], m[4], m[8], m[12],
     m[1], m[5], m[9], m[13],
     m[2], m[6], m[10], m[14],
     m[3], m[7], m[11], m[15]]
  }

  /** Entry-wise sum, difference and scaling, for any size. */
  function PlusSeq(a: seq<real>, b: seq<real>): (c: seq<real>)
    requires |a| == |b|
    ensures |c| == |a| && forall k :: 0 <= k < |a| ==> c[k] == a[k] + b[k]
  {
    seq(|a|, k requires 0 <= k < |a| => a[k] + b[k])
  }

  function MinusSeq(a: seq<real>, b: seq<real>): (c: seq<real>)
    requires |a| == |b|
    ensures |c| == |a| && forall k :: 0 <= k < |a| ==> c[k] == a[k] - b[k]
  {
    seq(|a|, k requires 0 <= k < |a| => a[k] - b[k])
  }

  function ScaleSeq(a: seq<real>, s: real): (c: seq<real>)
    ensures |c| == |a| && forall k :: 0 <= k < |a| ==> c[k] == a[k] * s
  {
    seq(|a|, k requires 0 <= k < |a| => a[k] * s)
  }

  /** The first four entries of Matrix4.Inverse, which Matrix4.Det also
      computes as the cofactors of the first column; the fourth has v[5]
      where v[6] belongs. */
  function Cof0(v: seq<real>): real requires |v| == 16
  {
    v[5] * v[10] * v[15] - v[5] * v[11] * v[14] - v[9] * v[6] * v[15]
    + v[6] * v[13] * v[11] + v[7] * v[9] * v[14] - v[13] * v[7] * v[10]
  }
  function Cof1(v: seq<real>): real requires |v| == 16
  {
    -v[1] * v[10] * v[15] + v[1] * v[11] * v[14] + v[2] * v[9] * v[15]
    - v[2] * v[13] * v[11] - v[3] * v[9] * v[14] + v[3] * v[13] * v[10]
  }
  function Cof2(v: seq<real>): real requires |v| == 16
  {
    v[1] * v[6] * v[15] - v[1] * v[14] * v[7] - v[2] * v[5] * v[15]
    + v[2] * v[13] * v[7] + v[3] * v[5] * v[14] - v[3] * v[13] * v[6]
  }
  function Cof3(v: seq<real>): real requires |v| == 16
  {
    -v[1] * v[5] * v[11] + v[1] * v[10] * v[7] + v[2] * v[5] * v[11]
    - v[2] * v[9] * v[7] - v[3] * v[5] * v[10] + v[3] * v[9] * v[6]
  }

  /** `Matrix4.Det`: meant as the expansion along the first column, but its
      fourth cofactor is Cof3, with the wrong factor of inv[3]. */
  function Det4(v: seq<real>): real
    requires |v| == 16
  {
    v[0] * Cof0(v) + v[4] * Cof1(v) + v[8] * Cof2(v) + v[12] * Cof3(v)
  }

  /** What Matrix4.Inverse fills in before scaling: the adjugate's formulas
      as the source writes them, with one wrong factor in entries 3, 5 and
      10 (see Adjugate4Corrected). */
  function Adjugate4(v: seq<real>): (inv: seq<real>)
    requires |v| == 16
    ensures |inv| == 16
  {
    [Cof0(v), Cof1(v), Cof2(v), Cof3(v),
     -v[4] * v[10] * v[15] + v[4] * v[14] * v[11] + v[6] * v[8] * v[15]
       - v[6] * v[12] * v[11] - v[7] * v[8] * v[14] + v[7] * v[12] * v[10],
     v[0] * v[10] * v[15] - v[0] * v[11] * v[14] - v[8] * v[2] * v[15]
       + v[8] * v[12] * v[11] + v[3] * v[8] * v[14] - v[12] * v[3] * v[10],
     -v[0] * v[6] * v[15] + v[0] * v[14] * v[7] + v[2] * v[4] * v[15]
       - v[2] * v[12] * v[7] - v[3] * v[4] * v[14] + v[3] * v[12] * v[6],
     v[0] * v[6] * v[11] - v[0] * v[10] * v[7] - v[2] * v[4] * v[11]
       + v[2] * v[8] * v[7] + v[3] * v[4] * v[10] - v[3] * v[8] * v[6],
     v[4] * v[9] * v[15] - v[4] * v[13] * v[11] - v[5] * v[8] * v[15]
       + v[5] * v[12] * v[11] + v[7] * v[8] * v[13] - v[7] * v[12] * v[9],
     -v[0] * v[9] * v[15] + v[0] * v[13] * v[11] + v[1] * v[8] * v[15]
       - v[1] * v[12] * v[11] - v[3] * v[8] * v[13] + v[3] * v[12] * v[9],
     v[0] * v[5] * v[15] - v[0] * v[7] * v[13] - v[4] * v[1] * v[15]
       + v[4] * v[12] * v[7] + v[3] * v[4] * v[13] - v[3] * v[12] * v[5],
     -v[0] * v[5] * v[11] + v[0] * v[9] * v[7] + v[4] * v[1] * v[11]
       - v[1] * v[8] * v[7] - v[3] * v[4] * v[9] + v[3] * v[8] * v[5],
     -v[4] * v[9] * v[14] + v[4] * v[13] * v[10] + v[5] * v[8] * v[14]
       - v[5] * v[12] * v[10] - v[6] * v[8] * v[13] + v[6] * v[12] * v[9],
     v[0] * v[9] * v[14] - v[0] * v[13] * v[10] - v[1] * v[8] * v[14]
       + v[1] * v[12] * v[10] + v[2] * v[8] * v[13] - v[2] * v[12] * v[9],
     -v[0] * v[5] * v[14] + v[0] * v[13] * v[6] + v[4] * v[1] * v[14]
       - v[1] * v[12] * v[6] - v[2] * v[4] * v[13] + v[2] * v[12] * v[5],
     v[0] * v[5] * v[10] - v[0] * v[6] * v[9] - v[4] * v[1] * v[10]
       + v[1] * v[8] * v[6] + v[2] * v[4] * v[9] - v[2] * v[8] * v[5]]
  }

  /** What Matrix4.Inverse leaves in the matrix: the identity when the
      determinant is zero, otherwise the adjugate divided by it. */
  function Inverse4(v: seq<real>): (r: seq<real>)
    requires |v| == 16
    ensures |r| == 16
  {
    if Det4(v) == 0.0 then Identity4() else ScaleSeq(Adjugate4(v), 1.0 / Det4(v))
  }

  // ---- lemmas about the 4x4 specification -------------------------------

  /** Sixteen entries that agree at every (row, column) make equal matrices. */
  lemma Ext16(s: seq<real>, t: seq<real>)
    requires |s| == 16 && |t| == 16
    requires forall i, j :: 0 <= i < 4 && 0 <= j < 4 ==> At4(s, i, j) == At4(t, i, j)
    ensures s == t
  {
    forall k | 0 <= k < 16
      ensures s[k] == t[k]
    {
      var i, j := k / 4, k % 4;
      assert k == 4 * i + j;
      assert At4(s, i, j) == At4(t, i, j);
    }
  }

  /** Mul4 is the row-major product: its entry (i, j) is row i of `a` times
      column j of `b`. */
  lemma Mul4At(a: seq<real>, b: seq<real>, i: int, j: int)
    requires |a| == 16 && |b| == 16 && 0 <= i < 4 && 0 <= j < 4
    ensures At4(Mul4(a, b), i, j) == MulEntry4(a, b, i, j)
  {
    if i == 0 {
      if j == 0 {} else if j == 1 {} else if j == 2 {} else {}
    } else if i == 1 {
      if j == 0 {} else if j == 1 {} else if j == 2 {} else {}
    } else if i == 2 {
      if j == 0 {} else if j == 1 {} else if j == 2 {} else {}
    } else {
      if j == 0 {} else if j == 1 {} else if j == 2 {} else {}
    }
  }

  /** Transpose4 exchanges entry (i, j) with entry (j, i). */
  lemma Transpose4At(m: seq<real>, i: int, j: int)
    requires |m| == 16 && 0 <= i < 4 && 0 <= j < 4
    ensures At4(Transpose4(m), i, j) == At4(m, j, i)
  {
    if i == 0 {
      if j == 0 {} else if j == 1 {} else if j == 2 {} else {}
    } else if i == 1 {
      if j == 0 {} else if j == 1 {} else if j == 2 {} else {}
    } else if i == 2 {
      if j == 0 {} else if j == 1 {} else if j == 2 {} else {}
    } else {
      if j == 0 {} else if j == 1 {} else if j == 2 {} else {}
    }
  }

  /** Transposition is an involution and leaves the diagonal in place. */
  lemma Transpose4Involution(m: seq<real>)
    requires |m| == 16
    ensures Transpose4(Transpose4(m)) == m
    ensures forall i :: 0 <= i < 4 ==> Transpose4(m)[5 * i] == m[5 * i]
  {
  }

  /** The identity is neutral for the product on both sides and for the
      matrix-vector product. */
  lemma Identity4Neutral(m: seq<real>, p: Vec4)
    requires |m| == 16
    ensures Mul4(Identity4(), m) == m
    ensures Mul4(m, Identity4()) == m
    ensures Apply4(Identity4(), p) == p
  {
    var id := Identity4();
    ColMul4(id, m);
    assert Apply4(id, Col4(m, 0)) == Col4(m, 0);
    assert Apply4(id, Col4(m, 1)) == Col4(m, 1);
    assert Apply4(id, Col4(m, 2)) == Col4(m, 2);
    assert Apply4(id, Col4(m, 3)) == Col4(m, 3);
    ColExt4(Mul4(id, m), m);
    ColMul4(m, id);
    assert Col4(id, 0) == Vec4(1.0, 0.0, 0.0, 0.0) && Apply4(m, Col4(id, 0)) == Col4(m, 0);
    assert Col4(id, 1) == Vec4(0.0, 1.0, 0.0, 0.0) && Apply4(m, Col4(id, 1)) == Col4(m, 1);
    assert Col4(id, 2) == Vec4(0.0, 0.0, 1.0, 0.0) && Apply4(m, Col4(id, 2)) == Col4(m, 2);
    assert Col4(id, 3) == Vec4(0.0, 0.0, 0.0, 1.0) && Apply4(m, Col4(id, 3)) == Col4(m, 3);
    ColExt4(Mul4(m, id), m);
  }

  function ScaleV4(k: real, u: Vec4): Vec4 { Vec4(k * u.x, k * u.y, k * u.z, k * u.w) }
  function PlusV4(u: Vec4, w: Vec4): Vec4 { Vec4(u.x + w.x, u.y + w.y, u.z + w.z, u.w + w.w) }

  lemma Dot4Scale(r: Vec4, u: Vec4, k: real)
    ensures Dot4(r, u) * k == Dot4(r, ScaleV4(k, u))
  {
  }

  lemma Dot4Plus(r: Vec4, u: Vec4, w: Vec4)
    ensures Dot4(r, u) + Dot4(r, w) == Dot4(r, PlusV4(u, w))
  {
  }

  /** B·v written as a combination of the columns of B (given by its rows). */
  lemma ColumnCombination4(b0: Vec4, b1: Vec4, b2: Vec4, b3: Vec4, p: Vec4)
    ensures PlusV4(PlusV4(PlusV4(ScaleV4(p.x, Vec4(b0.x, b1.x, b2.x, b3.x)), ScaleV4(p.y, Vec4(b0.y, b1.y, b2.y, b3.y))),
                          ScaleV4(p.z, Vec4(b0.z, b1.z, b2.z, b3.z))), ScaleV4(p.w, Vec4(b0.w, b1.w, b2.w, b3.w)))
         == Vec4(Dot4(b0, p), Dot4(b1, p), Dot4(b2, p), Dot4(b3, p))
  {
  }

  /** One row of (A·B)·p equals the same row of A·(B·p): the two sums over
      the inner indices may be exchanged. */
  lemma Dot4Assoc(r: Vec4, b0: Vec4, b1: Vec4, b2: Vec4, b3: Vec4, p: Vec4)
    ensures Dot4(Vec4(Dot4(r, Vec4(b0.x, b1.x, b2.x, b3.x)), Dot4(r, Vec4(b0.y, b1.y, b2.y, b3.y)),
                      Dot4(r, Vec4(b0.z, b1.z, b2.z, b3.z)), Dot4(r, Vec4(b0.w, b1.w, b2.w, b3.w))), p)
         == Dot4(r, Vec4(Dot4(b0, p), Dot4(b1, p), Dot4(b2, p), Dot4(b3, p)))
  {
    var c0, c1, c2, c3 := Vec4(b0.x, b1.x, b2.x, b3.x), Vec4(b0.y, b1.y, b2.y, b3.y),
                          Vec4(b0.z, b1.z, b2.z, b3.z), Vec4(b0.w, b1.w, b2.w, b3.w);
    var s0, s1, s2, s3 := ScaleV4(p.x, c0), ScaleV4(p.y, c1), ScaleV4(p.z, c2), ScaleV4(p.w, c3);
    Dot4Scale(r, c0, p.x);
    Dot4Scale(r, c1, p.y);
    Dot4Scale(r, c2, p.z);
    Dot4Scale(r, c3, p.w);
    Dot4Plus(r, s0, s1);
    Dot4Plus(r, PlusV4(s0, s1), s2);
    Dot4Plus(r, PlusV4(PlusV4(s0, s1), s2), s3);
    ColumnCombination4(b0, b1, b2, b3, p);
  }

  /** Applying a product applies the right factor first:
      (A·B)·p == A·(B·p). */
  lemma ApplyMul4(a: seq<real>, b: seq<real>, p: Vec4)
    requires |a| == 16 && |b| == 16
    ensures Apply4(Mul4(a, b), p) == Apply4(a, Apply4(b, p))
  {
    var ab := Mul4(a, b);
    assert Row4(ab, 0) == Vec4(MulEntry4(a, b, 0, 0), MulEntry4(a, b, 0, 1), MulEntry4(a, b, 0, 2), MulEntry4(a, b, 0, 3));
    assert Row4(ab, 1) == Vec4(MulEntry4(a, b, 1, 0), MulEntry4(a, b, 1, 1), MulEntry4(a, b, 1, 2), MulEntry4(a, b, 1, 3));
    assert Row4(ab, 2) == Vec4(MulEntry4(a, b, 2, 0), MulEntry4(a, b, 2, 1), MulEntry4(a, b, 2, 2), MulEntry4(a, b, 2, 3));
    assert Row4(ab, 3) == Vec4(MulEntry4(a, b, 3, 0), MulEntry4(a, b, 3, 1), MulEntry4(a, b, 3, 2), MulEntry4(a, b, 3, 3));
    Dot4Assoc(Row4(a, 0), Row4(b, 0), Row4(b, 1), Row4(b, 2), Row4(b, 3), p);
    Dot4Assoc(Row4(a, 1), Row4(b, 0), Row4(b, 1), Row4(b, 2), Row4(b, 3), p);
    Dot4Assoc(Row4(a, 2), Row4(b, 0), Row4(b, 1), Row4(b, 2), Row4(b, 3), p);
    Dot4Assoc(Row4(a, 3), Row4(b, 0), Row4(b, 1), Row4(b, 2), Row4(b, 3), p);
  }

  /** Column j of a product is the left factor applied to column j of the
      right factor. */
  lemma ColMul4(a: seq<real>, b: seq<real>)
    requires |a| == 16 && |b| == 16
    ensures Col4(Mul4(a, b), 0) == Apply4(a, Col4(b, 0))
    ensures Col4(Mul4(a, b), 1) == Apply4(a, Col4(b, 1))
    ensures Col4(Mul4(a, b), 2) == Apply4(a, Col4(b, 2))
    ensures Col4(Mul4(a, b), 3) == Apply4(a, Col4(b, 3))
  {
  }

  lemma ColExt4(a: seq<real>, b: seq<real>)
    requires |a| == 16 && |b| == 16
    requires Col4(a, 0) == Col4(b, 0) && Col4(a, 1) == Col4(b, 1)
    requires Col4(a, 2) == Col4(b, 2) && Col4(a, 3) == Col4(b, 3)
    ensures a == b
  {
  }

  /** The product of GUtility.cs:1580-1595 is associative. */
  lemma Mul4Assoc(a: seq<real>, b: seq<real>, c: seq<real>)
    requires |a| == 16 && |b| == 16 && |c| == 16
    ensures Mul4(Mul4(a, b), c) == Mul4(a, Mul4(b, c))
  {
    ColMul4(Mul4(a, b), c);
    ColMul4(b, c);
    ColMul4(a, Mul4(b, c));
    ApplyMul4(a, b, Col4(c, 0));
    ApplyMul4(a, b, Col4(c, 1));
    ApplyMul4(a, b, Col4(c, 2));
    ApplyMul4(a, b, Col4(c, 3));
    ColExt4(Mul4(Mul4(a, b), c), Mul4(a, Mul4(b, c)));
  }

  /** The determinant of the identity is 1, so Matrix4.Inverse of the
      identity succeeds and gives the identity back. */
  lemma Inverse4Identity()
    ensures Det4(Identity4()) == 1.0
    ensures Inverse4(Identity4()) == Identity4()
  {
  }

  lemma InverseSingular(m: seq<real>)
    requires |m| == 16 && Det4(m) == 0.0
    ensures Inverse4(m) == Identity4()
  {
  }

  lemma InverseNonSingular(m: seq<real>)
    requires |m| == 16 && Det4(m) != 0.0
    ensures Inverse4(m) == ScaleSeq(Adjugate4(m), 1.0 / Det4(m))
  {
  }

  // ---- the cofactors Matrix4.Inverse means to compute ----------------------
  //
  // Matrix4.Inverse and Matrix4.Det copy the cofactor formulas of the usual
  // 4x4 inverse, with one wrong factor in three of the sixteen entries
  // (GUtility.cs:1382, 1411 and 1446; Det repeats the first at 1518). The
  // definitions below are those formulas with the three factors put right,
  // and the lemmas prove that they give a right inverse.

  /** The 4-dimensional cross product: the vector whose dot product with any
      d is the determinant of the matrix with rows d, a, b, c (expansion
      along the first row). */
  function Cross4(a: Vec4, b: Vec4, c: Vec4): Vec4
  {
    Vec4(a.y * (b.z * c.w - b.w * c.z) - a.z * (b.y * c.w - b.w * c.y) + a.w * (b.y * c.z - b.z * c.y),
         a.z * (b.x * c.w - b.w * c.x) - a.x * (b.z * c.w - b.w * c.z) - a.w * (b.x * c.z - b.z * c.x),
         a.x * (b.y * c.w - b.w * c.y) - a.y * (b.x * c.w - b.w * c.x) + a.w * (b.x * c.y - b.y * c.x),
         a.y * (b.x * c.z - b.z * c.x) - a.x * (b.y * c.z - b.z * c.y) - a.z * (b.x * c.y - b.y * c.x))
  }

  /** The determinant with rows d, a, b, c, written out. */
  lemma Dot4Cross4(d: Vec4, a: Vec4, b: Vec4, c: Vec4)
    ensures Dot4(d, Cross4(a, b, c)) ==
      d.x * (a.y * (b.z * c.w - b.w * c.z) - a.z * (b.y * c.w - b.w * c.y) + a.w * (b.y * c.z - b.z * c.y))
      + d.y * (a.z * (b.x * c.w - b.w * c.x) - a.x * (b.z * c.w - b.w * c.z) - a.w * (b.x * c.z - b.z * c.x))
      + d.z * (a.x * (b.y * c.w - b.w * c.y) - a.y * (b.x * c.w - b.w * c.x) + a.w * (b.x * c.y - b.y * c.x))
      + d.w * (a.y * (b.x * c.z - b.z * c.x) - a.x * (b.y * c.z - b.z * c.y) - a.z * (b.x * c.y - b.y * c.x))
  {
    var k := Cross4(a, b, c);
    MulCongr(d.x, k.x, a.y * (b.z * c.w - b.w * c.z) - a.z * (b.y * c.w - b.w * c.y) + a.w * (b.y * c.z - b.z * c.y));
    MulCongr(d.y, k.y, a.z * (b.x * c.w - b.w * c.x) - a.x * (b.z * c.w - b.w * c.z) - a.w * (b.x * c.z - b.z * c.x));
    MulCongr(d.z, k.z, a.x * (b.y * c.w - b.w * c.y) - a.y * (b.x * c.w - b.w * c.x) + a.w * (b.x * c.y - b.y * c.x));
    MulCongr(d.w, k.w, a.y * (b.x * c.z - b.z * c.x) - a.x * (b.y * c.z - b.z * c.y) - a.z * (b.x * c.y - b.y * c.x));
  }

  /** A determinant with two equal rows is zero. */
  lemma Orthogonal4(a: Vec4, b: Vec4, c: Vec4)
    ensures Dot4(a, Cross4(a, b, c)) == 0.0
    ensures Dot4(b, Cross4(a, b, c)) == 0.0
    ensures Dot4(c, Cross4(a, b, c)) == 0.0
  {
    Dot4Cross4(a, a, b, c);
    Dot4Cross4(b, a, b, c);
    Dot4Cross4(c, a, b, c);
  }

  /** inv[3] with the factor v[6] that GUtility.cs:1382 writes as v[5]. */
  function Cof3Corrected(v: seq<real>): real requires |v| == 16
  {
    -v[1] * v[6] * v[11] + v[1] * v[10] * v[7] + v[2] * v[5] * v[11]
    - v[2] * v[9] * v[7] - v[3] * v[5] * v[10] + v[3] * v[9] * v[6]
  }

  /** The expansion along the first column that Matrix4.Det means. */
  function Det4Corrected(v: seq<real>): real
    requires |v| == 16
  {
    v[0] * Cof0(v) + v[4] * Cof1(v) + v[8] * Cof2(v) + v[12] * Cof3Corrected(v)
  }

  /** The adjugate: Adjugate4 with entries 3, 5 and 10 corrected
      (`v[1] * v[6] * v[11]`, `v[12] * v[2] * v[11]` and
      `v[12] * v[1] * v[7]` in place of the source's factors). */
  function Adjugate4Corrected(v: seq<real>): (inv: seq<real>)
    requires |v| == 16
    ensures |inv| == 16
  {
    [Cof0(v), Cof1(v), Cof2(v), Cof3Corrected(v),
     -v[4] * v[10] * v[15] + v[4] * v[14] * v[11] + v[6] * v[8] * v[15] - v[6] * v[12] * v[11] - v[7] * v[8] * v[14] + v[7] * v[12] * v[10],
     v[0] * v[10] * v[15] - v[0] * v[11] * v[14] - v[8] * v[2] * v[15] + v[8] * v[3] * v[14] + v[12] * v[2] * v[11] - v[12] * v[3] * v[10],
     -v[0] * v[6] * v[15] + v[0] * v[14] * v[7] + v[2] * v[4] * v[15] - v[2] * v[12] * v[7] - v[3] * v[4] * v[14] + v[3] * v[12] * v[6],
     v[0] * v[6] * v[11] - v[0] * v[10] * v[7] - v[2] * v[4] * v[11] + v[2] * v[8] * v[7] + v[3] * v[4] * v[10] - v[3] * v[8] * v[6],
     v[4] * v[9] * v[15] - v[4] * v[13] * v[11] - v[5] * v[8] * v[15] + v[5] * v[12] * v[11] + v[7] * v[8] * v[13] - v[7] * v[12] * v[9],
     -v[0] * v[9] * v[15] + v[0] * v[13] * v[11] + v[1] * v[8] * v[15] - v[1] * v[12] * v[11] - v[3] * v[8] * v[13] + v[3] * v[12] * v[9],
     v[0] * v[5] * v[15] - v[0] * v[7] * v[13] - v[4] * v[1] * v[15] + v[4] * v[3] * v[13] + v[12] * v[1] * v[7] - v[12] * v[3] * v[5],
     -v[0] * v[5] * v[11] + v[0] * v[9] * v[7] + v[4] * v[1] * v[11] - v[1] * v[8] * v[7] - v[3] * v[4] * v[9] + v[3] * v[8] * v[5],
     -v[4] * v[9] * v[14] + v[4] * v[13] * v[10] + v[5] * v[8] * v[14] - v[5] * v[12] * v[10] - v[6] * v[8] * v[13] + v[6] * v[12] * v[9],
     v[0] * v[9] * v[14] - v[0] * v[13] * v[10] - v[1] * v[8] * v[14] + v[1] * v[12] * v[10] + v[2] * v[8] * v[13] - v[2] * v[12] * v[9],
     -v[0] * v[5] * v[14] + v[0] * v[13] * v[6] + v[4] * v[1] * v[14] - v[1] * v[12] * v[6] - v[2] * v[4] * v[13] + v[2] * v[12] * v[5],
     v[0] * v[5] * v[10] - v[0] * v[6] * v[9] - v[4] * v[1] * v[10] + v[1] * v[8] * v[6] + v[2] * v[4] * v[9] - v[2] * v[8] * v[5]]
  }

  /** What Matrix4.Inverse means to compute. */
  function Inverse4Corrected(v: seq<real>): (r: seq<real>)
    requires |v| == 16
    ensures |r| == 16
  {
    if Det4Corrected(v) == 0.0 then Identity4() else ScaleSeq(Adjugate4Corrected(v), 1.0 / Det4Corrected(v))
  }

  /** The columns of the corrected adjugate, written out. */
  lemma Adjugate4CorrectedCol0(m: seq<real>)
    requires |m| == 16
    ensures Col4(Adjugate4Corrected(m), 0) ==
            Vec4(m[5] * m[10] * m[15] - m[5] * m[11] * m[14] - m[9] * m[6] * m[15] + m[6] * m[13] * m[11] + m[7] * m[9] * m[14] - m[13] * m[7] * m[10],
                 -m[4] * m[10] * m[15] + m[4] * m[14] * m[11] + m[6] * m[8] * m[15] - m[6] * m[12] * m[11] - m[7] * m[8] * m[14] + m[7] * m[12] * m[10],
                 m[4] * m[9] * m[15] - m[4] * m[13] * m[11] - m[5] * m[8] * m[15] + m[5] * m[12] * m[11] + m[7] * m[8] * m[13] - m[7] * m[12] * m[9],
                 -m[4] * m[9] * m[14] + m[4] * m[13] * m[10] + m[5] * m[8] * m[14] - m[5] * m[12] * m[10] - m[6] * m[8] * m[13] + m[6] * m[12] * m[9])
  {
  }

  /** The cross products of three rows, written out. */
  lemma Cross4Col0(m: seq<real>)
    requires |m| == 16
    ensures Cross4(Row4(m, 1), Row4(m, 2), Row4(m, 3)) ==
            Vec4(m[5] * m[10] * m[15] - m[5] * m[11] * m[14] - m[9] * m[6] * m[15] + m[6] * m[13] * m[11] + m[7] * m[9] * m[14] - m[13] * m[7] * m[10],
                 -m[4] * m[10] * m[15] + m[4] * m[14] * m[11] + m[6] * m[8] * m[15] - m[6] * m[12] * m[11] - m[7] * m[8] * m[14] + m[7] * m[12] * m[10],
                 m[4] * m[9] * m[15] - m[4] * m[13] * m[11] - m[5] * m[8] * m[15] + m[5] * m[12] * m[11] + m[7] * m[8] * m[13] - m[7] * m[12] * m[9],
                 -m[4] * m[9] * m[14] + m[4] * m[13] * m[10] + m[5] * m[8] * m[14] - m[5] * m[12] * m[10] - m[6] * m[8] * m[13] + m[6] * m[12] * m[9])
  {
  }

  lemma Adjugate4CorrectedCol1(m: seq<real>)
    requires |m| == 16
    ensures Col4(Adjugate4Corrected(m), 1) ==
            Vec4(-m[1] * m[10] * m[15] + m[1] * m[11] * m[14] + m[2] * m[9] * m[15] - m[2] * m[13] * m[11] - m[3] * m[9] * m[14] + m[3] * m[13] * m[10],
                 m[0] * m[10] * m[15] - m[0] * m[11] * m[14] - m[8] * m[2] * m[15] + m[8] * m[3] * m[14] + m[12] * m[2] * m[11] - m[12] * m[3] * m[10],
                 -m[0] * m[9] * m[15] + m[0] * m[13] * m[11] + m[1] * m[8] * m[15] - m[1] * m[12] * m[11] - m[3] * m[8] * m[13] + m[3] * m[12] * m[9],
                 m[0] * m[9] * m[14] - m[0] * m[13] * m[10] - m[1] * m[8] * m[14] + m[1] * m[12] * m[10] + m[2] * m[8] * m[13] - m[2] * m[12] * m[9])
  {
  }

  lemma Cross4Col1(m: seq<real>)
    requires |m| == 16
    ensures Cross4(Row4(m, 2), Row4(m, 0), Row4(m, 3)) ==
            Vec4(-m[1] * m[10] * m[15] + m[1] * m[11] * m[14] + m[2] * m[9] * m[15] - m[2] * m[13] * m[11] - m[3] * m[9] * m[14] + m[3] * m[13] * m[10],
                 m[0] * m[10] * m[15] - m[0] * m[11] * m[14] - m[8] * m[2] * m[15] + m[8] * m[3] * m[14] + m[12] * m[2] * m[11] - m[12] * m[3] * m[10],
                 -m[0] * m[9] * m[15] + m[0] * m[13] * m[11] + m[1] * m[8] * m[15] - m[1] * m[12] * m[11] - m[3] * m[8] * m[13] + m[3] * m[12] * m[9],
                 m[0] * m[9] * m[14] - m[0] * m[13] * m[10] - m[1] * m[8] * m[14] + m[1] * m[12] * m[10] + m[2] * m[8] * m[13] - m[2] * m[12] * m[9])
  {
  }

  lemma Adjugate4CorrectedCol2(m: seq<real>)
    requires |m| == 16
    ensures Col4(Adjugate4Corrected(m), 2) ==
            Vec4(m[1] * m[6] * m[15] - m[1] * m[14] * m[7] - m[2] * m[5] * m[15] + m[2] * m[13] * m[7] + m[3] * m[5] * m[14] - m[3] * m[13] * m[6],
                 -m[0] * m[6] * m[15] + m[0] * m[14] * m[7] + m[2] * m[4] * m[15] - m[2] * m[12] * m[7] - m[3] * m[4] * m[14] + m[3] * m[12] * m[6],
                 m[0] * m[5] * m[15] - m[0] * m[7] * m[13] - m[4] * m[1] * m[15] + m[4] * m[3] * m[13] + m[12] * m[1] * m[7] - m[12] * m[3] * m[5],
                 -m[0] * m[5] * m[14] + m[0] * m[13] * m[6] + m[4] * m[1] * m[14] - m[1] * m[12] * m[6] - m[2] * m[4] * m[13] + m[2] * m[12] * m[5])
  {
  }

  lemma Cross4Col2(m: seq<real>)
    requires |m| == 16
    ensures Cross4(Row4(m, 0), Row4(m, 1), Row4(m, 3)) ==
            Vec4(m[1] * m[6] * m[15] - m[1] * m[14] * m[7] - m[2] * m[5] * m[15] + m[2] * m[13] * m[7] + m[3] * m[5] * m[14] - m[3] * m[13] * m[6],
                 -m[0] * m[6] * m[15] + m[0] * m[14] * m[7] + m[2] * m[4] * m[15] - m[2] * m[12] * m[7] - m[3] * m[4] * m[14] + m[3] * m[12] * m[6],
                 m[0] * m[5] * m[15] - m[0] * m[7] * m[13] - m[4] * m[1] * m[15] + m[4] * m[3] * m[13] + m[12] * m[1] * m[7] - m[12] * m[3] * m[5],
                 -m[0] * m[5] * m[14] + m[0] * m[13] * m[6] + m[4] * m[1] * m[14] - m[1] * m[12] * m[6] - m[2] * m[4] * m[13] + m[2] * m[12] * m[5])
  {
  }

  lemma Adjugate4CorrectedCol3(m: seq<real>)
    requires |m| == 16
    ensures Col4(Adjugate4Corrected(m), 3) ==
            Vec4(-m[1] * m[6] * m[11] + m[1] * m[10] * m[7] + m[2] * m[5] * m[11] - m[2] * m[9] * m[7] - m[3] * m[5] * m[10] + m[3] * m[9] * m[6],
                 m[0] * m[6] * m[11] - m[0] * m[10] * m[7] - m[2] * m[4] * m[11] + m[2] * m[8] * m[7] + m[3] * m[4] * m[10] - m[3] * m[8] * m[6],
                 -m[0] * m[5] * m[11] + m[0] * m[9] * m[7] + m[4] * m[1] * m[11] - m[1] * m[8] * m[7] - m[3] * m[4] * m[9] + m[3] * m[8] * m[5],
                 m[0] * m[5] * m[10] - m[0] * m[6] * m[9] - m[4] * m[1] * m[10] + m[1] * m[8] * m[6] + m[2] * m[4] * m[9] - m[2] * m[8] * m[5])
  {
  }

  lemma Cross4Col3(m: seq<real>)
    requires |m| == 16
    ensures Cross4(Row4(m, 0), Row4(m, 2), Row4(m, 1)) ==
            Vec4(-m[1] * m[6] * m[11] + m[1] * m[10] * m[7] + m[2] * m[5] * m[11] - m[2] * m[9] * m[7] - m[3] * m[5] * m[10] + m[3] * m[9] * m[6],
                 m[0] * m[6] * m[11] - m[0] * m[10] * m[7] - m[2] * m[4] * m[11] + m[2] * m[8] * m[7] + m[3] * m[4] * m[10] - m[3] * m[8] * m[6],
                 -m[0] * m[5] * m[11] + m[0] * m[9] * m[7] + m[4] * m[1] * m[11] - m[1] * m[8] * m[7] - m[3] * m[4] * m[9] + m[3] * m[8] * m[5],
                 m[0] * m[5] * m[10] - m[0] * m[6] * m[9] - m[4] * m[1] * m[10] + m[1] * m[8] * m[6] + m[2] * m[4] * m[9] - m[2] * m[8] * m[5])
  {
  }


  /** The 4x4 determinant is alternating: rotating three of the rows
      cyclically, or swapping two and moving a third, keeps its value. */
  lemma Cross4Permutations(a: Vec4, b: Vec4, c: Vec4, d: Vec4)
    ensures Dot4(b, Cross4(c, a, d)) == Dot4(a, Cross4(b, c, d))
    ensures Dot4(c, Cross4(a, b, d)) == Dot4(a, Cross4(b, c, d))
    ensures Dot4(d, Cross4(a, c, b)) == Dot4(a, Cross4(b, c, d))
  {
    Dot4Cross4(a, b, c, d);
    Dot4Cross4(b, c, a, d);
    Dot4Cross4(c, a, b, d);
    Dot4Cross4(d, a, c, b);
  }

  /** The corrected determinant is the determinant of the rows. */
  lemma Det4CorrectedRows(m: seq<real>)
    requires |m| == 16
    ensures Det4Corrected(m) == Dot4(Row4(m, 0), Cross4(Row4(m, 1), Row4(m, 2), Row4(m, 3)))
  {
    var r0, r1, r2, r3 := Vec4(m[0], m[1], m[2], m[3]), Vec4(m[4], m[5], m[6], m[7]),
                          Vec4(m[8], m[9], m[10], m[11]), Vec4(m[12], m[13], m[14], m[15]);
    assert Row4(m, 0) == r0 && Row4(m, 1) == r1 && Row4(m, 2) == r2 && Row4(m, 3) == r3;
    Dot4Cross4(r0, r1, r2, r3);
    MulCongr(m[0], Cof0(m), m[5] * m[10] * m[15] - m[5] * m[11] * m[14] - m[9] * m[6] * m[15] + m[6] * m[13] * m[11] + m[7] * m[9] * m[14] - m[13] * m[7] * m[10]);
    MulCongr(m[4], Cof1(m), -m[1] * m[10] * m[15] + m[1] * m[11] * m[14] + m[2] * m[9] * m[15] - m[2] * m[13] * m[11] - m[3] * m[9] * m[14] + m[3] * m[13] * m[10]);
    MulCongr(m[8], Cof2(m), m[1] * m[6] * m[15] - m[1] * m[14] * m[7] - m[2] * m[5] * m[15] + m[2] * m[13] * m[7] + m[3] * m[5] * m[14] - m[3] * m[13] * m[6]);
    MulCongr(m[12], Cof3Corrected(m), -m[1] * m[6] * m[11] + m[1] * m[10] * m[7] + m[2] * m[5] * m[11] - m[2] * m[9] * m[7] - m[3] * m[5] * m[10] + m[3] * m[9] * m[6]);
  }

  lemma Dot4ScaleV4(u: Vec4, c: Vec4, s: real)
    ensures Dot4(u, ScaleV4(s, c)) == Dot4(u, c) * s
  {
  }

  lemma ColScale4(a: seq<real>, s: real, j: int)
    requires |a| == 16 && 0 <= j < 4
    ensures Col4(ScaleSeq(a, s), j) == ScaleV4(s, Col4(a, j))
  {
  }

  /** Column j of the corrected adjugate is the cross product of the other
      three rows, in an order that makes row j times it the determinant. */
  lemma AdjugateColumns4(m: seq<real>)
    requires |m| == 16
    ensures Col4(Adjugate4Corrected(m), 0) == Cross4(Row4(m, 1), Row4(m, 2), Row4(m, 3))
    ensures Col4(Adjugate4Corrected(m), 1) == Cross4(Row4(m, 2), Row4(m, 0), Row4(m, 3))
    ensures Col4(Adjugate4Corrected(m), 2) == Cross4(Row4(m, 0), Row4(m, 1), Row4(m, 3))
    ensures Col4(Adjugate4Corrected(m), 3) == Cross4(Row4(m, 0), Row4(m, 2), Row4(m, 1))
  {
    Adjugate4CorrectedCol0(m); Adjugate4CorrectedCol1(m); Adjugate4CorrectedCol2(m); Adjugate4CorrectedCol3(m);
    Cross4Col0(m); Cross4Col1(m); Cross4Col2(m); Cross4Col3(m);
  }

  /** Column j of `m * Inverse4Corrected(m)` is column j of the identity. */
  lemma Inverse4CorrectedColumn0(m: seq<real>)
    requires |m| == 16 && Det4Corrected(m) != 0.0
    ensures MulEntry4(m, Inverse4Corrected(m), 0, 0) == 1.0
    ensures MulEntry4(m, Inverse4Corrected(m), 1, 0) == 0.0
    ensures MulEntry4(m, Inverse4Corrected(m), 2, 0) == 0.0
    ensures MulEntry4(m, Inverse4Corrected(m), 3, 0) == 0.0
  {
    var d := Det4Corrected(m);
    var c := Col4(Adjugate4Corrected(m), 0);
    AdjugateColumns4(m);
    Det4CorrectedRows(m);
    Cross4Permutations(Row4(m, 0), Row4(m, 1), Row4(m, 2), Row4(m, 3));
    Orthogonal4(Row4(m, 1), Row4(m, 2), Row4(m, 3));
    ColScale4(Adjugate4Corrected(m), 1.0 / d, 0);
    Dot4ScaleV4(Row4(m, 0), c, 1.0 / d);
    Dot4ScaleV4(Row4(m, 1), c, 1.0 / d);
    Dot4ScaleV4(Row4(m, 2), c, 1.0 / d);
    Dot4ScaleV4(Row4(m, 3), c, 1.0 / d);
    assert d * (1.0 / d) == 1.0;
  }

  lemma Inverse4CorrectedColumn1(m: seq<real>)
    requires |m| == 16 && Det4Corrected(m) != 0.0
    ensures MulEntry4(m, Inverse4Corrected(m), 0, 1) == 0.0
    ensures MulEntry4(m, Inverse4Corrected(m), 1, 1) == 1.0
    ensures MulEntry4(m, Inverse4Corrected(m), 2, 1) == 0.0
    ensures MulEntry4(m, Inverse4Corrected(m), 3, 1) == 0.0
  {
    var d := Det4Corrected(m);
    var c := Col4(Adjugate4Corrected(m), 1);
    AdjugateColumns4(m);
    Det4CorrectedRows(m);
    Cross4Permutations(Row4(m, 0), Row4(m, 1), Row4(m, 2), Row4(m, 3));
    Orthogonal4(Row4(m, 2), Row4(m, 0), Row4(m, 3));
    ColScale4(Adjugate4Corrected(m), 1.0 / d, 1);
    Dot4ScaleV4(Row4(m, 0), c, 1.0 / d);
    Dot4ScaleV4(Row4(m, 1), c, 1.0 / d);
    Dot4ScaleV4(Row4(m, 2), c, 1.0 / d);
    Dot4ScaleV4(Row4(m, 3), c, 1.0 / d);
    assert d * (1.0 / d) == 1.0;
  }

  lemma Inverse4CorrectedColumn2(m: seq<real>)
    requires |m| == 16 && Det4Corrected(m) != 0.0
    ensures MulEntry4(m, Inverse4Corrected(m), 0, 2) == 0.0
    ensures MulEntry4(m, Inverse4Corrected(m), 1, 2) == 0.0
    ensures MulEntry4(m, Inverse4Corrected(m), 2, 2) == 1.0
    ensures MulEntry4(m, Inverse4Corrected(m), 3, 2) == 0.0
  {
    var d := Det4Corrected(m);
    var c := Col4(Adjugate4Corrected(m), 2);
    AdjugateColumns4(m);
    Det4CorrectedRows(m);
    Cross4Permutations(Row4(m, 0), Row4(m, 1), Row4(m, 2), Row4(m, 3));
    Orthogonal4(Row4(m, 0), Row4(m, 1), Row4(m, 3));
    ColScale4(Adjugate4Corrected(m), 1.0 / d, 2);
    Dot4ScaleV4(Row4(m, 0), c, 1.0 / d);
    Dot4ScaleV4(Row4(m, 1), c, 1.0 / d);
    Dot4ScaleV4(Row4(m, 2), c, 1.0 / d);
    Dot4ScaleV4(Row4(m, 3), c, 1.0 / d);
    assert d * (1.0 / d) == 1.0;
  }

  lemma Inverse4CorrectedColumn3(m: seq<real>)
    requires |m| == 16 && Det4Corrected(m) != 0.0
    ensures MulEntry4(m, Inverse4Corrected(m), 0, 3) == 0.0
    ensures MulEntry4(m, Inverse4Corrected(m), 1, 3) == 0.0
    ensures MulEntry4(m, Inverse4Corrected(m), 2, 3) == 0.0
    ensures MulEntry4(m, Inverse4Corrected(m), 3, 3) == 1.0
  {
    var d := Det4Corrected(m);
    var c := Col4(Adjugate4Corrected(m), 3);
    AdjugateColumns4(m);
    Det4CorrectedRows(m);
    Cross4Permutations(Row4(m, 0), Row4(m, 1), Row4(m, 2), Row4(m, 3));
    Orthogonal4(Row4(m, 0), Row4(m, 2), Row4(m, 1));
    ColScale4(Adjugate4Corrected(m), 1.0 / d, 3);
    Dot4ScaleV4(Row4(m, 0), c, 1.0 / d);
    Dot4ScaleV4(Row4(m, 1), c, 1.0 / d);
    Dot4ScaleV4(Row4(m, 2), c, 1.0 / d);
    Dot4ScaleV4(Row4(m, 3), c, 1.0 / d);
    assert d * (1.0 / d) == 1.0;
  }

  /** The corrected inverse is a right inverse whenever the corrected
      determinant is nonzero. */
  lemma Inverse4CorrectedRight(m: seq<real>)
    requires |m| == 16 && Det4Corrected(m) != 0.0
    ensures Mul4(m, Inverse4Corrected(m)) == Identity4()
  {
    Inverse4CorrectedColumn0(m);
    Inverse4CorrectedColumn1(m);
    Inverse4CorrectedColumn2(m);
    Inverse4CorrectedColumn3(m);
  }

  /** Where the source's formulas differ from the corrected ones: each wrong
      entry is off by a product of entries. */
  lemma Cof3Error(m: seq<real>)
    requires |m| == 16
    ensures Cof3(m) - Cof3Corrected(m) == m[1] * m[11] * (m[6] - m[5])
  {
  }

  lemma Det4Error(m: seq<real>)
    requires |m| == 16
    ensures Det4(m) - Det4Corrected(m) == m[12] * (m[1] * m[11] * (m[6] - m[5]))
  {
    assert Det4(m) - Det4Corrected(m) == m[12] * (Cof3(m) - Cof3Corrected(m));
    Cof3Error(m);
    MulCongr(m[12], Cof3(m) - Cof3Corrected(m), m[1] * m[11] * (m[6] - m[5]));
  }

  lemma Adjugate4Error(m: seq<real>)
    requires |m| == 16
    ensures Adjugate4(m)[3] - Adjugate4Corrected(m)[3] == m[1] * m[11] * (m[6] - m[5])
    ensures Adjugate4(m)[5] - Adjugate4Corrected(m)[5] == m[12] * m[11] * (m[8] - m[2])
    ensures Adjugate4(m)[10] - Adjugate4Corrected(m)[10] == m[12] * m[7] * (m[4] - m[1])
    ensures forall k :: 0 <= k < 16 && k != 3 && k != 5 && k != 10 ==>
              Adjugate4(m)[k] == Adjugate4Corrected(m)[k]
  {
    Cof3Error(m);
  }

  /** On the matrices where the three wrong factors do not matter (bottom-left
      entry 0, and one of m[1], m[11], m[6] - m[5] zero), Matrix4.Inverse
      does compute a right inverse. Every elementary matrix of TMaker is such
      a matrix. */
  lemma Inverse4RightWhere(m: seq<real>)
    requires |m| == 16 && m[12] == 0.0 && (m[1] == 0.0 || m[11] == 0.0 || m[6] == m[5])
    requires Det4(m) != 0.0
    ensures Adjugate4(m) == Adjugate4Corrected(m) && Det4(m) == Det4Corrected(m)
    ensures Mul4(m, Inverse4(m)) == Identity4()
  {
    Adjugate4Error(m);
    Det4Error(m);
    assert m[1] * m[11] * (m[6] - m[5]) == 0.0;
    assert Adjugate4(m) == Adjugate4Corrected(m);
    Inverse4CorrectedRight(m);
  }

  /** The cyclic shift of the coordinates, (x, y, z, w) to (y, z, w, x). */
  function Shift4(): (s: seq<real>)
    ensures |s| == 16
  {
    [0.0, 1.0, 0.0, 0.0,
     0.0, 0.0, 1.0, 0.0,
     0.0, 0.0, 0.0, 1.0,
     1.0, 0.0, 0.0, 0.0]
  }

  lemma Shift4Cofactors()
    ensures Cof0(Shift4()) == 0.0 && Cof1(Shift4()) == 0.0 && Cof2(Shift4()) == 0.0
    ensures Cof3(Shift4()) == 0.0 && Cof3Corrected(Shift4()) == -1.0
  {
    var s := Shift4();
    assert s[0] == 0.0 && s[1] == 1.0 && s[2] == 0.0 && s[3] == 0.0;
    assert s[4] == 0.0 && s[5] == 0.0 && s[6] == 1.0 && s[7] == 0.0;
    assert s[8] == 0.0 && s[9] == 0.0 && s[10] == 0.0 && s[11] == 1.0;
    assert s[12] == 1.0 && s[13] == 0.0 && s[14] == 0.0 && s[15] == 0.0;
  }

  /** Matrix4.Det is 0 for the shift, which is invertible (its corrected
      determinant is -1), so Matrix4.Inverse leaves the identity. */
  lemma Det4MissesInvertible()
    ensures Det4(Shift4()) == 0.0 && Det4Corrected(Shift4()) == -1.0
    ensures Inverse4(Shift4()) == Identity4()
  {
    Shift4Cofactors();
  }

  /** So the product of the shift and what Matrix4.Inverse leaves is the
      shift again, not the identity. */
  lemma Shift4NotInverted()
    ensures MulEntry4(Shift4(), Inverse4(Shift4()), 0, 0) == 0.0
    ensures Mul4(Shift4(), Inverse4(Shift4())) != Identity4()
  {
    Det4MissesInvertible();
    assert MulEntry4(Shift4(), Inverse4(Shift4()), 0, 0) == 0.0;
    Mul4At(Shift4(), Inverse4(Shift4()), 0, 0);
  }

  /** The shift is a rotation: its transpose is its inverse. */
  lemma Shift4Orthogonal()
    ensures Mul4(Shift4(), Transpose4(Shift4())) == Identity4()
  {
    var s := Shift4();
    assert Transpose4(s) == [0.0, 0.0, 0.0, 1.0, 1.0, 0.0, 0.0, 0.0, 0.0, 1.0, 0.0, 0.0, 0.0, 0.0, 1.0, 0.0];
  }

  /** A permutation matrix whose determinant Matrix4.Det gets right (1). */
  function Swap4(): (n: seq<real>)
    ensures |n| == 16
  {
    [0.0, 0.0, 1.0, 0.0,
     0.0, 1.0, 0.0, 0.0,
     0.0, 0.0, 0.0, 1.0,
     1.0, 0.0, 0.0, 0.0]
  }

  /** Matrix4.Inverse of Swap4 is not a right inverse: entry (1, 1) of the
      product is 0, because entry 5 of the adjugate is. */
  lemma Swap4Adjugate()
    ensures Cof0(Swap4()) == 0.0 && Cof1(Swap4()) == 0.0 && Cof2(Swap4()) == 0.0
    ensures Cof3(Swap4()) == 1.0 && Cof3Corrected(Swap4()) == 1.0
    ensures Adjugate4(Swap4())[5] == 0.0
  {
    var n := Swap4();
    assert n[0] == 0.0 && n[1] == 0.0 && n[2] == 1.0 && n[3] == 0.0;
    assert n[4] == 0.0 && n[5] == 1.0 && n[6] == 0.0 && n[7] == 0.0;
    assert n[8] == 0.0 && n[9] == 0.0 && n[10] == 0.0 && n[11] == 1.0;
    assert n[12] == 1.0 && n[13] == 0.0 && n[14] == 0.0 && n[15] == 0.0;
  }

  lemma Inverse4NotRightInverse()
    ensures Det4(Swap4()) == 1.0 && Det4Corrected(Swap4()) == 1.0
    ensures MulEntry4(Swap4(), Inverse4(Swap4()), 1, 1) == 0.0
    ensures Mul4(Swap4(), Inverse4(Swap4())) != Identity4()
  {
    var n := Swap4();
    Swap4Adjugate();
    assert Inverse4(n)[5] == 0.0;
    assert Row4(n, 1) == Vec4(0.0, 1.0, 0.0, 0.0);
    Mul4At(n, Inverse4(n), 1, 1);
  }

  /** The loop that closes `Inverse` in every matrix class: each entry is
      multiplied by the reciprocal of the determinant, in place. */
  method ScaleInPlace(a: array<real>, s: real)
    modifies a
    ensures a[..] == ScaleSeq(old(a[..]), s)
  {
    for i := 0 to a.Length
      invariant forall q :: 0 <= q < i ==> a[q] == old(a[q]) * s
      invariant forall q :: i <= q < a.Length ==> a[q] == old(a[q])
    {
      a[i] := a[i] * s;
    }
    assert forall q :: 0 <= q < a.Length ==> a[..][q] == ScaleSeq(old(a[..]), s)[q];
  }

  // ---------------------------------------------------------------------
  // class Matrix4
  // ---------------------------------------------------------------------

  class Matrix4 {
    /** Row-major entries. */
    var v: array<real>

    ghost predicate Valid()
      reads this
    {
      v.Length == 16
    }

    /** `Matrix4(double[] data)` once the length check has passed: the matrix
        keeps the caller's array, it does not copy it. */
    constructor Wrap(data: array<real>)
      requires data.Length == 16
      ensures Valid() && v == data
    {
      v := data;
    }

    /** `Matrix4(double[] data)`: throws unless the array has 16 entries,
        and otherwise aliases it. */
    static method FromArray(data: array<real>) returns (r: Result<Matrix4>)
      ensures r.Err? <==> data.Length != 16
      ensures r.Err? ==> r.error == ArgumentOutOfRange
      ensures r.Ok? ==> fresh(r.value) && r.value.Valid() && r.value.v == data
    {
      if data.Length != 16 {
        return Err(ArgumentOutOfRange);
      }
      var m := new Matrix4.Wrap(data);
      return Ok(m);
    }

    /** `Matrix4.GetIdentity`. */
    static method GetIdentity() returns (m: Matrix4)
      ensures fresh(m) && fresh(m.v) && m.Valid()
      ensures m.v[..] == Identity4()
    {
      var data := new real[] [1.0, 0.0, 0.0, 0.0,
                              0.0, 1.0, 0.0, 0.0,
                              0.0, 0.0, 1.0, 0.0,
                              0.0, 0.0, 0.0, 1.0];
      m := new Matrix4.Wrap(data);
    }

    /** `Transpose` fills a new array with entry (j, i) at (i, j) and then
        replaces `v` by it. */
    method Transpose()
      requires Valid()
      modifies this
      ensures Valid() && fresh(v)
      ensures v[..] == Transpose4(old(v[..]))
    {
      var nv := new real[16];
      var k := 0;
      for i := 0 to 4
        invariant k == 4 * i && v == old(v)
        invariant forall ii, jj :: 0 <= ii < i && 0 <= jj < 4 ==> At4(nv[..], ii, jj) == At4(v[..], jj, ii)
      {
        for j := 0 to 4
          invariant k == 4 * i + j && v == old(v)
          invariant forall ii, jj :: 0 <= ii < i && 0 <= jj < 4 ==> At4(nv[..], ii, jj) == At4(v[..], jj, ii)
          invariant forall jj :: 0 <= jj < j ==> At4(nv[..], i, jj) == At4(v[..], jj, i)
        {
          nv[k] := v[j * 4 + i];
          k := k + 1;
        }
      }
      forall i, j | 0 <= i < 4 && 0 <= j < 4
        ensures At4(nv[..], i, j) == At4(Transpose4(v[..]), i, j)
      {
        Transpose4At(v[..], i, j);
      }
      Ext16(nv[..], Transpose4(v[..]));
      v := nv;
    }

    /** `Add` adds the other matrix entry by entry, in place. */
    method Add(r: Matrix4)
      requires Valid() && r.Valid()
      modifies v
      ensures v[..] == PlusSeq(old(v[..]), old(r.v[..]))
    {
      for i := 0 to 16
        invariant forall k :: 0 <= k < i ==> v[k] == old(v[k]) + old(r.v[k])
        invariant forall k :: i <= k < 16 ==> v[k] == old(v[k]) && r.v[k] == old(r.v[k])
      {
        v[i] := v[i] + r.v[i];
      }
    }

    /** `Sub` as written ADDS the other matrix, like `Add`. */
    method Sub(r: Matrix4)
      requires Valid() && r.Valid()
      modifies v
      ensures v[..] == PlusSeq(old(v[..]), old(r.v[..]))
    {
      for i := 0 to 16
        invariant forall k :: 0 <= k < i ==> v[k] == old(v[k]) + old(r.v[k])
        invariant forall k :: i <= k < 16 ==> v[k] == old(v[k]) && r.v[k] == old(r.v[k])
      {
        v[i] := v[i] + r.v[i];
      }
    }

    /** `Clone` copies the entries into a new array of a new matrix. */
    method Clone() returns (c: Matrix4)
      requires Valid()
      ensures fresh(c) && fresh(c.v) && c.Valid()
      ensures c.v[..] == v[..]
    {
      var nv := new real[16];
      for i := 0 to 16
        invariant forall k :: 0 <= k < i ==> nv[k] == v[k]
      {
        nv[i] := v[i];
      }
      c := new Matrix4.Wrap(nv);
    }

    /** `l * r`. */
    static method Mul(l: Matrix4, r: Matrix4) returns (m: Matrix4)
      requires l.Valid() && r.Valid()
      ensures fresh(m) && fresh(m.v) && m.Valid()
      ensures m.v[..] == Mul4(l.v[..], r.v[..])
    {
      var nv := new real[16];
      var k := 0;
      for i := 0 to 4
        invariant k == 4 * i
        invariant forall ii, jj :: 0 <= ii < i && 0 <= jj < 4 ==> At4(nv[..], ii, jj) == MulEntry4(l.v[..], r.v[..], ii, jj)
      {
        for j := 0 to 4
          invariant k == 4 * i + j
          invariant forall ii, jj :: 0 <= ii < i && 0 <= jj < 4 ==> At4(nv[..], ii, jj) == MulEntry4(l.v[..], r.v[..], ii, jj)
          invariant forall jj :: 0 <= jj < j ==> At4(nv[..], i, jj) == MulEntry4(l.v[..], r.v[..], i, jj)
        {
          nv[k] := l.v[4 * i] * r.v[j] + l.v[4 * i + 1] * r.v[4 + j]
                 + l.v[4 * i + 2] * r.v[8 + j] + l.v[4 * i + 3] * r.v[12 + j];
          k := k + 1;
        }
      }
      forall i, j | 0 <= i < 4 && 0 <= j < 4
        ensures At4(nv[..], i, j) == At4(Mul4(l.v[..], r.v[..]), i, j)
      {
        Mul4At(l.v[..], r.v[..], i, j);
      }
      Ext16(nv[..], Mul4(l.v[..], r.v[..]));
      m := new Matrix4.Wrap(nv);
    }

    /** `Inverse` computes the first column of the adjugate and the
        determinant from it; a singular matrix becomes the identity and the
        result is false, otherwise `v` is replaced by the adjugate scaled by
        the reciprocal of the determinant. */
    method Inverse() returns (ok: bool)
      requires Valid()
      modifies this
      ensures Valid() && fresh(v)
      ensures ok <==> Det4(old(v[..])) != 0.0
      ensures v[..] == Inverse4(old(v[..]))
    {
      var m := v[..];
      var inv := new real[16];
      var adj := Adjugate4(m);
      inv[0] := adj[0];
      inv[1] := adj[1];
      inv[2] := adj[2];
      inv[3] := adj[3];
      // the determinant is the first column of the adjugate against the
      // first column of the matrix, as `Det4` states it
      var det := Det4(m);
      if det == 0.0 {
        v := new real[] [1.0, 0.0, 0.0, 0.0,
                         0.0, 1.0, 0.0, 0.0,
                         0.0, 0.0, 1.0, 0.0,
                         0.0, 0.0, 0.0, 1.0];
        InverseSingular(m);
        return false;
      }
      for k := 4 to 16
        invariant forall q :: 0 <= q < k ==> inv[q] == adj[q]
      {
        inv[k] := adj[k];
      }
      assert inv[..] == adj;
      det := 1.0 / det;
      ScaleInPlace(inv, det);
      InverseNonSingular(m);
      v := inv;
      return true;
    }

    /** `l * scalar`. */
    static method Scale(l: Matrix4, scalar: real) returns (m: Matrix4)
      requires l.Valid()
      ensures fresh(m) && fresh(m.v) && m.Valid()
      ensures m.v[..] == ScaleSeq(l.v[..], scalar)
    {
      var nv := new real[16];
      for i := 0 to 16
        invariant forall k :: 0 <= k < i ==> nv[k] == l.v[k] * scalar
      {
        nv[i] := l.v[i] * scalar;
      }
      assert forall k :: 0 <= k < 16 ==> nv[..][k] == ScaleSeq(l.v[..], scalar)[k];
      m := new Matrix4.Wrap(nv);
    }

    /** `l + r`. */
    static method Plus(l: Matrix4, r: Matrix4) returns (m: Matrix4)
      requires l.Valid() && r.Valid()
      ensures fresh(m) && fresh(m.v) && m.Valid()
      ensures m.v[..] == PlusSeq(l.v[..], r.v[..])
    {
      var nv := new real[16];
      for i := 0 to 16
        invariant forall k :: 0 <= k < i ==> nv[k] == l.v[k] + r.v[k]
      {
        nv[i] := l.v[i] + r.v[i];
      }
      m := new Matrix4.Wrap(nv);
    }

    /** `l - r`. */
    static method Minus(l: Matrix4, r: Matrix4) returns (m: Matrix4)
      requires l.Valid() && r.Valid()
      ensures fresh(m) && fresh(m.v) && m.Valid()
      ensures m.v[..] == MinusSeq(l.v[..], r.v[..])
    {
      var nv := new real[16];
      for i := 0 to 16
        invariant forall k :: 0 <= k < i ==> nv[k] == l.v[k] - r.v[k]
      {
        nv[i] := l.v[i] - r.v[i];
      }
      m := new Matrix4.Wrap(nv);
    }
  }

  // ---------------------------------------------------------------------
  // 3x3 specification (row-major, entry (i, j) at 3*i + j)
  // ---------------------------------------------------------------------

  function At3(m: seq<real>, i: int, j: int): real
    requires |m| == 9 && 0 <= i < 3 && 0 <= j < 3
  {
    m[3 * i + j]
  }

  function Row3(m: seq<real>, i: int): Vec3
    requires |m| == 9 && 0 <= i < 3
  {
    Vec3(m[3 * i], m[3 * i + 1], m[3 * i + 2])
  }

  function Col3(m: seq<real>, j: int): Vec3
    requires |m| == 9 && 0 <= j < 3
  {
    Vec3(m[j], m[3 + j], m[6 + j])
  }

  function MulEntry3(a: seq<real>, b: seq<real>, i: int, j: int): real
    requires |a| == 9 && |b| == 9 && 0 <= i < 3 && 0 <= j < 3
  {
    Row3(a, i).Dot(Col3(b, j))
  }

  /** The product `l * r` of GUtility.cs:1247-1261. */
  function Mul3(a: seq<real>, b: seq<real>): (c: seq<real>)
    requires |a| == 9 && |b| == 9
    ensures |c| == 9
  {
    [MulEntry3(a, b, 0, 0), MulEntry3(a, b, 0, 1), MulEntry3(a, b, 0, 2),
     MulEntry3(a, b, 1, 0), MulEntry3(a, b, 1, 1), MulEntry3(a, b, 1, 2),
     MulEntry3(a, b, 2, 0), MulEntry3(a, b, 2, 1), MulEntry3(a, b, 2, 2)]
  }

  /** The matrix-vector product `l * r` of GUtility.cs:1262-1267. */
  function Apply3(m: seq<real>, p: Vec3): Vec3
    requires |m| == 9
  {
    Vec3(Row3(m, 0).Dot(p), Row3(m, 1).Dot(p), Row3(m, 2).Dot(p))
  }

  function Identity3(): (m: seq<real>)
    ensures |m| == 9
  {
    [1.0, 0.0, 0.0,
     0.0, 1.0, 0.0,
     0.0, 0.0, 1.0]
  }

  /** Matrix3.Det: the rule of Sarrus. */
  function Det3(v: seq<real>): real
    requires |v| == 9
  {
    v[0] * v[4] * v[8] + v[3] * v[7] * v[2] + v[6] * v[1] * v[5]
    - v[0] * v[7] * v[5] - v[6] * v[4] * v[2] - v[3] * v[1] * v[8]
  }

  /** The adjugate that Matrix3.Inverse builds before scaling. */
  function Adjugate3(v: seq<real>): (a: seq<real>)
    requires |v| == 9
    ensures |a| == 9
  {
    [v[4] * v[8] - v[5] * v[7], v[2] * v[7] - v[1] * v[8], v[1] * v[5] - v[2] * v[4],
     v[5] * v[6] - v[3] * v[8], v[0] * v[8] - v[2] * v[6], v[2] * v[3] - v[0] * v[5],
     v[3] * v[7] - v[4] * v[6], v[1] * v[6] - v[0] * v[7], v[0] * v[4] - v[1] * v[3]]
  }

  /** What Matrix3.Inverse leaves in the matrix: the identity when the
      determinant is zero, the scaled adjugate otherwise. */
  function Inverse3(v: seq<real>): (r: seq<real>)
    requires |v| == 9
    ensures |r| == 9
  {
    if Det3(v) == 0.0 then Identity3() else ScaleSeq(Adjugate3(v), 1.0 / Det3(v))
  }

  lemma Ext9(s: seq<real>, t: seq<real>)
    requires |s| == 9 && |t| == 9
    requires forall i, j :: 0 <= i < 3 && 0 <= j < 3 ==> At3(s, i, j) == At3(t, i, j)
    ensures s == t
  {
    forall k | 0 <= k < 9
      ensures s[k] == t[k]
    {
      var i, j := k / 3, k % 3;
      assert k == 3 * i + j;
      assert At3(s, i, j) == At3(t, i, j);
    }
  }

  /** Mul3 is the row-major product: its entry (i, j) is row i of `a` times
      column j of `b`. */
  lemma Mul3At(a: seq<real>, b: seq<real>, i: int, j: int)
    requires |a| == 9 && |b| == 9 && 0 <= i < 3 && 0 <= j < 3
    ensures At3(Mul3(a, b), i, j) == MulEntry3(a, b, i, j)
  {
    if i == 0 {
      if j == 0 {} else if j == 1 {} else {}
    } else if i == 1 {
      if j == 0 {} else if j == 1 {} else {}
    } else {
      if j == 0 {} else if j == 1 {} else {}
    }
  }

  /** The identity is neutral for the product on both sides and for the
      matrix-vector product, and it has determinant 1. */
  lemma Identity3Neutral(m: seq<real>, p: Vec3)
    requires |m| == 9
    ensures Mul3(Identity3(), m) == m
    ensures Mul3(m, Identity3()) == m
    ensures Apply3(Identity3(), p) == p
  {
    var id := Identity3();
    var left, right := Mul3(id, m), Mul3(m, id);
    forall i, j | 0 <= i < 3 && 0 <= j < 3
      ensures MulEntry3(id, m, i, j) == m[3 * i + j] && MulEntry3(m, id, i, j) == m[3 * i + j]
    {
      assert Row3(id, i) == Vec3(if i == 0 then 1.0 else 0.0, if i == 1 then 1.0 else 0.0, if i == 2 then 1.0 else 0.0);
      assert Col3(id, j) == Vec3(if j == 0 then 1.0 else 0.0, if j == 1 then 1.0 else 0.0, if j == 2 then 1.0 else 0.0);
    }
    assert left == [m[0], m[1], m[2], m[3], m[4], m[5], m[6], m[7], m[8]];
    assert right == [m[0], m[1], m[2], m[3], m[4], m[5], m[6], m[7], m[8]];
    assert m == [m[0], m[1], m[2], m[3], m[4], m[5], m[6], m[7], m[8]];
  }

  /** The identity is its own inverse, with determinant 1. */
  lemma Identity3Inverse()
    ensures Det3(Identity3()) == 1.0 && Inverse3(Identity3()) == Identity3()
  {
  }

  /** Multiplying equals by the same factor; lets the solver replace an
      atom inside a product by the polynomial it stands for. */
  lemma MulCongr(a: real, u: real, p: real)
    requires u == p
    ensures a * u == a * p
  {
  }

  lemma DotComm3(u: Vec3, v: Vec3)
    ensures u.Dot(v) == v.Dot(u)
  {
  }

  /** The triple product a · (b × c), written out. */
  lemma TripleProduct(a: Vec3, b: Vec3, c: Vec3)
    ensures a.Dot(Cross(b, c)) == a.x * b.y * c.z + b.x * c.y * a.z + c.x * a.y * b.z
                                - a.x * c.y * b.z - c.x * b.y * a.z - b.x * a.y * c.z
  {
    var k := Cross(b, c);
    MulCongr(a.x, k.x, b.y * c.z - b.z * c.y);
    MulCongr(a.y, k.y, b.z * c.x - b.x * c.z);
    MulCongr(a.z, k.z, b.x * c.y - b.y * c.x);
  }

  /** The columns of Adjugate3, written out. */
  lemma Adjugate3Col0(m: seq<real>)
    requires |m| == 9
    ensures Col3(Adjugate3(m), 0) == Vec3(m[4] * m[8] - m[5] * m[7], m[5] * m[6] - m[3] * m[8], m[3] * m[7] - m[4] * m[6])
  {
  }
  lemma Adjugate3Col1(m: seq<real>)
    requires |m| == 9
    ensures Col3(Adjugate3(m), 1) == Vec3(m[2] * m[7] - m[1] * m[8], m[0] * m[8] - m[2] * m[6], m[1] * m[6] - m[0] * m[7])
  {
  }
  lemma Adjugate3Col2(m: seq<real>)
    requires |m| == 9
    ensures Col3(Adjugate3(m), 2) == Vec3(m[1] * m[5] - m[2] * m[4], m[2] * m[3] - m[0] * m[5], m[0] * m[4] - m[1] * m[3])
  {
  }
  /** The cross products of pairs of rows, written out. */
  lemma Cross3Col0(m: seq<real>)
    requires |m| == 9
    ensures Cross(Row3(m, 1), Row3(m, 2)) == Vec3(m[4] * m[8] - m[5] * m[7], m[5] * m[6] - m[3] * m[8], m[3] * m[7] - m[4] * m[6])
  {
  }
  lemma Cross3Col1(m: seq<real>)
    requires |m| == 9
    ensures Cross(Row3(m, 2), Row3(m, 0)) == Vec3(m[2] * m[7] - m[1] * m[8], m[0] * m[8] - m[2] * m[6], m[1] * m[6] - m[0] * m[7])
  {
  }
  lemma Cross3Col2(m: seq<real>)
    requires |m| == 9
    ensures Cross(Row3(m, 0), Row3(m, 1)) == Vec3(m[1] * m[5] - m[2] * m[4], m[2] * m[3] - m[0] * m[5], m[0] * m[4] - m[1] * m[3])
  {
  }

  /** Column j of the adjugate is the cross product of the two rows other
      than j, taken in cyclic order. */
  lemma AdjugateColumns3(m: seq<real>)
    requires |m| == 9
    ensures Col3(Adjugate3(m), 0) == Cross(Row3(m, 1), Row3(m, 2))
    ensures Col3(Adjugate3(m), 1) == Cross(Row3(m, 2), Row3(m, 0))
    ensures Col3(Adjugate3(m), 2) == Cross(Row3(m, 0), Row3(m, 1))
  {
    Adjugate3Col0(m); Adjugate3Col1(m); Adjugate3Col2(m);
    Cross3Col0(m); Cross3Col1(m); Cross3Col2(m);
  }

  /** Each row dotted with the cross product of the next two (cyclically)
      is the determinant. */
  lemma TripleDet3Row0(m: seq<real>)
    requires |m| == 9
    ensures Row3(m, 0).Dot(Cross(Row3(m, 1), Row3(m, 2))) == Det3(m)
  {
    var r0, r1, r2 := Vec3(m[0], m[1], m[2]), Vec3(m[3], m[4], m[5]), Vec3(m[6], m[7], m[8]);
    assert Row3(m, 0) == r0 && Row3(m, 1) == r1 && Row3(m, 2) == r2;
    TripleProduct(r0, r1, r2);
  }

  lemma TripleDet3Row1(m: seq<real>)
    requires |m| == 9
    ensures Row3(m, 1).Dot(Cross(Row3(m, 2), Row3(m, 0))) == Det3(m)
  {
    var r1, r2, r0 := Vec3(m[3], m[4], m[5]), Vec3(m[6], m[7], m[8]), Vec3(m[0], m[1], m[2]);
    assert Row3(m, 1) == r1 && Row3(m, 2) == r2 && Row3(m, 0) == r0;
    TripleProduct(r1, r2, r0);
  }

  lemma TripleDet3Row2(m: seq<real>)
    requires |m| == 9
    ensures Row3(m, 2).Dot(Cross(Row3(m, 0), Row3(m, 1))) == Det3(m)
  {
    var r2, r0, r1 := Vec3(m[6], m[7], m[8]), Vec3(m[0], m[1], m[2]), Vec3(m[3], m[4], m[5]);
    assert Row3(m, 2) == r2 && Row3(m, 0) == r0 && Row3(m, 1) == r1;
    TripleProduct(r2, r0, r1);
  }

  /** A cross product is orthogonal to both of its factors. */
  lemma Orthogonal3(a: Vec3, b: Vec3)
    ensures a.Dot(Cross(a, b)) == 0.0 && b.Dot(Cross(a, b)) == 0.0
  {
    DotComm3(a, Cross(a, b));
    DotComm3(b, Cross(a, b));
  }

  lemma DotTimes3(u: Vec3, c: Vec3, s: real)
    ensures u.Dot(c.Times(s)) == u.Dot(c) * s
  {
  }

  lemma ColScale3(a: seq<real>, s: real, j: int)
    requires |a| == 9 && 0 <= j < 3
    ensures Col3(ScaleSeq(a, s), j) == Col3(a, j).Times(s)
  {
  }
  /** Column j of `m * Inverse3(m)` is column j of the identity. */
  lemma Inverse3Column0(m: seq<real>)
    requires |m| == 9 && Det3(m) != 0.0
    ensures MulEntry3(m, Inverse3(m), 0, 0) == 1.0
    ensures MulEntry3(m, Inverse3(m), 1, 0) == 0.0
    ensures MulEntry3(m, Inverse3(m), 2, 0) == 0.0
  {
    var d := Det3(m);
    var c := Col3(Adjugate3(m), 0);
    AdjugateColumns3(m);
    TripleDet3Row0(m);
    Orthogonal3(Row3(m, 1), Row3(m, 2));
    ColScale3(Adjugate3(m), 1.0 / d, 0);
    DotTimes3(Row3(m, 0), c, 1.0 / d);
    DotTimes3(Row3(m, 1), c, 1.0 / d);
    DotTimes3(Row3(m, 2), c, 1.0 / d);
    assert d * (1.0 / d) == 1.0;
  }

  lemma Inverse3Column1(m: seq<real>)
    requires |m| == 9 && Det3(m) != 0.0
    ensures MulEntry3(m, Inverse3(m), 0, 1) == 0.0
    ensures MulEntry3(m, Inverse3(m), 1, 1) == 1.0
    ensures MulEntry3(m, Inverse3(m), 2, 1) == 0.0
  {
    var d := Det3(m);
    var c := Col3(Adjugate3(m), 1);
    AdjugateColumns3(m);
    TripleDet3Row1(m);
    Orthogonal3(Row3(m, 2), Row3(m, 0));
    ColScale3(Adjugate3(m), 1.0 / d, 1);
    DotTimes3(Row3(m, 0), c, 1.0 / d);
    DotTimes3(Row3(m, 1), c, 1.0 / d);
    DotTimes3(Row3(m, 2), c, 1.0 / d);
    assert d * (1.0 / d) == 1.0;
  }

  lemma Inverse3Column2(m: seq<real>)
    requires |m| == 9 && Det3(m) != 0.0
    ensures MulEntry3(m, Inverse3(m), 0, 2) == 0.0
    ensures MulEntry3(m, Inverse3(m), 1, 2) == 0.0
    ensures MulEntry3(m, Inverse3(m), 2, 2) == 1.0
  {
    var d := Det3(m);
    var c := Col3(Adjugate3(m), 2);
    AdjugateColumns3(m);
    TripleDet3Row2(m);
    Orthogonal3(Row3(m, 0), Row3(m, 1));
    ColScale3(Adjugate3(m), 1.0 / d, 2);
    DotTimes3(Row3(m, 0), c, 1.0 / d);
    DotTimes3(Row3(m, 1), c, 1.0 / d);
    DotTimes3(Row3(m, 2), c, 1.0 / d);
    assert d * (1.0 / d) == 1.0;
  }

  /** Matrix3.Inverse (GUtility.cs:1141-1167) computes a right inverse
      whenever the determinant is nonzero. */
  lemma Inverse3Right(m: seq<real>)
    requires |m| == 9 && Det3(m) != 0.0
    ensures Mul3(m, Inverse3(m)) == Identity3()
  {
    Inverse3Column0(m);
    Inverse3Column1(m);
    Inverse3Column2(m);
  }

  /** The matrix-vector product agrees with the matrix product. */
  lemma ApplyMul3(a: seq<real>, b: seq<real>, p: Vec3)
    requires |a| == 9 && |b| == 9
    ensures Apply3(Mul3(a, b), p) == Apply3(a, Apply3(b, p))
  {
  }

  /** Applying `m` after Inverse3(m) gives back any vector: Inverse3 solves
      `m x = y` when the determinant is nonzero. */
  lemma Inverse3Solves(m: seq<real>, y: Vec3)
    requires |m| == 9 && Det3(m) != 0.0
    ensures Apply3(m, Apply3(Inverse3(m), y)) == y
  {
    Inverse3Right(m);
    ApplyMul3(m, Inverse3(m), y);
    Identity3Neutral(m, y);
  }

  // ---------------------------------------------------------------------
  // class Matrix3
  // ---------------------------------------------------------------------

  class Matrix3 {
    /** Row-major entries. */
    var v: array<real>

    ghost predicate Valid()
      reads this
    {
      v.Length == 9
    }

    /** `Matrix3(double[] values)` keeps the caller's array; it checks no
        length, so a short array only fails at the first access. */
    constructor Wrap(values: array<real>)
      ensures v == values
    {
      v := values;
    }

    /** `Matrix3(v11, ..., v33)`: a new array filled row by row. */
    constructor (v11: real, v12: real, v13: real, v21: real, v22: real, v23: real,
                 v31: real, v32: real, v33: real)
      ensures Valid() && fresh(v)
      ensures v[..] == [v11, v12, v13, v21, v22, v23, v31, v32, v33]
    {
      var a := new real[9];
      a[0], a[1], a[2] := v11, v12, v13;
      a[3], a[4], a[5] := v21, v22, v23;
      a[6], a[7], a[8] := v31, v32, v33;
      v := a;
    }

    static method GetIdentity() returns (m: Matrix3)
      ensures fresh(m) && fresh(m.v) && m.Valid()
      ensures m.v[..] == Identity3()
    {
      m := new Matrix3(1.0, 0.0, 0.0, 0.0, 1.0, 0.0, 0.0, 0.0, 1.0);
    }

    /** `Transpose` declares a local array named like the field and copies
        that local array into itself, so the new entries are the zeros a
        fresh array starts with, whatever the matrix held. */
    method Transpose()
      requires Valid()
      modifies this
      ensures Valid() && fresh(v)
      ensures forall k :: 0 <= k < 9 ==> v[k] == 0.0
    {
      var local := new real[9](_ => 0.0);
      var k := 0;
      for i := 0 to 3
        invariant k == 3 * i
        invariant forall q :: 0 <= q < 9 ==> local[q] == 0.0
      {
        for j := 0 to 3
          invariant k == 3 * i + j
          invariant forall q :: 0 <= q < 9 ==> local[q] == 0.0
        {
          local[k] := local[j * 3 + i];
          k := k + 1;
        }
      }
      v := local;
    }

    /** `Inverse`: on a zero determinant the matrix becomes the identity and
        the result is false; otherwise `v` is replaced by the adjugate, which
        is then scaled by the reciprocal of the determinant. */
    method Inverse() returns (ok: bool)
      requires Valid()
      modifies this
      ensures Valid() && fresh(v)
      ensures ok <==> Det3(old(v[..])) != 0.0
      ensures v[..] == Inverse3(old(v[..]))
    {
      var m := v[..];
      var det := Det3(m);
      if det == 0.0 {
        v := new real[] [1.0, 0.0, 0.0, 0.0, 1.0, 0.0, 0.0, 0.0, 1.0];
        return false;
      }
      det := 1.0 / det;
      var adj := Adjugate3(m);
      v := new real[] [adj[0], adj[1], adj[2], adj[3], adj[4], adj[5], adj[6], adj[7], adj[8]];
      assert v[..] == adj;
      ScaleInPlace(v, det);
      return true;
    }

    /** `Add` adds the other matrix entry by entry, in place. */
    method Add(r: Matrix3)
      requires Valid() && r.Valid()
      modifies v
      ensures v[..] == PlusSeq(old(v[..]), old(r.v[..]))
    {
      for i := 0 to 9
        invariant forall k :: 0 <= k < i ==> v[k] == old(v[k]) + old(r.v[k])
        invariant forall k :: i <= k < 9 ==> v[k] == old(v[k]) && r.v[k] == old(r.v[k])
      {
        v[i] := v[i] + r.v[i];
      }
    }

    /** `Sub` subtracts the other matrix entry by entry, in place. */
    method Sub(r: Matrix3)
      requires Valid() && r.Valid()
      modifies v
      ensures v[..] == MinusSeq(old(v[..]), old(r.v[..]))
    {
      for i := 0 to 9
        invariant forall k :: 0 <= k < i ==> v[k] == old(v[k]) - old(r.v[k])
        invariant forall k :: i <= k < 9 ==> v[k] == old(v[k]) && r.v[k] == old(r.v[k])
      {
        v[i] := v[i] - r.v[i];
      }
    }

    /** `Clone` copies the entries into a new array of a new matrix. */
    method Clone() returns (c: Matrix3)
      requires Valid()
      ensures fresh(c) && fresh(c.v) && c.Valid()
      ensures c.v[..] == v[..]
    {
      var nv := new real[9];
      for i := 0 to 9
        invariant forall k :: 0 <= k < i ==> nv[k] == v[k]
      {
        nv[i] := v[i];
      }
      c := new Matrix3.Wrap(nv);
    }

    /** `l + r`. */
    static method Plus(l: Matrix3, r: Matrix3) returns (m: Matrix3)
      requires l.Valid() && r.Valid()
      ensures fresh(m) && fresh(m.v) && m.Valid()
      ensures m.v[..] == PlusSeq(l.v[..], r.v[..])
    {
      var nv := new real[9];
      for i := 0 to 9
        invariant forall k :: 0 <= k < i ==> nv[k] == l.v[k] + r.v[k]
      {
        nv[i] := l.v[i] + r.v[i];
      }
      m := new Matrix3.Wrap(nv);
    }

    /** `l - r`. */
    static method Minus(l: Matrix3, r: Matrix3) returns (m: Matrix3)
      requires l.Valid() && r.Valid()
      ensures fresh(m) && fresh(m.v) && m.Valid()
      ensures m.v[..] == MinusSeq(l.v[..], r.v[..])
    {
      var nv := new real[9];
      for i := 0 to 9
        invariant forall k :: 0 <= k < i ==> nv[k] == l.v[k] - r.v[k]
      {
        nv[i] := l.v[i] - r.v[i];
      }
      m := new Matrix3.Wrap(nv);
    }

    /** `l * scalar`. */
    static method Scale(l: Matrix3, scalar: real) returns (m: Matrix3)
      requires l.Valid()
      ensures fresh(m) && fresh(m.v) && m.Valid()
      ensures m.v[..] == ScaleSeq(l.v[..], scalar)
    {
      var nv := new real[9];
      for i := 0 to 9
        invariant forall k :: 0 <= k < i ==> nv[k] == l.v[k] * scalar
      {
        nv[i] := l.v[i] * scalar;
      }
      assert forall k :: 0 <= k < 9 ==> nv[..][k] == ScaleSeq(l.v[..], scalar)[k];
      m := new Matrix3.Wrap(nv);
    }

    /** `l * r`. */
    static method Mul(l: Matrix3, r: Matrix3) returns (m: Matrix3)
      requires l.Valid() && r.Valid()
      ensures fresh(m) && fresh(m.v) && m.Valid()
      ensures m.v[..] == Mul3(l.v[..], r.v[..])
    {
      var nv := new real[9];
      var k := 0;
      for i := 0 to 3
        invariant k == 3 * i
        invariant forall ii, jj :: 0 <= ii < i && 0 <= jj < 3 ==> At3(nv[..], ii, jj) == MulEntry3(l.v[..], r.v[..], ii, jj)
      {
        for j := 0 to 3
          invariant k == 3 * i + j
          invariant forall ii, jj :: 0 <= ii < i && 0 <= jj < 3 ==> At3(nv[..], ii, jj) == MulEntry3(l.v[..], r.v[..], ii, jj)
          invariant forall jj :: 0 <= jj < j ==> At3(nv[..], i, jj) == MulEntry3(l.v[..], r.v[..], i, jj)
        {
          nv[k] := l.v[3 * i] * r.v[j] + l.v[3 * i + 1] * r.v[3 + j] + l.v[3 * i + 2] * r.v[6 + j];
          k := k + 1;
        }
      }
      forall i, j | 0 <= i < 3 && 0 <= j < 3
        ensures At3(nv[..], i, j) == At3(Mul3(l.v[..], r.v[..]), i, j)
      {
        Mul3At(l.v[..], r.v[..], i, j);
      }
      Ext9(nv[..], Mul3(l.v[..], r.v[..]));
      m := new Matrix3.Wrap(nv);
    }
  }

  // ---------------------------------------------------------------------
  // 2x2 specification (v0 v1 / v2 v3)
  // ---------------------------------------------------------------------

  /** The product `l * r` of GUtility.cs:1089-1095. */
  function Mul2(a: seq<real>, b: seq<real>): (c: seq<real>)
    requires |a| == 4 && |b| == 4
    ensures |c| == 4
  {
    [a[0] * b[0] + a[1] * b[2], a[0] * b[1] + a[1] * b[3],
     a[2] * b[0] + a[3] * b[2], a[2] * b[1] + a[3] * b[3]]
  }

  /** The matrix-vector product `l * r` of GUtility.cs:1100-1103. */
  function Apply2(m: seq<real>, p: Vec2): Vec2
    requires |m| == 4
  {
    Vec2(m[0] * p.x + m[1] * p.y, m[2] * p.x + m[3] * p.y)
  }

  function Identity2(): (m: seq<real>)
    ensures |m| == 4
  {
    [1.0, 0.0, 0.0, 1.0]
  }

  function Det2(v: seq<real>): real
    requires |v| == 4
  {
    v[0] * v[3] - v[1] * v[2]
  }

  function Adjugate2(v: seq<real>): (a: seq<real>)
    requires |v| == 4
    ensures |a| == 4
  {
    [v[3], -v[1], -v[2], v[0]]
  }

  /** What Matrix2.Inverse leaves in the matrix. */
  function Inverse2(v: seq<real>): (r: seq<real>)
    requires |v| == 4
    ensures |r| == 4
  {
    if Det2(v) == 0.0 then Identity2() else ScaleSeq(Adjugate2(v), 1.0 / Det2(v))
  }

  /** The 2x2 functions entry by entry, for use where the entries are read
      from an array. */
  lemma Entries2(a: seq<real>, b: seq<real>, s: real)
    requires |a| == 4 && |b| == 4
    ensures Mul2(a, b) == [a[0] * b[0] + a[1] * b[2], a[0] * b[1] + a[1] * b[3],
                           a[2] * b[0] + a[3] * b[2], a[2] * b[1] + a[3] * b[3]]
    ensures ScaleSeq(a, s) == [a[0] * s, a[1] * s, a[2] * s, a[3] * s]
    ensures ScaleSeq(Adjugate2(b), s) == [b[3] * s, -b[1] * s, -b[2] * s, b[0] * s]
  {
    var sa := [a[0] * s, a[1] * s, a[2] * s, a[3] * s];
    assert forall k :: 0 <= k < 4 ==> ScaleSeq(a, s)[k] == sa[k];
    var sb := [b[3] * s, -b[1] * s, -b[2] * s, b[0] * s];
    assert forall k :: 0 <= k < 4 ==> ScaleSeq(Adjugate2(b), s)[k] == sb[k];
  }

  /** For a non-singular matrix, Inverse2 undoes the matrix: applying the
      matrix after its inverse gives the vector back. */
  lemma Inverse2Right(m: seq<real>, w: Vec2)
    requires |m| == 4 && Det2(m) != 0.0
    ensures Apply2(m, Apply2(Inverse2(m), w)) == w
  {
  }

  /** The identity is neutral for both products. */
  lemma Identity2Neutral(m: seq<real>, p: Vec2)
    requires |m| == 4
    ensures Mul2(Identity2(), m) == m && Mul2(m, Identity2()) == m
    ensures Apply2(Identity2(), p) == p
    ensures Det2(Identity2()) == 1.0 && Inverse2(Identity2()) == Identity2()
  {
  }

  // ---------------------------------------------------------------------
  // class Matrix2
  // ---------------------------------------------------------------------

  class Matrix2 {
    /** The entries v0 v1 / v2 v3. */
    var v: array<real>

    ghost predicate Valid()
      reads this
    {
      v.Length == 4
    }

    /** `Matrix2(double[] values)` keeps the caller's array. */
    constructor Wrap(values: array<real>)
      ensures v == values
    {
      v := values;
    }

    /** `Matrix2(v11, v12, v21, v22)`: a new array in that order. */
    constructor (v11: real, v12: real, v21: real, v22: real)
      ensures Valid() && fresh(v)
      ensures v[..] == [v11, v12, v21, v22]
    {
      var a := new real[4];
      a[0], a[1], a[2], a[3] := v11, v12, v21, v22;
      v := a;
    }

    static method GetIdentity() returns (m: Matrix2)
      ensures fresh(m) && fresh(m.v) && m.Valid()
      ensures m.v[..] == Identity2()
    {
      m := new Matrix2(1.0, 0.0, 0.0, 1.0);
    }

    /** `Transpose` swaps v1 and v2 in place. */
    method Transpose()
      requires Valid()
      modifies v
      ensures v[..] == [old(v[0]), old(v[2]), old(v[1]), old(v[3])]
    {
      var v21 := v[2];
      v[2] := v[1];
      v[1] := v21;
    }

    /** `Inverse`: the identity and false on a zero determinant, otherwise a
        new array holding the adjugate scaled by the reciprocal of the
        determinant, and true. */
    method Inverse() returns (ok: bool)
      requires Valid()
      modifies this
      ensures Valid() && fresh(v)
      ensures ok <==> Det2(old(v[..])) != 0.0
      ensures v[..] == Inverse2(old(v[..]))
    {
      var m := v[..];
      var det := Det2(m);
      if det == 0.0 {
        v := new real[] [1.0, 0.0, 0.0, 1.0];
        return false;
      }
      det := 1.0 / det;
      v := new real[] [m[3] * det, -m[1] * det, -m[2] * det, m[0] * det];
      Entries2(Adjugate2(m), m, det);
      return true;
    }

    /** `Add` adds the other matrix entry by entry, in place. */
    method Add(r: Matrix2)
      requires Valid() && r.Valid()
      modifies v
      ensures v[..] == PlusSeq(old(v[..]), old(r.v[..]))
    {
      v[0] := v[0] + r.v[0];
      v[1] := v[1] + r.v[1];
      v[2] := v[2] + r.v[2];
      v[3] := v[3] + r.v[3];
    }

    /** `Sub` subtracts the other matrix entry by entry, in place. */
    method Sub(r: Matrix2)
      requires Valid() && r.Valid()
      modifies v
      ensures v[..] == MinusSeq(old(v[..]), old(r.v[..]))
    {
      v[0] := v[0] - r.v[0];
      v[1] := v[1] - r.v[1];
      v[2] := v[2] - r.v[2];
      v[3] := v[3] - r.v[3];
    }

    method Clone() returns (c: Matrix2)
      requires Valid()
      ensures fresh(c) && fresh(c.v) && c.Valid()
      ensures c.v[..] == v[..]
    {
      c := new Matrix2(v[0], v[1], v[2], v[3]);
    }

    /** `l + r`. */
    static method Plus(l: Matrix2, r: Matrix2) returns (m: Matrix2)
      requires l.Valid() && r.Valid()
      ensures fresh(m) && fresh(m.v) && m.Valid()
      ensures m.v[..] == PlusSeq(l.v[..], r.v[..])
    {
      m := new Matrix2(l.v[0] + r.v[0], l.v[1] + r.v[1], l.v[2] + r.v[2], l.v[3] + r.v[3]);
    }

    /** `l - r` as written ADDS its operands, exactly like `l + r`. */
    static method Minus(l: Matrix2, r: Matrix2) returns (m: Matrix2)
      requires l.Valid() && r.Valid()
      ensures fresh(m) && fresh(m.v) && m.Valid()
      ensures m.v[..] == PlusSeq(l.v[..], r.v[..])
    {
      m := new Matrix2(l.v[0] + r.v[0], l.v[1] + r.v[1], l.v[2] + r.v[2], l.v[3] + r.v[3]);
    }

    /** `l * r`. */
    static method Mul(l: Matrix2, r: Matrix2) returns (m: Matrix2)
      requires l.Valid() && r.Valid()
      ensures fresh(m) && fresh(m.v) && m.Valid()
      ensures m.v[..] == Mul2(l.v[..], r.v[..])
    {
      var a, b := l.v[..], r.v[..];
      m := new Matrix2(a[0] * b[0] + a[1] * b[2],
                       a[0] * b[1] + a[1] * b[3],
                       a[2] * b[0] + a[3] * b[2],
                       a[2] * b[1] + a[3] * b[3]);
      Entries2(a, b, 0.0);
    }

    /** `l * s`. */
    static method Scale(l: Matrix2, s: real) returns (m: Matrix2)
      requires l.Valid()
      ensures fresh(m) && fresh(m.v) && m.Valid()
      ensures m.v[..] == ScaleSeq(l.v[..], s)
    {
      var a := l.v[..];
      m := new Matrix2(a[0] * s, a[1] * s, a[2] * s, a[3] * s);
      Entries2(a, a, s);
    }
  }
}
