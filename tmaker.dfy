// `TMaker` (TMaker.cs): accumulates a 3D transformation in a Matrix4 field.
// Every operation builds an elementary matrix and replaces the field by the
// product `Op * mat`, so the operation applied last acts last on a point.
// `Math.Cos` and `Math.Sin` of the angle are parameters `c` and `s`.
module TMakers {
  import opened Numerics
  import opened Vectors
  import opened Matrices

  /** The rotation by the angle with cosine c and sine s around the axis
      (x, y, z), entry by entry as `Rotate` builds it. */
  function Rotation(c: real, s: real, x: real, y: real, z: real): (m: seq<real>)
    ensures |m| == 16
  {
    [x * x * (1.0 - c) + c, x * y * (1.0 - c) - z * s, x * z * (1.0 - c) + y * s, 0.0,
     x * y * (1.0 - c) + z * s, y * y * (1.0 - c) + c, y * z * (1.0 - c) - x * s, 0.0,
     x * z * (1.0 - c) - y * s, y * z * (1.0 - c) + x * s, z * z * (1.0 - c) + c, 0.0,
     0.0, 0.0, 0.0, 1.0]
  }

  function RotationX(c: real, s: real): (m: seq<real>)
    ensures |m| == 16
  {
    [(1.0 - c) + c, 0.0, 0.0, 0.0,
     0.0, c, -s, 0.0,
     0.0, s, c, 0.0,
     0.0, 0.0, 0.0, 1.0]
  }

  function RotationY(c: real, s: real): (m: seq<real>)
    ensures |m| == 16
  {
    [c, 0.0, s, 0.0,
     0.0, (1.0 - c) + c, 0.0, 0.0,
     -s, 0.0, c, 0.0,
     0.0, 0.0, 0.0, 1.0]
  }

  function RotationZ(c: real, s: real): (m: seq<real>)
    ensures |m| == 16
  {
    [c, -s, 0.0, 0.0,
     s, c, 0.0, 0.0,
     0.0, 0.0, (1.0 - c) + c, 0.0,
     0.0, 0.0, 0.0, 1.0]
  }

  function Translation(x: real, y: real, z: real): (m: seq<real>)
    ensures |m| == 16
  {
    [1.0, 0.0, 0.0, x,
     0.0, 1.0, 0.0, y,
     0.0, 0.0, 1.0, z,
     0.0, 0.0, 0.0, 1.0]
  }

  function Scaling(x: real, y: real, z: real): (m: seq<real>)
    ensures |m| == 16
  {
    [x, 0.0, 0.0, 0.0,
     0.0, y, 0.0, 0.0,
     0.0, 0.0, z, 0.0,
     0.0, 0.0, 0.0, 1.0]
  }

  /** The axis rotations are the general rotation about the unit axes. */
  lemma AxisRotations(c: real, s: real)
    ensures RotationX(c, s) == Rotation(c, s, 1.0, 0.0, 0.0)
    ensures RotationY(c, s) == Rotation(c, s, 0.0, 1.0, 0.0)
    ensures RotationZ(c, s) == Rotation(c, s, 0.0, 0.0, 1.0)
  {
  }

  /** A translation moves a point with w = 1 by the offsets. */
  lemma TranslationMoves(dx: real, dy: real, dz: real, x: real, y: real, z: real)
    ensures Apply4(Translation(dx, dy, dz), Vec4(x, y, z, 1.0)) == Vec4(x + dx, y + dy, z + dz, 1.0)
  {
    var t := Translation(dx, dy, dz);
    assert Row4(t, 0) == Vec4(1.0, 0.0, 0.0, dx);
    assert Row4(t, 1) == Vec4(0.0, 1.0, 0.0, dy);
    assert Row4(t, 2) == Vec4(0.0, 0.0, 1.0, dz);
    assert Row4(t, 3) == Vec4(0.0, 0.0, 0.0, 1.0);
  }

  /** From the identity, `Translate` then `Transform` moves a point by the
      offsets. */
  lemma TranslateFromIdentity(dx: real, dy: real, dz: real, x: real, y: real, z: real)
    ensures Apply4(Mul4(Translation(dx, dy, dz), Identity4()), Vec4(x, y, z, 1.0))
         == Vec4(x + dx, y + dy, z + dz, 1.0)
  {
    Identity4Neutral(Translation(dx, dy, dz), Vec4(x, y, z, 1.0));
    TranslationMoves(dx, dy, dz, x, y, z);
  }

  /** Two accumulated operations: the matrix is Op2 * (Op1 * M0), which is
      (Op2 * Op1) * M0, and on a point M0 acts first, then Op1, then Op2. */
  lemma TwoOperations(op1: seq<real>, op2: seq<real>, m0: seq<real>, p: Vec4)
    requires |op1| == 16 && |op2| == 16 && |m0| == 16
    ensures Mul4(op2, Mul4(op1, m0)) == Mul4(Mul4(op2, op1), m0)
    ensures Apply4(Mul4(op2, Mul4(op1, m0)), p) == Apply4(op2, Apply4(op1, Apply4(m0, p)))
  {
    Mul4Assoc(op2, op1, m0);
    ApplyMul4(op2, Mul4(op1, m0), p);
    ApplyMul4(op1, m0, p);
  }

  /** GetInverse inverts every single operation: for each elementary matrix
      the wrong factors of Matrix4.Inverse multiply a zero entry, so a
      nonzero determinant gives a right inverse. */
  lemma ElementaryInverses(c: real, s: real, x: real, y: real, z: real)
    ensures Det4(Rotation(c, s, x, y, z)) != 0.0 ==>
              Mul4(Rotation(c, s, x, y, z), Inverse4(Rotation(c, s, x, y, z))) == Identity4()
    ensures Det4(Translation(x, y, z)) != 0.0 ==>
              Mul4(Translation(x, y, z), Inverse4(Translation(x, y, z))) == Identity4()
    ensures Det4(Scaling(x, y, z)) != 0.0 ==>
              Mul4(Scaling(x, y, z), Inverse4(Scaling(x, y, z))) == Identity4()
  {
    if Det4(Rotation(c, s, x, y, z)) != 0.0 {
      Inverse4RightWhere(Rotation(c, s, x, y, z));
    }
    if Det4(Translation(x, y, z)) != 0.0 {
      Inverse4RightWhere(Translation(x, y, z));
    }
    if Det4(Scaling(x, y, z)) != 0.0 {
      Inverse4RightWhere(Scaling(x, y, z));
    }
  }

  /** A rotation about z by the angle with cosine 3/5, followed by a
      translation along z. */
  function TurnThenLift(): (m: seq<real>)
    ensures |m| == 16
  {
    [0.6, -0.8, 0.0, 0.0,
     0.8, 0.6, 0.0, 0.0,
     0.0, 0.0, 1.0, 1.0,
     0.0, 0.0, 0.0, 1.0]
  }

  lemma TurnThenLiftEntries()
    ensures Mul4(Translation(0.0, 0.0, 1.0), RotationZ(0.6, 0.8)) == TurnThenLift()
  {
    var t, r := Translation(0.0, 0.0, 1.0), RotationZ(0.6, 0.8);
    assert Row4(t, 0) == Vec4(1.0, 0.0, 0.0, 0.0) && Row4(t, 1) == Vec4(0.0, 1.0, 0.0, 0.0);
    assert Row4(t, 2) == Vec4(0.0, 0.0, 1.0, 1.0) && Row4(t, 3) == Vec4(0.0, 0.0, 0.0, 1.0);
    assert Col4(r, 0) == Vec4(0.6, 0.8, 0.0, 0.0) && Col4(r, 1) == Vec4(-0.8, 0.6, 0.0, 0.0);
    assert Col4(r, 2) == Vec4(0.0, 0.0, 1.0, 0.0) && Col4(r, 3) == Vec4(0.0, 0.0, 0.0, 1.0);
  }

  /** TurnThenLift is what `RotateZ(0.6, 0.8)` and then `Translate(0, 0, 1)`
      leave in a TMaker that starts from the identity. */
  lemma TurnThenLiftIsProduct()
    ensures Mul4(Translation(0.0, 0.0, 1.0), Mul4(RotationZ(0.6, 0.8), Identity4())) == TurnThenLift()
  {
    Identity4Neutral(RotationZ(0.6, 0.8), Vec4(0.0, 0.0, 0.0, 0.0));
    TurnThenLiftEntries();
  }

  /** But GetInverse does not invert that composite: its determinant is 1,
      and the product with what GetInverse stores has 0.288 where the
      identity has 0. (The matrix is a parameter so that the verifier does
      not evaluate the products of the literal entries.) */
  lemma TurnThenLiftNotInverted(m: seq<real>)
    requires m == TurnThenLift()
    ensures Det4(m) == 1.0 && Inverse4(m)[3] == 0.48
    ensures MulEntry4(m, Inverse4(m), 0, 3) == 0.288
    ensures Mul4(m, Inverse4(m)) != Identity4()
  {
    TurnThenLiftAdjugate();
    NotInvertedAt03(m);
  }

  /** A matrix with first row (0.6, -0.8, 0, 0), `Det` 1 and adjugate
      entries 0.48 and 0 at 3 and 7 is not inverted by Matrix4.Inverse. */
  lemma NotInvertedAt03(m: seq<real>)
    requires |m| == 16 && Row4(m, 0) == Vec4(0.6, -0.8, 0.0, 0.0)
    requires Det4(m) == 1.0 && Adjugate4(m)[3] == 0.48 && Adjugate4(m)[7] == 0.0
    ensures Inverse4(m)[3] == 0.48
    ensures MulEntry4(m, Inverse4(m), 0, 3) == 0.288
    ensures Mul4(m, Inverse4(m)) != Identity4()
  {
    var inv := Inverse4(m);
    assert inv[3] == 0.48 && inv[7] == 0.0;
    Mul4At(m, inv, 0, 3);
    assert At4(Identity4(), 0, 3) == 0.0;
  }

  /** The source's determinant and two adjugate entries of TurnThenLift. */
  lemma TurnThenLiftAdjugate()
    ensures Det4(TurnThenLift()) == 1.0
    ensures Adjugate4(TurnThenLift())[3] == 0.48 && Adjugate4(TurnThenLift())[7] == 0.0
  {
    var m := TurnThenLift();
    assert m[0] == 0.6 && m[1] == -0.8 && m[2] == 0.0 && m[3] == 0.0;
    assert m[4] == 0.8 && m[5] == 0.6 && m[6] == 0.0 && m[7] == 0.0;
    assert m[8] == 0.0 && m[9] == 0.0 && m[10] == 1.0 && m[11] == 1.0;
    assert m[12] == 0.0 && m[13] == 0.0 && m[14] == 0.0 && m[15] == 1.0;
    assert Cof0(m) == 0.6 && Cof1(m) == 0.8 && Cof3(m) == 0.48;
  }

  /** `new Matrix4(new double[] { ... })` on sixteen entries. */
  method NewMatrix4(entries: seq<real>) returns (m: Matrix4)
    requires |entries| == 16
    ensures fresh(m) && fresh(m.v) && m.Valid() && m.v[..] == entries
  {
    var data := new real[16](i requires 0 <= i < 16 => entries[i]);
    m := new Matrix4.Wrap(data);
  }

  class TMaker {
    var mat: Matrix4

    ghost predicate Valid()
      reads this, mat
    {
      mat.Valid()
    }

    /** `TMaker()`: starts from the identity. */
    constructor ()
      ensures Valid() && fresh(mat) && fresh(mat.v)
      ensures mat.v[..] == Identity4()
    {
      var m := Matrix4.GetIdentity();
      mat := m;
    }

    /** `TMaker(Matrix4 init)`: holds `init` itself, not a copy. */
    constructor WithMatrix(init: Matrix4)
      ensures mat == init
    {
      mat := init;
    }

    method GetMatrix() returns (m: Matrix4)
      ensures m == mat
    {
      m := mat;
    }

    method LoadIdentity()
      modifies this
      ensures Valid() && fresh(mat) && fresh(mat.v)
      ensures mat.v[..] == Identity4()
    {
      mat := Matrix4.GetIdentity();
    }

    /** A new TMaker over a copy of the matrix in fresh storage. */
    method Clone() returns (t: TMaker)
      requires Valid()
      ensures fresh(t) && fresh(t.mat) && fresh(t.mat.v) && t.Valid()
      ensures t.mat.v[..] == mat.v[..]
    {
      var nMat := mat.Clone();
      t := new TMaker.WithMatrix(nMat);
    }

    /** Holds the caller's matrix itself: later changes to it show here. */
    method Load(m: Matrix4)
      modifies this
      ensures mat == m
    {
      mat := m;
    }

    method Rotate(c: real, s: real, x: real, y: real, z: real)
      requires Valid()
      modifies this
      ensures Valid() && fresh(mat)
      ensures mat.v[..] == Mul4(Rotation(c, s, x, y, z), old(mat.v[..]))
    {
      var rot := NewMatrix4(Rotation(c, s, x, y, z));
      mat := Matrix4.Mul(rot, mat);
    }

    method RotateX(c: real, s: real)
      requires Valid()
      modifies this
      ensures Valid() && fresh(mat)
      ensures mat.v[..] == Mul4(RotationX(c, s), old(mat.v[..]))
    {
      var rotX := NewMatrix4(RotationX(c, s));
      mat := Matrix4.Mul(rotX, mat);
    }

    method RotateY(c: real, s: real)
      requires Valid()
      modifies this
      ensures Valid() && fresh(mat)
      ensures mat.v[..] == Mul4(RotationY(c, s), old(mat.v[..]))
    {
      var rotY := NewMatrix4(RotationY(c, s));
      mat := Matrix4.Mul(rotY, mat);
    }

    method RotateZ(c: real, s: real)
      requires Valid()
      modifies this
      ensures Valid() && fresh(mat)
      ensures mat.v[..] == Mul4(RotationZ(c, s), old(mat.v[..]))
    {
      var rotZ := NewMatrix4(RotationZ(c, s));
      mat := Matrix4.Mul(rotZ, mat);
    }

    method Translate(x: real, y: real, z: real)
      requires Valid()
      modifies this
      ensures Valid() && fresh(mat)
      ensures mat.v[..] == Mul4(Translation(x, y, z), old(mat.v[..]))
    {
      var trans := NewMatrix4(Translation(x, y, z));
      mat := Matrix4.Mul(trans, mat);
    }

    /** `Scale(u)` is `Scale(u, u, u)`. */
    method ScaleUniform(u: real)
      requires Valid()
      modifies this
      ensures Valid() && fresh(mat)
      ensures mat.v[..] == Mul4(Scaling(u, u, u), old(mat.v[..]))
    {
      Scale(u, u, u);
    }

    method Scale(x: real, y: real, z: real)
      requires Valid()
      modifies this
      ensures Valid() && fresh(mat)
      ensures mat.v[..] == Mul4(Scaling(x, y, z), old(mat.v[..]))
    {
      var sca := NewMatrix4(Scaling(x, y, z));
      mat := Matrix4.Mul(sca, mat);
    }

    method ApplyCustomTransform(t: Matrix4)
      requires Valid() && t.Valid()
      modifies this
      ensures Valid() && fresh(mat)
      ensures mat.v[..] == Mul4(old(t.v[..]), old(mat.v[..]))
    {
      mat := Matrix4.Mul(t, mat);
    }

    /** The overload taking another TMaker (spelt `ApplyCustomTranform` in
        the source) pre-multiplies by that TMaker's matrix. */
    method ApplyCustomTransformOf(t: TMaker)
      requires Valid() && t.Valid()
      modifies this
      ensures Valid() && fresh(mat)
      ensures mat.v[..] == Mul4(old(t.mat.v[..]), old(mat.v[..]))
    {
      var tm := t.GetMatrix();
      mat := Matrix4.Mul(tm, mat);
    }

    /** A new TMaker over the inverse of a copy; this one is unchanged. A
        singular matrix gives the identity. */
    method GetInverse() returns (t: TMaker)
      requires Valid()
      ensures fresh(t) && fresh(t.mat) && t.Valid()
      ensures t.mat.v[..] == Inverse4(mat.v[..])
      ensures Det4(mat.v[..]) == 0.0 ==> t.mat.v[..] == Identity4()
    {
      var inv := mat.Clone();
      var _ := inv.Inverse();
      t := new TMaker.WithMatrix(inv);
    }

    /** `Transform(Vec4)`: the matrix applied to the point. */
    method Transform(p: Vec4) returns (r: Vec4)
      requires Valid()
      ensures r == Apply4(mat.v[..], p)
    {
      r := Apply4(mat.v[..], p);
    }

    /** `Transform(src, dst)`: writes mat * src[i] into dst[i] for every i
        of src, and no other slot. A dst shorter than src is written up to
        its end before the index fails. */
    method TransformAll(src: array<Vec4>, dst: array<Vec4>) returns (r: Result<()>)
      requires Valid()
      modifies dst
      ensures r.Ok? <==> src.Length <= dst.Length
      ensures r.Err? ==> r.error == IndexOutOfRange
      ensures forall i :: 0 <= i < dst.Length ==>
                dst[i] == if i < src.Length then Apply4(mat.v[..], old(src[i])) else old(dst[i])
    {
      var n := if src.Length <= dst.Length then src.Length else dst.Length;
      for i := 0 to n
        invariant forall k :: 0 <= k < dst.Length ==>
                    dst[k] == if k < i then Apply4(mat.v[..], old(src[k])) else old(dst[k])
        invariant forall k :: i <= k < src.Length ==> src[k] == old(src[k])
      {
        dst[i] := Apply4(mat.v[..], src[i]);
      }
      if src.Length > dst.Length {
        return Err(IndexOutOfRange);
      }
      return Ok(());
    }
  }
}
