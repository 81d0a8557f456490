// Numbers as the renderer uses them. Floating point values (`double`,
// `float`) are modelled as mathematical reals; the one infinite value the
// renderer relies on, the empty depth `float.NegativeInfinity`, is an explicit
// bottom element of `Depth`. C#'s `int` is a bounded 32-bit integer; where the
// model needs its limits they are the constants below.
module Numerics {

  /** The largest and the smallest value of C#'s 32-bit `int`. */
  const IntMax: int := 0x7fff_ffff
  const IntMin: int := -0x8000_0000

  /** The largest finite `double`; `double.MinValue` is its negation. */
  const DoubleMax: real := 1.7976931348623157e308
  const DoubleMin: real := -1.7976931348623157e308

  /** The exceptions the modelled code can raise. */
  datatype Error =
    | IndexOutOfRange      // an array or list index outside its bounds
    | ArgumentOutOfRange   // a constructor argument of the wrong size
    | DuplicateKey         // Dictionary.Add of a key that is present
    | KeyNotFound          // Dictionary indexer on a missing key
    | NullReference        // a member accessed through null
    | Overflow             // an array allocated with a negative size (C#'s
                           // OverflowException), or one that wrapped negative
    | Diverged             // a recursion the source does not bound ran past the
                           // model's depth bound (a stack overflow in the source)

  /** The result of an operation that may throw. */
  datatype Result<T> = Ok(value: T) | Err(error: Error)
  {
    predicate IsOk() { Ok? }
  }

  datatype Option<T> = None | Some(value: T)

  /** `new T[width][]` followed by `new T[height]` for each column throws
      exactly when the width is negative, or when there is a column and the
      height is negative: with no columns a negative height is never used. */
  predicate JaggedThrows(width: int, height: int)
  {
    width < 0 || (width > 0 && height < 0)
  }

  /** The length of the columns of such an array when it does not throw, as
      the rectangular array that stands for it has them. */
  function ColumnLength(width: int, height: int): (n: int)
    ensures !JaggedThrows(width, height) ==> n >= 0 && (width > 0 ==> n == height)
  {
    if width == 0 && height < 0 then 0 else height
  }

  /** A depth value: a finite real or negative infinity. */
  datatype Depth = NegInf | Fin(z: real)
  {
    /** The IEEE `<` on the values the model uses: -inf is below every
        finite value and not below itself. */
    predicate Below(other: Depth)
    {
      match (this, other)
      case (NegInf, NegInf) => false
      case (NegInf, Fin(_)) => true
      case (Fin(_), NegInf) => false
      case (Fin(a), Fin(b)) => a < b
    }
  }

  /** `Below` is a strict order: irreflexive, transitive, and total between
      distinct values. */
  lemma BelowStrictOrder(a: Depth, b: Depth, c: Depth)
    ensures !a.Below(a)
    ensures a.Below(b) && b.Below(c) ==> a.Below(c)
    ensures a != b ==> (a.Below(b) || b.Below(a))
    ensures a.Below(b) ==> !b.Below(a)
  {
  }

  /** Division of reals where the divisor may be zero. IEEE division by zero
      gives an infinity or NaN, which the model does not represent: the
      model's quotient is 0 there. */
  function Div(a: real, b: real): (q: real)
    ensures b != 0.0 ==> q * b == a
    ensures b == 0.0 ==> q == 0.0
  {
    if b == 0.0 then 0.0 else a / b
  }

  /** C#'s `(int)` cast of a floating point value: truncation toward zero. */
  function Trunc(x: real): (n: int)
    ensures x >= 0.0 ==> n as real <= x < n as real + 1.0
    ensures x < 0.0 ==> n as real - 1.0 < x <= n as real
  {
    if x >= 0.0 then x.Floor else -((-x).Floor)
  }

  /** Truncation is monotone, which is what makes the integer bounds of a
      polygon contain the integer images of its vertices. */
  lemma TruncMonotone(x: real, y: real)
    requires x <= y
    ensures Trunc(x) <= Trunc(y)
  {
  }

  /** Truncation leaves integers alone. */
  lemma TruncOfInt(n: int)
    ensures Trunc(n as real) == n
  {
  }

  function Abs(n: int): (r: nat)
    ensures r == n || r == -n
  {
    if n < 0 then -n else n
  }

  function Max(a: int, b: int): (m: int)
    ensures m >= a && m >= b && (m == a || m == b)
  {
    if a >= b then a else b
  }

  function Min(a: int, b: int): (m: int)
    ensures m <= a && m <= b && (m == a || m == b)
  {
    if a <= b then a else b
  }
}
