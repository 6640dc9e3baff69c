/** Two-dimensional points and vectors over the reals, the Euclidean norm
    as a characterised parameter, and the result and option types shared by
    the model. */
module Vectors {

  /** A point or a vector of the plane; a row of an N×2 coordinate array. */
  datatype Vec = Vec(x: real, y: real)

  const Zero := Vec(0.0, 0.0)

  /** The default tangent direction, the unit vector along x. */
  const UnitX := Vec(1.0, 0.0)

  function Add(a: Vec, b: Vec): Vec { Vec(a.x + b.x, a.y + b.y) }

  function Sub(a: Vec, b: Vec): Vec { Vec(a.x - b.x, a.y - b.y) }

  function Scale(k: real, v: Vec): Vec { Vec(k * v.x, k * v.y) }

  /** Division of both coordinates by a nonzero scalar. */
  function Div(v: Vec, k: real): Vec
    requires k != 0.0
  {
    Vec(v.x / k, v.y / k)
  }

  /** The vector rotated by 90 degrees counter-clockwise: (x, y) -> (-y, x). */
  function Perp(v: Vec): Vec { Vec(-v.y, v.x) }

  function Abs(r: real): real { if r < 0.0 then -r else r }

  function MinReal(a: real, b: real): real { if a <= b then a else b }

  /** `norm` is the Euclidean length: it is never negative and its square is
      the sum of the squared coordinates. These two facts determine it. */
  ghost predicate IsEuclideanNorm(norm: Vec -> real) {
    forall v: Vec {:trigger IsLengthOf(norm(v), v)} :: IsLengthOf(norm(v), v)
  }

  /** `n` is the Euclidean length of `v`. */
  ghost predicate IsLengthOf(n: real, v: Vec) {
    n >= 0.0 && n * n == v.x * v.x + v.y * v.y
  }

  /** Squaring is strictly increasing on the non-negative reals. */
  lemma SquareStrictlyIncreasing(a: real, b: real)
    requires 0.0 <= a < b
    ensures a * a < b * b
  {
    var aa, ab, bb := a * a, a * b, b * b;
    assert aa <= ab;
    assert ab < bb;
  }

  /** Two non-negative reals with equal squares are equal. */
  lemma SquareRootUnique(a: real, b: real)
    requires a >= 0.0 && b >= 0.0 && a * a == b * b
    ensures a == b
  {
    if a < b {
      SquareStrictlyIncreasing(a, b);
    } else if b < a {
      SquareStrictlyIncreasing(b, a);
    }
  }

  lemma SumOfSquaresZero(x: real, y: real)
    ensures x * x + y * y == 0.0 <==> x == 0.0 && y == 0.0
  {
    if x != 0.0 {
      SquareStrictlyIncreasing(0.0, Abs(x));
      assert y * y >= 0.0;
    } else if y != 0.0 {
      SquareStrictlyIncreasing(0.0, Abs(y));
    }
  }

  /** A length is zero exactly when both coordinates are. */
  lemma LengthZeroIff(n: real, x: real, y: real)
    requires n >= 0.0 && n * n == x * x + y * y
    ensures n == 0.0 <==> x == 0.0 && y == 0.0
  {
    if n > 0.0 {
      SquareStrictlyIncreasing(0.0, n);
      SumOfSquaresZero(x, y);
    } else {
      var nn := n * n;
      assert nn == 0.0;
      SumOfSquaresZero(x, y);
    }
  }

  /** The norm vanishes exactly on the zero vector. */
  lemma NormZeroIff(norm: Vec -> real, v: Vec)
    requires IsEuclideanNorm(norm)
    ensures norm(v) >= 0.0
    ensures norm(v) == 0.0 <==> v == Zero
  {
    assert IsLengthOf(norm(v), v);
    LengthZeroIff(norm(v), v.x, v.y);
  }

  lemma ScaledSquares(k: real, n: real, x: real, y: real)
    requires n * n == x * x + y * y
    ensures (Abs(k) * n) * (Abs(k) * n) == (k * x) * (k * x) + (k * y) * (k * y)
  {
    var kk := k * k;
    assert Abs(k) * Abs(k) == kk;
    calc {
      (Abs(k) * n) * (Abs(k) * n);
      kk * (n * n);
      kk * (x * x + y * y);
      (k * x) * (k * x) + (k * y) * (k * y);
    }
  }

  /** Scaling a vector by k scales its norm by |k|. */
  lemma NormScale(norm: Vec -> real, k: real, v: Vec)
    requires IsEuclideanNorm(norm)
    ensures norm(Scale(k, v)) == Abs(k) * norm(v)
  {
    var n, m := norm(v), norm(Scale(k, v));
    assert IsLengthOf(n, v) && IsLengthOf(m, Scale(k, v));
    ScaledSquares(k, n, v.x, v.y);
    assert Abs(k) * n >= 0.0;
    SquareRootUnique(m, Abs(k) * n);
  }

  /** Rotation by 90 degrees keeps the norm. */
  lemma NormPerp(norm: Vec -> real, v: Vec)
    requires IsEuclideanNorm(norm)
    ensures norm(Perp(v)) == norm(v)
  {
    assert IsLengthOf(norm(v), v) && IsLengthOf(norm(Perp(v)), Perp(v));
    SquareRootUnique(norm(Perp(v)), norm(v));
  }

  lemma NormUnitX(norm: Vec -> real)
    requires IsEuclideanNorm(norm)
    ensures norm(UnitX) == 1.0
  {
    assert IsLengthOf(norm(UnitX), UnitX);
    SquareRootUnique(norm(UnitX), 1.0);
  }

  /** The outcome of an operation that may raise an error. */
  datatype Result<T, E> = Ok(value: T) | Err(error: E)

  /** An optional argument, or a read that may come back empty. */
  datatype Option<T> = None | Some(value: T)
}
