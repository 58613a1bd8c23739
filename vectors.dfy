/**
 * The two-component vector of the flow field and its length.
 *
 * The source computes the length as `sqrt(x * x + y * y)`. A square root is
 * not definable over Dafny's reals, so the length enters the model as a
 * function value `len`, and `IsLength` pins it down as the Euclidean length:
 * the non-negative number whose square is `x * x + y * y`. The laws the
 * flow-field normalisation and the advection step rely on (zero length,
 * scaling, component bounds) are proved from that characterisation.
 */
module Vectors {

  datatype Vec2D = Vec2D(x: real, y: real)

  const Zero := Vec2D(0.0, 0.0)

  /** Each component of a vector divided by `m`. */
  function Divided(v: Vec2D, m: real): (r: Vec2D)
    requires m != 0.0
    ensures r.x * m == v.x && r.y * m == v.y
  {
    Vec2D(v.x / m, v.y / m)
  }

  function Square(x: real): real
  {
    x * x
  }

  /** `len` is `sqrt(x * x + y * y)`: it is non-negative and squares to `x * x + y * y`. */
  ghost predicate IsLength(len: Vec2D -> real)
  {
    forall v :: len(v) >= 0.0 && Square(len(v)) == Square(v.x) + Square(v.y)
  }

  /** The zero vector has length zero; every other vector has positive length. */
  lemma LengthOfZero(len: Vec2D -> real, v: Vec2D)
    requires IsLength(len)
    ensures len(Zero) == 0.0
    ensures v != Zero ==> len(v) > 0.0
  {
    SquareZero(len(Zero));
    if v != Zero {
      SquareNonNegative(v.x);
      SquareNonNegative(v.y);
      if v.x != 0.0 {
        SquarePositive(v.x);
      } else {
        SquarePositive(v.y);
      }
      SquareZero(len(v));
    }
  }

  /** Each component of a vector lies between minus its length and its length. */
  lemma ComponentsWithinLength(len: Vec2D -> real, v: Vec2D)
    requires IsLength(len)
    ensures -len(v) <= v.x <= len(v) && -len(v) <= v.y <= len(v)
  {
    SquareNonNegative(v.x);
    SquareNonNegative(v.y);
    SquareBound(v.x, len(v));
    SquareBound(v.y, len(v));
  }

  /** A vector of length at most 1 has both components in [-1, 1]. */
  lemma ComponentsOfShortVector(len: Vec2D -> real, v: Vec2D)
    requires IsLength(len) && len(v) <= 1.0
    ensures -1.0 <= v.x <= 1.0 && -1.0 <= v.y <= 1.0
  {
    ComponentsWithinLength(len, v);
  }

  /** The length of a vector divided by a positive `m` is its length divided by `m`. */
  lemma LengthOfDivided(len: Vec2D -> real, v: Vec2D, m: real)
    requires IsLength(len) && m > 0.0
    ensures len(Divided(v, m)) == len(v) / m
  {
    var r := Divided(v, m);
    var q := len(v) / m;
    SquareOfProduct(q, m);
    SquareOfProduct(r.x, m);
    SquareOfProduct(r.y, m);
    SquarePositive(m);
    Cancel(Square(q), Square(r.x) + Square(r.y), Square(m));
    SquareUnique(len(r), q);
  }

  /** Only zero squares to zero. */
  lemma SquareZero(x: real)
    ensures Square(x) == 0.0 <==> x == 0.0
  {
    if x != 0.0 {
      SquarePositive(x);
    }
  }

  lemma SquareOfProduct(p: real, m: real)
    ensures Square(p * m) == Square(p) * Square(m)
  {
  }

  /** A positive common factor cancels. */
  lemma Cancel(u: real, w: real, k: real)
    requires k > 0.0 && u * k == w * k
    ensures u == w
  {
    assert (u - w) * k == 0.0;
  }

  /** Two non-negative numbers with the same square are equal. */
  lemma SquareUnique(a: real, b: real)
    requires a >= 0.0 && b >= 0.0 && Square(a) == Square(b)
    ensures a == b
  {
    if a < b {
      SquareStrict(a, b);
    } else if b < a {
      SquareStrict(b, a);
    }
  }

  /** A number whose square is at most `l * l` (with `l >= 0`) lies in [-l, l]. */
  lemma SquareBound(x: real, l: real)
    requires l >= 0.0 && Square(x) <= Square(l)
    ensures -l <= x <= l
  {
    if x > l {
      SquareStrict(l, x);
    } else if x < -l {
      SquareStrict(l, -x);
      NegSquare(x);
    }
  }

  /** Squaring is strictly increasing on the non-negative numbers. */
  lemma SquareStrict(a: real, b: real)
    requires 0.0 <= a < b
    ensures Square(a) < Square(b)
  {
    assert b * b - a * a == (b - a) * (b + a);
    MulPositive(b - a, b + a);
  }

  lemma SquareNonNegative(x: real)
    ensures Square(x) >= 0.0
  {
    if x != 0.0 {
      SquarePositive(x);
    }
  }

  lemma SquarePositive(x: real)
    requires x != 0.0
    ensures Square(x) > 0.0
  {
    if x < 0.0 {
      SquareStrict(0.0, -x);
      NegSquare(x);
    } else {
      SquareStrict(0.0, x);
    }
  }

  lemma NegSquare(x: real)
    ensures Square(-x) == Square(x)
  {
  }

  lemma MulPositive(a: real, b: real)
    requires a > 0.0 && b > 0.0
    ensures a * b > 0.0
  {
  }
}
