/**
  Three-component vectors and the scalar helpers the engine supplies
  (`Mathf.Clamp01`, `Mathf.Lerp`, `Mathf.Max`, `Vector3.Lerp`). Single-precision
  floats are modelled as mathematical reals.
*/
module Vectors {

  datatype Vec3 = Vec3(x: real, y: real, z: real)

  const Zero: Vec3 := Vec3(0.0, 0.0, 0.0)
  const Up: Vec3 := Vec3(0.0, 1.0, 0.0)

  function Add(a: Vec3, b: Vec3): Vec3 {
    Vec3(a.x + b.x, a.y + b.y, a.z + b.z)
  }

  function Sub(a: Vec3, b: Vec3): Vec3 {
    Vec3(a.x - b.x, a.y - b.y, a.z - b.z)
  }

  function Scale(a: Vec3, k: real): Vec3 {
    Vec3(a.x * k, a.y * k, a.z * k)
  }

  function Neg(a: Vec3): Vec3 {
    Vec3(-a.x, -a.y, -a.z)
  }

  /** Squared length; the model compares squared distances so that no square root is needed. */
  function SqLen(a: Vec3): real {
    a.x * a.x + a.y * a.y + a.z * a.z
  }

  function SqDist(a: Vec3, b: Vec3): real {
    SqLen(Sub(b, a))
  }

  /** `Mathf.Clamp01`. */
  function Clamp01(t: real): (r: real)
    ensures 0.0 <= r <= 1.0
    ensures 0.0 <= t <= 1.0 ==> r == t
    ensures t < 0.0 ==> r == 0.0
    ensures t > 1.0 ==> r == 1.0
  {
    if t < 0.0 then 0.0 else if t > 1.0 then 1.0 else t
  }

  /** `Mathf.Max` of two values. */
  function Max(a: real, b: real): (r: real)
    ensures r >= a && r >= b
    ensures r == a || r == b
  {
    if a > b then a else b
  }

  /** `Mathf.Lerp`: the weight is clamped into [0,1] before interpolating. */
  function LerpScalar(a: real, b: real, t: real): real {
    a + (b - a) * Clamp01(t)
  }

  /** `Vector3.Lerp`: componentwise interpolation with a clamped weight. */
  function Lerp(a: Vec3, b: Vec3, t: real): Vec3 {
    var w := Clamp01(t);
    Vec3(a.x + (b.x - a.x) * w, a.y + (b.y - a.y) * w, a.z + (b.z - a.z) * w)
  }

  /** The gap left after interpolating is the old gap scaled by (1 - w). */
  lemma LerpShrinksGap(a: Vec3, b: Vec3, t: real)
    ensures Sub(b, Lerp(a, b, t)) == Scale(Sub(b, a), 1.0 - Clamp01(t))
    ensures SqDist(Lerp(a, b, t), b) == (1.0 - Clamp01(t)) * (1.0 - Clamp01(t)) * SqDist(a, b)
  {
    var w := Clamp01(t);
    var k := 1.0 - w;
    ScalarGap(a.x, b.x, w);
    ScalarGap(a.y, b.y, w);
    ScalarGap(a.z, b.z, w);
    var g := Sub(b, a);
    assert Sub(b, Lerp(a, b, t)) == Scale(g, k);
    SquareOfProduct(g.x, k);
    SquareOfProduct(g.y, k);
    SquareOfProduct(g.z, k);
    SumOfScaled(k * k, g.x * g.x, g.y * g.y, g.z * g.z);
  }

  lemma ScalarGap(a: real, b: real, w: real)
    ensures b - (a + (b - a) * w) == (b - a) * (1.0 - w)
  {
  }

  lemma SquareOfProduct(a: real, k: real)
    ensures (a * k) * (a * k) == k * k * (a * a)
  {
  }

  lemma SumOfScaled(c: real, p: real, q: real, r: real)
    ensures c * p + c * q + c * r == c * (p + q + r)
  {
  }

  /** C#'s `/` on `int` with a positive divisor: the quotient rounded toward zero, so it
      has the sign of the dividend. */
  function TruncQuot(a: int, b: int): (q: int)
    requires b > 0
    ensures a >= 0 ==> q >= 0
    ensures a < 0 ==> q <= 0
  {
    if a >= 0 then a / b else -((-a) / b)
  }

  /** C#'s `%` on `int`: the remainder of truncating division, so `a` is `b` times the
      truncated quotient plus `r`, and `r` takes the sign of the dividend. */
  function CsRem(a: int, b: int): (r: int)
    requires b > 0
    ensures a == b * TruncQuot(a, b) + r
    ensures a >= 0 ==> 0 <= r < b
    ensures a < 0 ==> -b < r <= 0
  {
    if a >= 0 then a % b
    else
      var x, m := (-a) / b, (-a) % b;
      NegateProduct(b, x);
      -m
  }

  lemma NegateProduct(b: int, x: int)
    ensures b * -x == -(b * x)
  {
  }

  /** Truncating division is the only split of `a` into `b` times a quotient plus a
      remainder of the dividend's sign and smaller magnitude than `b`. */
  lemma CsRemUnique(a: int, b: int, q: int, r: int)
    requires b > 0 && a == b * q + r
    requires a >= 0 ==> 0 <= r < b
    requires a < 0 ==> -b < r <= 0
    ensures q == TruncQuot(a, b) && r == CsRem(a, b)
  {
    var q0, r0 := TruncQuot(a, b), CsRem(a, b);
    var d := q - q0;
    assert b * d == b * q - b * q0;
    SmallMultiple(b, d);
  }

  lemma SmallMultiple(b: int, d: int)
    requires b > 0 && -b < b * d < b
    ensures d == 0
  {
    if d >= 1 {
      assert b * d == b + b * (d - 1);
      ProductNonNegativeInt(b, d - 1);
    } else if d <= -1 {
      assert b * d == -b + b * (d + 1);
      ProductNonNegativeInt(b, -(d + 1));
      assert b * (d + 1) == -(b * -(d + 1));
    }
  }

  lemma ProductNonNegativeInt(p: int, q: int)
    requires p >= 0 && q >= 0
    ensures p * q >= 0
  {
  }
}
