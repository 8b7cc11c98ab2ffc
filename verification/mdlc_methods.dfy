/**
  `MDLCmethods`: the six axis permutations of a vector, and the permutation index and
  rotation sign that `ProcessVariousRotation` picks for each light. The slerp of the
  smoothed axis and the quaternion rotation itself are not modelled.
*/
module LightRotation {
  import opened Vectors

  const PermutationCount: int := 6

  /** `Permute`: a switch on the C# remainder `permId % 6`; any case other than 0..4,
      including a negative remainder, takes the last permutation (z, y, x). */
  function Permute(v: Vec3, permId: int): (r: Vec3)
  {
    var p := CsRem(permId, PermutationCount);
    if p == 0 then Vec3(v.x, v.y, v.z)
    else if p == 1 then Vec3(v.x, v.z, v.y)
    else if p == 2 then Vec3(v.y, v.x, v.z)
    else if p == 3 then Vec3(v.y, v.z, v.x)
    else if p == 4 then Vec3(v.z, v.x, v.y)
    else Vec3(v.z, v.y, v.x)
  }

  function Components(v: Vec3): multiset<real> {
    multiset{v.x, v.y, v.z}
  }

  /** Every case rearranges the components: same multiset, hence same squared length. */
  lemma PermuteRearranges(v: Vec3, permId: int)
    ensures Components(Permute(v, permId)) == Components(v)
    ensures SqLen(Permute(v, permId)) == SqLen(v)
  {
    ComponentsOfPermute(v, permId);
    SquaresOfPermute(v, permId, v.x * v.x, v.y * v.y, v.z * v.z);
  }

  lemma SquaresOfPermute(v: Vec3, permId: int, xx: real, yy: real, zz: real)
    requires xx == v.x * v.x && yy == v.y * v.y && zz == v.z * v.z
    ensures SqLen(Permute(v, permId)) == xx + yy + zz
  {
    var r := Permute(v, permId);
    assert r.x * r.x + r.y * r.y + r.z * r.z == xx + yy + zz by {
      assert (r.x == v.x || r.x == v.y || r.x == v.z) && (r.y == v.x || r.y == v.y || r.y == v.z);
    }
  }

  lemma ComponentsOfPermute(v: Vec3, permId: int)
    ensures Components(Permute(v, permId)) == Components(v)
  {
    var p := CsRem(permId, PermutationCount);
    var r := Permute(v, permId);
    if p == 0 {
      assert r == v;
    } else if p == 1 {
      assert r == Vec3(v.x, v.z, v.y);
      SwapLast(v.x, v.y, v.z);
    } else if p == 2 {
      assert r == Vec3(v.y, v.x, v.z);
      SwapFirst(v.x, v.y, v.z);
    } else if p == 3 {
      assert r == Vec3(v.y, v.z, v.x);
      RotateLeft(v.x, v.y, v.z);
    } else if p == 4 {
      assert r == Vec3(v.z, v.x, v.y);
      RotateLeft(v.z, v.x, v.y);
    } else {
      assert r == Vec3(v.z, v.y, v.x);
      Reverse(v.x, v.y, v.z);
    }
  }

  lemma SwapFirst(a: real, b: real, c: real)
    ensures multiset{a, b, c} == multiset{b, a, c}
  {
  }

  lemma SwapLast(a: real, b: real, c: real)
    ensures multiset{a, b, c} == multiset{a, c, b}
  {
  }

  lemma RotateLeft(a: real, b: real, c: real)
    ensures multiset{a, b, c} == multiset{b, c, a}
  {
    SwapFirst(a, b, c);
    SwapLast(b, a, c);
  }

  lemma Reverse(a: real, b: real, c: real)
    ensures multiset{a, b, c} == multiset{c, b, a}
  {
    SwapFirst(a, b, c);
    RotateLeft(b, a, c);
  }

  /** Only the remainder matters, and index 0 is the identity. */
  lemma PermuteDependsOnRemainder(v: Vec3, p: int, q: int)
    requires CsRem(p, PermutationCount) == CsRem(q, PermutationCount)
    ensures Permute(v, p) == Permute(v, q)
    ensures Permute(v, 0) == v
  {
  }

  /** A negative index with a non-zero remainder falls to the default case. */
  lemma NegativeIndexIsDefault(v: Vec3, permId: int)
    requires permId < 0 && CsRem(permId, PermutationCount) != 0
    ensures Permute(v, permId) == Vec3(v.z, v.y, v.x)
  {
  }

  predicate DistinctComponents(v: Vec3) {
    v.x != v.y && v.y != v.z && v.x != v.z
  }

  /** For a vector with three different components, the six indices give six different vectors. */
  lemma PermutationsDistinct(v: Vec3, i: int, j: int)
    requires DistinctComponents(v) && 0 <= i < j < PermutationCount
    ensures Permute(v, i) != Permute(v, j)
  {
  }

  /** The permutation index of light `i`: `(pBase + i) % 6`. */
  function LightPermutation(pBase: int, i: nat): (p: int)
    ensures pBase >= 0 ==> 0 <= p < PermutationCount
  {
    CsRem(pBase + i, PermutationCount)
  }

  /** With a non-negative base, up to six lights get pairwise different indices. */
  lemma LightPermutationsDistinct(pBase: int, i: nat, j: nat)
    requires pBase >= 0 && i < j < PermutationCount as nat
    ensures LightPermutation(pBase, i) != LightPermutation(pBase, j)
  {
  }

  /** The target axis of each of `n` lights, before normalisation. */
  function LightAxes(baseAxis: Vec3, pBase: int, n: nat): (axes: seq<Vec3>)
    ensures |axes| == n
    ensures forall i :: 0 <= i < n ==> axes[i] == Permute(baseAxis, LightPermutation(pBase, i))
  {
    seq(n, i requires 0 <= i < n => Permute(baseAxis, LightPermutation(pBase, i)))
  }

  /** Every light's axis is a rearrangement of the base axis, so all of them have its length. */
  lemma LightAxesRearrange(baseAxis: Vec3, pBase: int, n: nat, i: nat)
    requires i < n
    ensures Components(LightAxes(baseAxis, pBase, n)[i]) == Components(baseAxis)
    ensures SqLen(LightAxes(baseAxis, pBase, n)[i]) == SqLen(baseAxis)
  {
    PermuteRearranges(baseAxis, LightPermutation(pBase, i));
  }

  /** Up to six lights turn about pairwise different axes when the base axis has three
      different components and the base index is non-negative. */
  lemma LightAxesDistinct(baseAxis: Vec3, pBase: int, n: nat, i: nat, j: nat)
    requires DistinctComponents(baseAxis) && pBase >= 0 && n <= PermutationCount as nat && i < j < n
    ensures LightAxes(baseAxis, pBase, n)[i] != LightAxes(baseAxis, pBase, n)[j]
  {
    var p := LightPermutation(pBase, i);
    var q := LightPermutation(pBase, j);
    LightPermutationsDistinct(pBase, i, j);
    assert Permute(baseAxis, p) == Permute(baseAxis, CsRem(p, PermutationCount));
    assert Permute(baseAxis, q) == Permute(baseAxis, CsRem(q, PermutationCount));
    if p < q { PermutationsDistinct(baseAxis, p, q); } else { PermutationsDistinct(baseAxis, q, p); }
  }

  /** The angle a light turns this frame: forward while `dirFeature` exceeds the
      feature value, backward otherwise. */
  function RotationAmount(dirFeature: real, featureValue: real, rotationSpeed: real, dt: real): (a: real)
    ensures dirFeature > featureValue ==> a == rotationSpeed * dt
    ensures dirFeature <= featureValue ==> a == -(rotationSpeed * dt)
  {
    (if dirFeature > featureValue then rotationSpeed else -rotationSpeed) * dt
  }

  /** With a positive speed and frame time the sign of the turn tells which side of the
      feature value `dirFeature` lies on; its size never depends on the features, and
      exchanging two different values reverses the turn. */
  lemma RotationDirection(dirFeature: real, featureValue: real, rotationSpeed: real, dt: real)
    requires rotationSpeed > 0.0 && dt > 0.0
    ensures RotationAmount(dirFeature, featureValue, rotationSpeed, dt) > 0.0 <==> dirFeature > featureValue
    ensures RotationAmount(dirFeature, featureValue, rotationSpeed, dt) < 0.0 <==> dirFeature <= featureValue
    ensures dirFeature != featureValue ==>
      RotationAmount(featureValue, dirFeature, rotationSpeed, dt) == -RotationAmount(dirFeature, featureValue, rotationSpeed, dt)
  {
    PositiveProduct(rotationSpeed, dt);
  }

  lemma PositiveProduct(a: real, b: real)
    requires a > 0.0 && b > 0.0
    ensures a * b > 0.0
  {
  }
}
