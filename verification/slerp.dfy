/** The spherical linear interpolation primitive shared by the three
    interpolation nodes (`LatentInterpolateMask.slerp` and its two inline
    copies). Both tensors are treated as single flat vectors. */
module SlerpPrimitive {
  import opened Tensors

  /** Stabilising epsilon added to each norm before dividing (1e-8). */
  const NormEpsilon: real := 0.00000001

  /** Angles whose magnitude is below this (1e-6) take the linear path. */
  const ParallelThreshold: real := 0.000001

  /** The real functions the primitive calls but the model leaves abstract:
      the Euclidean norm, arc-cosine, sine, and the number pi, with only the
      facts the primitive relies on. */
  datatype Analysis = Analysis(norm: seq<real> -> real, acos: real -> real, sin: real -> real, pi: real) {
    ghost predicate Valid() {
      && (forall v :: norm(v) >= 0.0)
      && (forall x :: -1.0 <= x <= 1.0 ==> 0.0 <= acos(x) <= pi)
      && sin(0.0) == 0.0
    }
  }

  function Abs(x: real): real
  {
    if x < 0.0 then -x else x
  }

  /** `torch.clamp(x, lo, hi)`: the point of [lo, hi] nearest to `x`. */
  function Clamp(x: real, lo: real, hi: real): (r: real)
    requires lo <= hi
    ensures lo <= r <= hi
    ensures lo <= x <= hi ==> r == x
    ensures Abs(r - x) <= Abs(lo - x) && Abs(r - x) <= Abs(hi - x)
  {
    if x < lo then lo else if x > hi then hi else x
  }

  /** The normalised dot product, each norm padded by the epsilon. */
  function Cosine(an: Analysis, u: seq<real>, v: seq<real>): real
    requires an.Valid() && |u| == |v|
  {
    Dot(u, v) / ((an.norm(u) + NormEpsilon) * (an.norm(v) + NormEpsilon))
  }

  /** The angle between the two flat vectors: arc-cosine of the clamped cosine. */
  function Theta(an: Analysis, u: seq<real>, v: seq<real>): (th: real)
    requires an.Valid() && |u| == |v|
    ensures 0.0 <= th <= an.pi
    ensures Abs(th) == th
  {
    an.acos(Clamp(Cosine(an, u, v), -1.0, 1.0))
  }

  /** The angle takes the linear fallback path. */
  predicate NearParallel(an: Analysis, a: Tensor, b: Tensor)
    requires an.Valid() && |a.data| == |b.data|
  {
    Abs(Theta(an, a.data, b.data)) < ParallelThreshold
  }

  /** Over the reals the general path divides by sin(theta); it is defined
      only when that sine is not zero. */
  predicate Defined(an: Analysis, a: Tensor, b: Tensor)
    requires an.Valid() && |a.data| == |b.data|
  {
    NearParallel(an, a, b) || an.sin(Theta(an, a.data, b.data)) != 0.0
  }

  /** The two blend weights for the given angle: (1 - ratio, ratio) on the
      near-parallel path, sin((1 - ratio) theta) / sin theta and
      sin(ratio theta) / sin theta on the general path. */
  function Weights(an: Analysis, theta: real, ratio: real): (w: (real, real))
    requires Abs(theta) < ParallelThreshold || an.sin(theta) != 0.0
  {
    if Abs(theta) < ParallelThreshold then
      (1.0 - ratio, ratio)
    else
      var sinTheta := an.sin(theta);
      (an.sin((1.0 - ratio) * theta) / sinTheta, an.sin(ratio * theta) / sinTheta)
  }

  /** Interpolates from `a` (ratio 0) to `b` (ratio 1) along the arc between
      the two flattened tensors; the result has the shape of `a`. */
  function Slerp(an: Analysis, a: Tensor, b: Tensor, ratio: real): (c: Tensor)
    requires an.Valid() && a.Valid() && b.Valid() && a.shape == b.shape
    requires Defined(an, a, b)
    ensures c.Valid() && c.shape == a.shape && |c.data| == |a.data|
  {
    var w := Weights(an, Theta(an, a.data, b.data), ratio);
    Tensor(a.shape, Combine(w.0, a.data, w.1, b.data))
  }

  /** At ratio 0 the weights select the first tensor alone. */
  lemma WeightsAtZero(an: Analysis, theta: real)
    requires an.Valid()
    requires Abs(theta) < ParallelThreshold || an.sin(theta) != 0.0
    ensures Weights(an, theta, 0.0) == (1.0, 0.0)
  {
    if !(Abs(theta) < ParallelThreshold) {
      var s := an.sin(theta);
      assert (1.0 - 0.0) * theta == theta;
      assert 0.0 * theta == 0.0;
      assert s / s == 1.0;
      assert an.sin(0.0) / s == 0.0;
    }
  }

  /** At ratio 1 the weights select the second tensor alone. */
  lemma WeightsAtOne(an: Analysis, theta: real)
    requires an.Valid()
    requires Abs(theta) < ParallelThreshold || an.sin(theta) != 0.0
    ensures Weights(an, theta, 1.0) == (0.0, 1.0)
  {
    if !(Abs(theta) < ParallelThreshold) {
      var s := an.sin(theta);
      assert (1.0 - 1.0) * theta == 0.0;
      assert 1.0 * theta == theta;
      assert s / s == 1.0;
      assert an.sin(0.0) / s == 0.0;
    }
  }

  /** Replacing the ratio by its complement exchanges the two weights. */
  lemma WeightsSwap(an: Analysis, theta: real, ratio: real)
    requires Abs(theta) < ParallelThreshold || an.sin(theta) != 0.0
    ensures Weights(an, theta, 1.0 - ratio) == (Weights(an, theta, ratio).1, Weights(an, theta, ratio).0)
  {
    assert 1.0 - (1.0 - ratio) == ratio;
  }

  /** Where sin(theta) is 1 the general weights are the two sines themselves. */
  lemma WeightsUnitSine(an: Analysis, theta: real, ratio: real)
    requires ParallelThreshold <= theta && an.sin(theta) == 1.0
    ensures Weights(an, theta, ratio) == (an.sin((1.0 - ratio) * theta), an.sin(ratio * theta))
  {
    var s := an.sin(theta);
    assert an.sin((1.0 - ratio) * theta) / s == an.sin((1.0 - ratio) * theta);
    assert an.sin(ratio * theta) / s == an.sin(ratio * theta);
  }

  /** On the near-parallel path every element is the linear blend. */
  lemma NearParallelIsLinear(an: Analysis, a: Tensor, b: Tensor, ratio: real)
    requires an.Valid() && a.Valid() && b.Valid() && a.shape == b.shape
    requires NearParallel(an, a, b)
    ensures Defined(an, a, b)
    ensures forall k :: 0 <= k < |a.data| ==>
              Slerp(an, a, b, ratio).data[k] == (1.0 - ratio) * a.data[k] + ratio * b.data[k]
  {
  }

  /** Ratio 0 returns the first tensor exactly, on either path. */
  lemma SlerpAtZero(an: Analysis, a: Tensor, b: Tensor)
    requires an.Valid() && a.Valid() && b.Valid() && a.shape == b.shape
    requires Defined(an, a, b)
    ensures Slerp(an, a, b, 0.0) == a
  {
    var c := Slerp(an, a, b, 0.0);
    WeightsAtZero(an, Theta(an, a.data, b.data));
    assert c.data == Combine(1.0, a.data, 0.0, b.data);
    forall k | 0 <= k < |c.data|
      ensures c.data[k] == a.data[k]
    {
    }
    assert c.data == a.data;
  }

  /** Ratio 1 returns the second tensor exactly, on either path. */
  lemma SlerpAtOne(an: Analysis, a: Tensor, b: Tensor)
    requires an.Valid() && a.Valid() && b.Valid() && a.shape == b.shape
    requires Defined(an, a, b)
    ensures Slerp(an, a, b, 1.0) == b
  {
    var c := Slerp(an, a, b, 1.0);
    WeightsAtOne(an, Theta(an, a.data, b.data));
    assert c.data == Combine(0.0, a.data, 1.0, b.data);
    forall k | 0 <= k < |c.data|
      ensures c.data[k] == b.data[k]
    {
    }
    assert c.data == b.data;
  }

  /** The angle does not depend on the order of the two vectors. */
  lemma ThetaSymmetric(an: Analysis, u: seq<real>, v: seq<real>)
    requires an.Valid() && |u| == |v|
    ensures Theta(an, u, v) == Theta(an, v, u)
  {
    DotSymmetric(u, v);
    assert (an.norm(u) + NormEpsilon) * (an.norm(v) + NormEpsilon)
        == (an.norm(v) + NormEpsilon) * (an.norm(u) + NormEpsilon);
  }

  /** Whether the primitive is defined does not depend on the order. */
  lemma DefinedSymmetric(an: Analysis, a: Tensor, b: Tensor)
    requires an.Valid() && |a.data| == |b.data|
    ensures Defined(an, a, b) <==> Defined(an, b, a)
    ensures NearParallel(an, a, b) <==> NearParallel(an, b, a)
  {
    ThetaSymmetric(an, a.data, b.data);
  }

  /** Swapping the endpoints and replacing the ratio by its complement gives
      the same tensor: the first factor at `ratio` is the second at `1 - ratio`. */
  lemma SlerpSymmetric(an: Analysis, a: Tensor, b: Tensor, ratio: real)
    requires an.Valid() && a.Valid() && b.Valid() && a.shape == b.shape
    requires Defined(an, a, b)
    ensures Defined(an, b, a)
    ensures Slerp(an, b, a, 1.0 - ratio) == Slerp(an, a, b, ratio)
  {
    ThetaSymmetric(an, a.data, b.data);
    var theta := Theta(an, a.data, b.data);
    var c := Slerp(an, a, b, ratio);
    var d := Slerp(an, b, a, 1.0 - ratio);
    var w := Weights(an, theta, ratio);
    WeightsSwap(an, theta, ratio);
    assert c.data == Combine(w.0, a.data, w.1, b.data);
    assert d.data == Combine(w.1, b.data, w.0, a.data);
    forall k | 0 <= k < |c.data|
      ensures d.data[k] == c.data[k]
    {
    }
    assert d.data == c.data;
  }

  /** If the clamped cosine were -1, theta would be pi and, with sin(pi) = 0,
      the general path would divide by zero. With the real Euclidean norm the
      padded cosine stays strictly above -1 (the epsilon keeps the product of
      padded norms above |u . v|), so this case cannot arise over the reals;
      it is admissible here only because the abstract norm carries no
      Cauchy-Schwarz fact. The `Defined` precondition covers it for that
      reason, not because the code lacks a guard over the reals. */
  lemma AntiParallelUndefined(an: Analysis, a: Tensor, b: Tensor)
    requires an.Valid() && |a.data| == |b.data|
    requires an.acos(-1.0) == an.pi && an.sin(an.pi) == 0.0 && an.pi >= ParallelThreshold
    requires Cosine(an, a.data, b.data) <= -1.0
    ensures !Defined(an, a, b)
  {
  }

  /** From the zero vector the dot product, and so the cosine, is 0. */
  lemma ThetaFromZero(an: Analysis, u: seq<real>, v: seq<real>)
    requires an.Valid() && |u| == |v|
    requires forall k :: 0 <= k < |u| ==> u[k] == 0.0
    ensures Theta(an, u, v) == an.acos(0.0)
  {
    DotZeroLeft(u, v);
    assert Cosine(an, u, v) == 0.0;
  }

  /** From the zero tensor at an angle whose sine is 1, each element is the
      sine of the scaled angle times the element of `b`. */
  lemma SlerpFromZeroAt(an: Analysis, a: Tensor, b: Tensor, ratio: real, theta: real)
    requires an.Valid() && a.Valid() && b.Valid() && a.shape == b.shape
    requires forall k :: 0 <= k < |a.data| ==> a.data[k] == 0.0
    requires Theta(an, a.data, b.data) == theta
    requires ParallelThreshold <= theta && an.sin(theta) == 1.0
    ensures Defined(an, a, b)
    ensures forall k :: 0 <= k < |a.data| ==>
              Slerp(an, a, b, ratio).data[k] == an.sin(ratio * theta) * b.data[k]
  {
    WeightsUnitSine(an, theta, ratio);
    var w := Weights(an, theta, ratio);
    var c := Slerp(an, a, b, ratio);
    assert c.data == Combine(w.0, a.data, w.1, b.data);
    forall k | 0 <= k < |a.data|
      ensures c.data[k] == an.sin(ratio * theta) * b.data[k]
    {
      assert c.data[k] == w.0 * a.data[k] + w.1 * b.data[k];
      assert a.data[k] == 0.0;
    }
  }

  /** From the zero tensor the cosine is 0, so theta = acos(0) = pi/2 and the
      general path applies: each element is sin(ratio acos(0)) = sin(ratio pi/2)
      times the element of `b` (about 0.707 b at ratio 1/2), not the linear
      average. */
  lemma SlerpFromZero(an: Analysis, a: Tensor, b: Tensor, ratio: real)
    requires an.Valid() && a.Valid() && b.Valid() && a.shape == b.shape
    requires forall k :: 0 <= k < |a.data| ==> a.data[k] == 0.0
    requires an.acos(0.0) == an.pi / 2.0 && an.sin(an.pi / 2.0) == 1.0
    requires an.pi / 2.0 >= ParallelThreshold
    ensures Theta(an, a.data, b.data) == an.pi / 2.0
    ensures Defined(an, a, b)
    ensures forall k :: 0 <= k < |a.data| ==>
              Slerp(an, a, b, ratio).data[k] == an.sin(ratio * an.acos(0.0)) * b.data[k]
  {
    ThetaFromZero(an, a.data, b.data);
    SlerpFromZeroAt(an, a, b, ratio, an.acos(0.0));
  }
}
