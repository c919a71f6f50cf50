/** Dense real-valued tensors: a shape and the row-major flat sequence of
    elements (what `view(-1)` exposes), with the elementwise operations,
    dot product, batch indexing and broadcasting the interpolation nodes use. */
module Tensors {

  /** Number of elements of a tensor of the given shape (1 for a scalar). */
  function Numel(shape: seq<nat>): nat
  {
    if |shape| == 0 then 1 else shape[0] * Numel(shape[1..])
  }

  datatype Tensor = Tensor(shape: seq<nat>, data: seq<real>) {
    /** The flat data holds exactly one element per index of the shape. */
    predicate Valid() {
      |data| == Numel(shape)
    }
  }

  /** Row-major flat offset of index `b` inside block `a` of blocks of size `nb`. */
  function Idx(a: nat, b: nat, nb: nat): nat
  {
    a * nb + b
  }

  /** Flat offset of element (n, c, y, x) of a [N, C, H, W] tensor. */
  function Idx4(n: nat, c: nat, y: nat, x: nat, C: nat, H: nat, W: nat): nat
  {
    Idx(Idx(Idx(n, c, C), y, H), x, W)
  }

  /** Elementwise `x * u + y * v` of two equally long vectors. */
  function Combine(x: real, u: seq<real>, y: real, v: seq<real>): (w: seq<real>)
    requires |u| == |v|
    ensures |w| == |u|
    ensures forall k :: 0 <= k < |w| ==> w[k] == x * u[k] + y * v[k]
  {
    seq(|u|, k requires 0 <= k < |u| => x * u[k] + y * v[k])
  }

  /** Euclidean inner product of two equally long vectors (`torch.dot`). */
  function Dot(u: seq<real>, v: seq<real>): real
    requires |u| == |v|
  {
    if |u| == 0 then 0.0 else u[0] * v[0] + Dot(u[1..], v[1..])
  }

  lemma {:induction false} DotSymmetric(u: seq<real>, v: seq<real>)
    requires |u| == |v|
    ensures Dot(u, v) == Dot(v, u)
  {
    if |u| > 0 {
      DotSymmetric(u[1..], v[1..]);
    }
  }

  /** The zero vector is orthogonal to every vector. */
  lemma {:induction false} DotZeroLeft(u: seq<real>, v: seq<real>)
    requires |u| == |v|
    requires forall k :: 0 <= k < |u| ==> u[k] == 0.0
    ensures Dot(u, v) == 0.0
  {
    if |u| > 0 {
      DotZeroLeft(u[1..], v[1..]);
    }
  }

  /* ---------- integer layout arithmetic ---------- */

  lemma MulLeMul(a: int, b: int, c: nat)
    requires a <= b
    ensures a * c <= b * c
  {
  }

  lemma MulZero(m: int, d: int)
    requires d > 0 && -d < m * d < d
    ensures m == 0
  {
    if m > 0 {
      MulLeMul(1, m, d);
    } else if m < 0 {
      MulLeMul(m, -1, d);
    }
  }

  lemma DivModOf(q: nat, d: nat, j: nat)
    requires j < d
    ensures (q * d + j) / d == q
    ensures (q * d + j) % d == j
  {
    var k := q * d + j;
    var q2, r2 := k / d, k % d;
    assert k == q2 * d + r2;
    assert (q - q2) * d == r2 - j;
    MulZero(q - q2, d);
  }

  lemma DivLt(k: nat, a: nat, b: nat)
    requires k < a * b
    ensures b > 0 && k / b < a
  {
    var q := k / b;
    assert q * b <= k;
    if q >= a {
      MulLeMul(a, q, b);
    }
  }

  lemma Numel4(shape: seq<nat>)
    requires |shape| == 4
    ensures Numel(shape) == shape[0] * shape[1] * (shape[2] * shape[3])
  {
    assert Numel(shape[3..]) == shape[3];
    assert Numel(shape[2..]) == shape[2] * shape[3];
    assert Numel(shape[1..]) == shape[1] * (shape[2] * shape[3]);
  }

  /** Inserting a size-1 axis after the first leaves the element count alone. */
  lemma NumelInsertUnit(shape: seq<nat>)
    requires |shape| >= 1
    ensures Numel([shape[0], 1] + shape[1..]) == Numel(shape)
  {
    NumelInsertUnitAfter(shape[0], shape[1..]);
    assert shape == [shape[0]] + shape[1..];
  }

  lemma NumelInsertUnitAfter(d: nat, rest: seq<nat>)
    ensures Numel([d, 1] + rest) == Numel([d] + rest)
  {
    assert [d, 1] + rest == [d] + ([1] + rest);
    NumelCons(1, rest);
    NumelSameTail(d, [1] + rest, rest);
  }

  lemma NumelSameTail(d: nat, r1: seq<nat>, r2: seq<nat>)
    requires Numel(r1) == Numel(r2)
    ensures Numel([d] + r1) == Numel([d] + r2)
  {
    NumelCons(d, r1);
    NumelCons(d, r2);
  }

  lemma NumelCons(d: nat, rest: seq<nat>)
    ensures Numel([d] + rest) == d * Numel(rest)
  {
    assert ([d] + rest)[1..] == rest;
  }

  /** Offsets of a rank-4 index regrouped as (outer block, inner plane). */
  lemma Idx4AsPlane(n: nat, c: nat, y: nat, x: nat, C: nat, H: nat, W: nat)
    ensures Idx4(n, c, y, x, C, H, W) == Idx(Idx(n, c, C), Idx(y, x, W), H * W)
  {
    calc {
      Idx4(n, c, y, x, C, H, W);
      ((n * C + c) * H + y) * W + x;
      { assert ((n * C + c) * H + y) * W == (n * C + c) * (H * W) + y * W; }
      (n * C + c) * (H * W) + (y * W + x);
    }
  }

  lemma IdxInRange(a: nat, b: nat, na: nat, nb: nat)
    requires a < na && b < nb
    ensures Idx(a, b, nb) < na * nb
  {
    MulLeMul(a + 1, na, nb);
  }

  /* ---------- broadcasting ---------- */

  /** Source offset, in an [outer, 1, inner] layout, of offset `k` of the
      [outer, n, inner] layout obtained by repeating the middle axis. */
  function SpreadSource(k: nat, outer: nat, n: nat, inner: nat): (j: nat)
    requires k < outer * n * inner
    ensures j < outer * inner
  {
    var q := k / (n * inner);
    DivLt(k, outer, n * inner);
    IdxInRange(q, k % inner, outer, inner);
    Idx(q, k % inner, inner)
  }

  /** Repeats each of the `outer` blocks of length `inner` exactly `n` times:
      the broadcast of a size-1 axis to size `n` (`expand`). */
  function Spread(data: seq<real>, outer: nat, n: nat, inner: nat): (r: seq<real>)
    requires |data| == outer * inner
    ensures |r| == outer * n * inner
    ensures forall k :: 0 <= k < |r| ==> r[k] in data
  {
    seq(outer * n * inner, k requires 0 <= k < outer * n * inner => data[SpreadSource(k, outer, n, inner)])
  }

  lemma SpreadIndex(data: seq<real>, outer: nat, n: nat, inner: nat, k: nat)
    requires |data| == outer * inner
    requires k < outer * n * inner
    ensures Spread(data, outer, n, inner)[k] == data[SpreadSource(k, outer, n, inner)]
  {
  }

  /** Element (o, x, j) of the spread layout is element (o, j) of the source,
      whatever the repeated index x. */
  lemma SpreadAt(data: seq<real>, outer: nat, n: nat, inner: nat, o: nat, x: nat, j: nat)
    requires |data| == outer * inner
    requires o < outer && x < n && j < inner
    ensures Idx(Idx(o, x, n), j, inner) < outer * n * inner
    ensures Idx(o, j, inner) < outer * inner
    ensures Spread(data, outer, n, inner)[Idx(Idx(o, x, n), j, inner)] == data[Idx(o, j, inner)]
  {
    IdxInRange(o, j, outer, inner);
    SpreadCoordinate(outer, n, inner, o, x, j);
    SpreadIndex(data, outer, n, inner, Idx(Idx(o, x, n), j, inner));
  }

  lemma SpreadCoordinate(outer: nat, n: nat, inner: nat, o: nat, x: nat, j: nat)
    requires o < outer && x < n && j < inner
    ensures Idx(Idx(o, x, n), j, inner) < outer * n * inner
    ensures SpreadSource(Idx(Idx(o, x, n), j, inner), outer, n, inner) == Idx(o, j, inner)
  {
    var k := Idx(Idx(o, x, n), j, inner);
    IdxInRange(o, x, outer, n);
    IdxInRange(Idx(o, x, n), j, outer * n, inner);
    assert k == o * (n * inner) + (x * inner + j) by {
      assert (o * n + x) * inner == o * (n * inner) + x * inner;
    }
    IdxInRange(x, j, n, inner);
    DivModOf(o, n * inner, x * inner + j);
    DivModOf(o * n + x, inner, j);
  }

  /* ---------- batch indexing ---------- */

  /** Number of elements in one batch item of `t`. */
  function ItemSize(t: Tensor): nat
    requires |t.shape| >= 1
  {
    Numel(t.shape[1..])
  }

  /** Batch item `i` of `t` (`samples[i]`): drops the leading axis. */
  function Item(t: Tensor, i: nat): (r: Tensor)
    requires t.Valid() && |t.shape| >= 1 && i < t.shape[0]
    ensures r.Valid() && r.shape == t.shape[1..]
  {
    var size := ItemSize(t);
    MulLeMul(i + 1, t.shape[0], size);
    Tensor(t.shape[1..], t.data[i * size .. (i + 1) * size])
  }

  /** Adds a leading batch axis of size 1 (`unsqueeze(0)`). */
  function Unsqueeze(t: Tensor): (r: Tensor)
    requires t.Valid()
    ensures r.Valid() && r.shape == [1] + t.shape && r.data == t.data
  {
    assert ([1] + t.shape)[1..] == t.shape;
    Tensor([1] + t.shape, t.data)
  }

  /** Taking the only item of an unsqueezed tensor gives the tensor back. */
  lemma ItemOfUnsqueeze(t: Tensor)
    requires t.Valid()
    ensures Item(Unsqueeze(t), 0) == t
  {
    assert ([1] + t.shape)[1..] == t.shape;
  }

  /** A batch of one is the unsqueezed form of its only item. */
  lemma UnsqueezeOfItem(t: Tensor)
    requires t.Valid() && |t.shape| >= 1 && t.shape[0] == 1
    ensures Unsqueeze(Item(t, 0)) == t
  {
    assert [1] + t.shape[1..] == t.shape;
  }
}
