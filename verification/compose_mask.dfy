/** The masked pairwise node `LatentInterpolateMask`: the global slerp of the
    two sample tensors, blended back onto the first latent through an
    optional spatial mask. */
module ComposeMask {
  import opened Results
  import opened Tensors
  import opened Latent
  import opened SlerpPrimitive
  import Compose

  /** The `ValueError` raised for a mask that is neither [batch, height, width]
      nor [batch, 1, height, width]. */
  datatype MaskError = InvalidMaskShape

  /** Bilinear resampling of a [batch, channel, height, width] tensor to a new
      spatial size (`torch.nn.functional.interpolate`, bilinear, corners not
      aligned), left abstract. */
  type Resampler = (Tensor, nat, nat) -> Tensor

  /** All the model assumes of the resampler: it keeps batch and channel
      sizes and produces exactly the requested height and width. */
  ghost predicate ValidResampler(resize: Resampler)
  {
    forall m: Tensor, h: nat, w: nat ::
      m.Valid() && |m.shape| == 4 ==>
        resize(m, h, w).Valid() && resize(m, h, w).shape == [m.shape[0], m.shape[1], h, w]
  }

  /** The two mask layouts the node accepts. */
  predicate AcceptedMaskShape(m: Tensor)
  {
    |m.shape| == 3 || (|m.shape| == 4 && m.shape[1] == 1)
  }

  /** A mask in the normalised [batch, 1, height, width] layout. */
  predicate Normalized(m: Tensor)
  {
    m.Valid() && |m.shape| == 4 && m.shape[1] == 1
  }

  /** Height and width of an accepted mask (its last two axes). */
  function MaskHeight(m: Tensor): nat
    requires AcceptedMaskShape(m)
  {
    m.shape[|m.shape| - 2]
  }

  function MaskWidth(m: Tensor): nat
    requires AcceptedMaskShape(m)
  {
    m.shape[|m.shape| - 1]
  }

  /** Rank check: a rank-3 mask gains a channel axis of size 1, a rank-4 mask
      with one channel is kept, and any other layout is refused. */
  function NormalizeMask(m: Tensor): (r: Result<Tensor, MaskError>)
    requires m.Valid()
    ensures r.Ok? <==> AcceptedMaskShape(m)
    ensures r.Err? ==> r.error == InvalidMaskShape
    ensures r.Ok? ==> && Normalized(r.value)
                      && r.value.shape[0] == m.shape[0]
                      && r.value.shape[2] == MaskHeight(m)
                      && r.value.shape[3] == MaskWidth(m)
                      && r.value.data == m.data
    ensures |m.shape| == 4 && m.shape[1] == 1 ==> r == Ok(m)
  {
    if |m.shape| == 3 then
      NumelInsertUnit(m.shape);
      assert [m.shape[0], 1, m.shape[1], m.shape[2]] == [m.shape[0], 1] + m.shape[1..];
      Ok(Tensor([m.shape[0], 1, m.shape[1], m.shape[2]], m.data))
    else if |m.shape| == 4 && m.shape[1] == 1 then
      Ok(m)
    else
      Err(InvalidMaskShape)
  }

  /** Resizes the mask to the latent's spatial size, only when it differs. */
  function FitMask(m: Tensor, height: nat, width: nat, resize: Resampler): (r: Tensor)
    requires Normalized(m) && ValidResampler(resize)
    ensures Normalized(r)
    ensures r.shape == [m.shape[0], 1, height, width]
    ensures m.shape[2] == height && m.shape[3] == width ==> r == m
    ensures m.shape[2] != height || m.shape[3] != width ==> r == resize(m, height, width)
  {
    if m.shape[2] != height || m.shape[3] != width then
      resize(m, height, width)
    else
      m
  }

  /** Fitting is idempotent: a mask fitted once is already at the requested
      size, so fitting it again changes nothing and calls no resampler. */
  lemma FitMaskIdempotent(m: Tensor, height: nat, width: nat, resize: Resampler)
    requires Normalized(m) && ValidResampler(resize)
    ensures var once := FitMask(m, height, width, resize);
            FitMask(once, height, width, resize) == once
  {
    var once := FitMask(m, height, width, resize);
    assert once.shape[2] == height && once.shape[3] == width;
  }

  /** `expand(-1, C, -1, -1)`: the single mask channel repeated `channels` times. */
  function ExpandMask(m: Tensor, channels: nat): (r: Tensor)
    requires Normalized(m)
    ensures r.Valid() && r.shape == [m.shape[0], channels, m.shape[2], m.shape[3]]
    ensures forall k :: 0 <= k < |r.data| ==> r.data[k] in m.data
  {
    var b, h, w := m.shape[0], m.shape[2], m.shape[3];
    Numel4(m.shape);
    Numel4([b, channels, h, w]);
    Tensor([b, channels, h, w], Spread(m.data, b, channels, h * w))
  }

  /** Every channel of the expanded mask at (n, y, x) holds the mask's value
      at (n, 0, y, x). */
  lemma ExpandMaskCopiesChannel(m: Tensor, channels: nat)
    requires Normalized(m)
    ensures var r := ExpandMask(m, channels);
            forall n, c, y, x :: 0 <= n < m.shape[0] && 0 <= c < channels && 0 <= y < m.shape[2] && 0 <= x < m.shape[3] ==>
              && Idx4(n, c, y, x, channels, m.shape[2], m.shape[3]) < |r.data|
              && Idx4(n, 0, y, x, 1, m.shape[2], m.shape[3]) < |m.data|
              && r.data[Idx4(n, c, y, x, channels, m.shape[2], m.shape[3])]
                 == m.data[Idx4(n, 0, y, x, 1, m.shape[2], m.shape[3])]
  {
    var b, h, w := m.shape[0], m.shape[2], m.shape[3];
    var r := ExpandMask(m, channels);
    Numel4(m.shape);
    Numel4([b, channels, h, w]);
    assert r.data == Spread(m.data, b, channels, h * w);
    forall n, c, y, x | 0 <= n < b && 0 <= c < channels && 0 <= y < h && 0 <= x < w
      ensures && Idx4(n, c, y, x, channels, h, w) < |r.data|
              && Idx4(n, 0, y, x, 1, h, w) < |m.data|
              && r.data[Idx4(n, c, y, x, channels, h, w)] == m.data[Idx4(n, 0, y, x, 1, h, w)]
    {
      ExpandAt(m.data, b, channels, h, w, n, c, y, x);
    }
  }

  lemma ExpandAt(data: seq<real>, b: nat, channels: nat, h: nat, w: nat, n: nat, c: nat, y: nat, x: nat)
    requires |data| == b * (h * w)
    requires n < b && c < channels && y < h && x < w
    ensures Idx4(n, c, y, x, channels, h, w) < b * channels * (h * w)
    ensures Idx4(n, 0, y, x, 1, h, w) < |data|
    ensures Spread(data, b, channels, h * w)[Idx4(n, c, y, x, channels, h, w)] == data[Idx4(n, 0, y, x, 1, h, w)]
  {
    Idx4AsPlane(n, c, y, x, channels, h, w);
    Idx4AsPlane(n, 0, y, x, 1, h, w);
    IdxInRange(y, x, h, w);
    assert Idx(n, 0, 1) == n;
    SpreadAt(data, b, channels, h * w, n, c, Idx(y, x, w));
  }

  /** Broadcast of the mask's batch axis against a latent batch of `count`:
      an equal batch is used as it is, a batch of one is repeated. */
  function MatchBatch(e: Tensor, count: nat): (r: Tensor)
    requires e.Valid() && |e.shape| >= 1 && (e.shape[0] == count || e.shape[0] == 1)
    ensures r.Valid() && r.shape == e.shape[0 := count]
    ensures forall k :: 0 <= k < |r.data| ==> r.data[k] in e.data
    ensures e.shape[0] == count ==> r == e
  {
    if e.shape[0] == count then
      e
    else
      assert e.shape[0 := count][1..] == e.shape[1..];
      Tensor(e.shape[0 := count], Spread(e.data, 1, count, ItemSize(e)))
  }

  /** A mask batch of one is repeated: every batch item of the result is the
      mask's only item. */
  lemma MatchBatchRepeats(e: Tensor, count: nat)
    requires e.Valid() && |e.shape| >= 1 && e.shape[0] == 1
    ensures var r := MatchBatch(e, count);
            forall n, j :: 0 <= n < count && 0 <= j < ItemSize(e) ==>
              Idx(n, j, ItemSize(e)) < |r.data| && r.data[Idx(n, j, ItemSize(e))] == e.data[j]
  {
    var r := MatchBatch(e, count);
    var inner := ItemSize(e);
    forall n, j | 0 <= n < count && 0 <= j < inner
      ensures Idx(n, j, inner) < |r.data| && r.data[Idx(n, j, inner)] == e.data[j]
    {
      if count == 1 {
        IdxInRange(n, j, 1, inner);
        assert Idx(n, j, inner) == j;
      } else {
        assert r.data == Spread(e.data, 1, count, inner);
        SpreadAt(e.data, 1, count, inner, 0, n, j);
        assert Idx(0, n, count) == n;
        assert Idx(0, j, inner) == j;
      }
    }
  }

  /** `latent1 * (1 - mask) + global * mask`, elementwise over equal shapes:
      mask 0 keeps the first latent, mask 1 takes the global slerp, and a mask
      value in [0, 1] gives a value between the two. */
  function Blend(base: Tensor, global: Tensor, m: Tensor): (out: Tensor)
    requires base.Valid() && global.shape == base.shape && global.Valid()
    requires m.shape == base.shape && m.Valid()
    ensures out.Valid() && out.shape == base.shape
    ensures forall k :: 0 <= k < |out.data| && m.data[k] == 0.0 ==> out.data[k] == base.data[k]
    ensures forall k :: 0 <= k < |out.data| && m.data[k] == 1.0 ==> out.data[k] == global.data[k]
    ensures forall k :: 0 <= k < |out.data| && 0.0 <= m.data[k] <= 1.0 ==>
              Between(out.data[k], base.data[k], global.data[k])
  {
    var data := seq(|base.data|, k requires 0 <= k < |base.data| =>
                      base.data[k] * (1.0 - m.data[k]) + global.data[k] * m.data[k]);
    forall k | 0 <= k < |data| && 0.0 <= m.data[k] <= 1.0
      ensures Between(data[k], base.data[k], global.data[k])
    {
      ConvexBetween(base.data[k], global.data[k], m.data[k]);
    }
    Tensor(base.shape, data)
  }

  /** `v` lies on the closed segment between `lo` and `hi`, in either order. */
  predicate Between(v: real, lo: real, hi: real)
  {
    (lo <= v <= hi) || (hi <= v <= lo)
  }

  lemma ConvexBetween(p: real, q: real, t: real)
    requires 0.0 <= t <= 1.0
    ensures Between(p * (1.0 - t) + q * t, p, q)
  {
    var v := p * (1.0 - t) + q * t;
    assert v == p + t * (q - p);
    if p <= q {
      MulNonNegative(t, q - p);
      MulNonNegative(1.0 - t, q - p);
    } else {
      MulNonNegative(t, p - q);
      MulNonNegative(1.0 - t, p - q);
    }
  }

  lemma MulNonNegative(x: real, y: real)
    requires x >= 0.0 && y >= 0.0
    ensures x * y >= 0.0
  {
  }

  /** What the node needs of a supplied mask: well formed and, once its
      layout is accepted, a rank-4 latent to read channels, height and width
      from and a mask batch that broadcasts against the latent batch. A
      rejected layout raises before the latent's shape is read, so it needs
      nothing of the latent. */
  predicate MaskFits(m: Tensor, latentShape: seq<nat>)
  {
    && m.Valid()
    && (AcceptedMaskShape(m) ==>
          && |latentShape| == 4
          && (m.shape[0] == latentShape[0] || m.shape[0] == 1))
  }

  /** The mask is accepted and already at the latent's spatial resolution. */
  predicate AtResolution(m: Tensor, latentShape: seq<nat>)
  {
    && AcceptedMaskShape(m) && |latentShape| == 4
    && MaskHeight(m) == latentShape[2] && MaskWidth(m) == latentShape[3]
  }

  lemma FourAxes(s: seq<nat>)
    requires |s| == 4
    ensures s == [s[0], s[1], s[2], s[3]]
  {
  }

  /** Rank check, resize, channel expansion and batch broadcast: a mask
      with the latent's full shape, or the `ValueError`. */
  function PrepareMask(m: Tensor, latentShape: seq<nat>, resize: Resampler): (r: Result<Tensor, MaskError>)
    requires MaskFits(m, latentShape) && ValidResampler(resize)
    ensures r.Ok? <==> AcceptedMaskShape(m)
    ensures r.Err? ==> r.error == InvalidMaskShape
    ensures r.Ok? ==> r.value.Valid() && r.value.shape == latentShape
  {
    var normalized :- NormalizeMask(m);
    assert AcceptedMaskShape(m);
    FourAxes(latentShape);
    Ok(Reshape(normalized, latentShape[0], latentShape[1], latentShape[2], latentShape[3], resize))
  }

  /** Resize, channel expansion and batch broadcast of a normalised mask. */
  function Reshape(normalized: Tensor, count: nat, channels: nat, height: nat, width: nat,
                   resize: Resampler): (r: Tensor)
    requires Normalized(normalized) && ValidResampler(resize)
    requires normalized.shape[0] == count || normalized.shape[0] == 1
    ensures r.Valid() && r.shape == [count, channels, height, width]
  {
    var fitted := FitMask(normalized, height, width, resize);
    var expanded := ExpandMask(fitted, channels);
    MatchBatch(expanded, count)
  }

  /** A mask already at the latent's resolution is not resampled, so every
      element of the prepared mask is one of the mask's own values. */
  lemma PreparedValuesFromMask(m: Tensor, latentShape: seq<nat>, resize: Resampler)
    requires MaskFits(m, latentShape) && ValidResampler(resize)
    requires AtResolution(m, latentShape)
    ensures PrepareMask(m, latentShape, resize).Ok?
    ensures var p := PrepareMask(m, latentShape, resize).value;
            forall k :: 0 <= k < |p.data| ==> p.data[k] in m.data
  {
    var normalized := NormalizeMask(m).value;
    var fitted := FitMask(normalized, latentShape[2], latentShape[3], resize);
    assert fitted == normalized;
    var expanded := ExpandMask(fitted, latentShape[1]);
    var matched := MatchBatch(expanded, latentShape[0]);
    assert Reshape(normalized, latentShape[0], latentShape[1], latentShape[2], latentShape[3], resize) == matched;
    assert PrepareMask(m, latentShape, resize) == Ok(matched);
    forall k | 0 <= k < |matched.data|
      ensures matched.data[k] in m.data
    {
      assert matched.data[k] in expanded.data;
      var i :| 0 <= i < |expanded.data| && expanded.data[i] == matched.data[k];
      assert expanded.data[i] in fitted.data;
    }
  }

  /** `interpolate_latents`: the global slerp, blended onto the first latent
      through the prepared mask when one is given. */
  function InterpolateMasked(an: Analysis, resize: Resampler, latent1: Bundle, latent2: Bundle,
                             ratio: real, mask: Option<Tensor>): (r: Result<Bundle, MaskError>)
    requires an.Valid() && ValidResampler(resize)
    requires Compose.Admissible(an, latent1, latent2)
    requires mask.Some? ==> MaskFits(mask.value, latent1[Samples].shape)
    ensures mask.None? ==> r == Ok(Compose.Interpolate(an, latent1, latent2, ratio))
    ensures mask.Some? ==> (r.Ok? <==> AcceptedMaskShape(mask.value))
    ensures r.Err? ==> r.error == InvalidMaskShape
    ensures r.Ok? ==> && r.value.Keys == {Samples}
                      && r.value[Samples].Valid()
                      && r.value[Samples].shape == latent1[Samples].shape
  {
    var global := Slerp(an, latent1[Samples], latent2[Samples], ratio);
    match mask
    case None => Ok(Wrap(global))
    case Some(m) =>
      var prepared :- PrepareMask(m, latent1[Samples].shape, resize);
      Ok(Wrap(Blend(latent1[Samples], global, prepared)))
  }

  /** With an accepted mask the node's output is the blend of the first
      latent and the global slerp through the prepared mask. */
  lemma MaskedIsBlend(an: Analysis, resize: Resampler, latent1: Bundle, latent2: Bundle, ratio: real, m: Tensor)
    requires an.Valid() && ValidResampler(resize)
    requires Compose.Admissible(an, latent1, latent2)
    requires MaskFits(m, latent1[Samples].shape) && AcceptedMaskShape(m)
    ensures PrepareMask(m, latent1[Samples].shape, resize).Ok?
    ensures InterpolateMasked(an, resize, latent1, latent2, ratio, Some(m))
            == Ok(Wrap(Blend(latent1[Samples], Slerp(an, latent1[Samples], latent2[Samples], ratio),
                             PrepareMask(m, latent1[Samples].shape, resize).value)))
  {
    PrepareAccepted(m, latent1[Samples].shape, resize);
  }

  /** An accepted mask that fits the latent always prepares. */
  lemma PrepareAccepted(m: Tensor, latentShape: seq<nat>, resize: Resampler)
    requires ValidResampler(resize)
    requires MaskFits(m, latentShape) && AcceptedMaskShape(m)
    ensures PrepareMask(m, latentShape, resize).Ok?
  {
  }

  /** An all-zero mask at the latent's resolution returns the first latent's
      samples. */
  lemma ZeroMaskKeepsFirst(an: Analysis, resize: Resampler, latent1: Bundle, latent2: Bundle, ratio: real, m: Tensor)
    requires an.Valid() && ValidResampler(resize)
    requires Compose.Admissible(an, latent1, latent2)
    requires MaskFits(m, latent1[Samples].shape) && AtResolution(m, latent1[Samples].shape)
    requires forall k :: 0 <= k < |m.data| ==> m.data[k] == 0.0
    ensures InterpolateMasked(an, resize, latent1, latent2, ratio, Some(m)) == Ok(Wrap(latent1[Samples]))
  {
    var base := latent1[Samples];
    var global := Slerp(an, base, latent2[Samples], ratio);
    PreparedValuesFromMask(m, base.shape, resize);
    MaskedIsBlend(an, resize, latent1, latent2, ratio, m);
    var prepared := PrepareMask(m, base.shape, resize).value;
    var out := Blend(base, global, prepared);
    forall k | 0 <= k < |out.data|
      ensures out.data[k] == base.data[k]
    {
      assert prepared.data[k] in m.data;
    }
    assert out == base;
  }

  /** An all-one mask at the latent's resolution returns exactly what the
      pairwise node returns. */
  lemma OneMaskGivesPairwise(an: Analysis, resize: Resampler, latent1: Bundle, latent2: Bundle, ratio: real, m: Tensor)
    requires an.Valid() && ValidResampler(resize)
    requires Compose.Admissible(an, latent1, latent2)
    requires MaskFits(m, latent1[Samples].shape) && AtResolution(m, latent1[Samples].shape)
    requires forall k :: 0 <= k < |m.data| ==> m.data[k] == 1.0
    ensures InterpolateMasked(an, resize, latent1, latent2, ratio, Some(m))
            == Ok(Compose.Interpolate(an, latent1, latent2, ratio))
  {
    var base := latent1[Samples];
    var global := Slerp(an, base, latent2[Samples], ratio);
    PreparedValuesFromMask(m, base.shape, resize);
    MaskedIsBlend(an, resize, latent1, latent2, ratio, m);
    var prepared := PrepareMask(m, base.shape, resize).value;
    var out := Blend(base, global, prepared);
    forall k | 0 <= k < |out.data|
      ensures out.data[k] == global.data[k]
    {
      assert prepared.data[k] in m.data;
    }
    assert out == global;
  }

  /** With mask values in [0, 1] at the latent's resolution, every output
      element lies between the first latent's element and the global slerp's. */
  lemma MaskedStaysBetween(an: Analysis, resize: Resampler, latent1: Bundle, latent2: Bundle, ratio: real, m: Tensor)
    requires an.Valid() && ValidResampler(resize)
    requires Compose.Admissible(an, latent1, latent2)
    requires MaskFits(m, latent1[Samples].shape) && AtResolution(m, latent1[Samples].shape)
    requires forall k :: 0 <= k < |m.data| ==> 0.0 <= m.data[k] <= 1.0
    ensures var r := InterpolateMasked(an, resize, latent1, latent2, ratio, Some(m));
            var global := Slerp(an, latent1[Samples], latent2[Samples], ratio);
            && r.Ok?
            && forall k :: 0 <= k < |r.value[Samples].data| ==>
                 Between(r.value[Samples].data[k], latent1[Samples].data[k], global.data[k])
  {
    var base := latent1[Samples];
    var global := Slerp(an, base, latent2[Samples], ratio);
    PreparedValuesFromMask(m, base.shape, resize);
    MaskedIsBlend(an, resize, latent1, latent2, ratio, m);
    var prepared := PrepareMask(m, base.shape, resize).value;
    forall k | 0 <= k < |prepared.data|
      ensures 0.0 <= prepared.data[k] <= 1.0
    {
      assert prepared.data[k] in m.data;
    }
    BlendBetween(base, global, prepared);
  }

  lemma BlendBetween(base: Tensor, global: Tensor, m: Tensor)
    requires base.Valid() && global.shape == base.shape && global.Valid()
    requires m.shape == base.shape && m.Valid()
    requires forall k :: 0 <= k < |m.data| ==> 0.0 <= m.data[k] <= 1.0
    ensures forall k :: 0 <= k < |base.data| ==>
              Between(Blend(base, global, m).data[k], base.data[k], global.data[k])
  {
  }
}
