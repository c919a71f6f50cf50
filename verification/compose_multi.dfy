/** The sequence node `LatentInterpolateMuti`: a global ratio in [0, 1] walks
    along the batch axis, and the two neighbouring batch items around that
    position are slerped at the local ratio. */
module ComposeMulti {
  import opened Tensors
  import opened Latent
  import opened SlerpPrimitive
  import Compose

  /** A point on the batch axis: the lower neighbour `lower` (i) and the
      local ratio `local` (t) between it and the next item. */
  datatype Position = Position(lower: int, local: real)

  function Min(a: int, b: int): int
  {
    if a <= b then a else b
  }

  /** `s = (B - 1) * ratio; i = min(floor(s), B - 2); t = s - i` for a batch of
      `count` items. */
  function Locate(count: nat, ratio: real): (p: Position)
    requires count >= 2
    ensures p.lower <= count - 2
    ensures p.lower as real + p.local == (count - 1) as real * ratio
    ensures 0.0 <= ratio <= 1.0 ==> 0 <= p.lower && 0.0 <= p.local <= 1.0
    ensures 0.0 <= ratio <= 1.0 ==> (p.local == 1.0 <==> ratio == 1.0)
    ensures ratio == 0.0 ==> p == Position(0, 0.0)
    ensures ratio == 1.0 ==> p == Position(count - 2, 1.0)
  {
    PositionAt(count, Scaled(count, ratio))
  }

  /** The global coordinate `(B - 1) * ratio` on the batch axis. */
  function Scaled(count: nat, ratio: real): real
    requires count >= 2
  {
    (count - 1) as real * ratio
  }

  /** The position of the scaled coordinate `s` on the batch axis. */
  function PositionAt(count: nat, s: real): (p: Position)
    requires count >= 2
    ensures p.lower <= count - 2 && p.lower as real + p.local == s
  {
    var i := Min(s.Floor, count - 2);
    Position(i, s - i as real)
  }

  /** As the ratio grows the lower neighbour never moves back, and within one
      segment the local ratio never decreases. */
  lemma LocateMonotone(count: nat, r1: real, r2: real)
    requires count >= 2 && r1 <= r2
    ensures Locate(count, r1).lower <= Locate(count, r2).lower
    ensures Locate(count, r1).lower == Locate(count, r2).lower ==> Locate(count, r1).local <= Locate(count, r2).local
  {
    ScaledMonotone(count, r1, r2);
    PositionAtMonotone(count, Scaled(count, r1), Scaled(count, r2));
  }

  lemma PositionAtMonotone(count: nat, s1: real, s2: real)
    requires count >= 2 && s1 <= s2
    ensures PositionAt(count, s1).lower <= PositionAt(count, s2).lower
    ensures PositionAt(count, s1).lower == PositionAt(count, s2).lower ==>
              PositionAt(count, s1).local <= PositionAt(count, s2).local
  {
    FloorMonotone(s1, s2);
  }

  lemma ScaledMonotone(count: nat, r1: real, r2: real)
    requires count >= 2 && r1 <= r2
    ensures Scaled(count, r1) <= Scaled(count, r2)
  {
    var c := (count - 1) as real;
    assert c * r2 - c * r1 == c * (r2 - r1);
  }

  lemma FloorMonotone(x: real, y: real)
    requires x <= y
    ensures x.Floor <= y.Floor
  {
  }

  /** Below the declared range the lower index is negative. Python reads a
      negative index from the end of the batch only while it is at least
      -B, that is while (B - 1) * ratio >= -B; below that, `samples[i]`
      raises an IndexError. The upper neighbour i + 1 is at most 0 and so
      always readable. */
  lemma NegativeRatioGivesNegativeIndex(count: nat, ratio: real)
    requires count >= 2 && ratio < 0.0
    ensures Locate(count, ratio).lower < 0
    ensures Locate(count, ratio).lower >= -(count as int) <==> (count - 1) as real * ratio >= -(count as real)
  {
    var c := (count - 1) as real;
    assert c * ratio == -(c * -ratio);
    assert c * -ratio > 0.0;
    assert Scaled(count, ratio) < 0.0;
    assert Locate(count, ratio).lower == Scaled(count, ratio).Floor;
  }

  /** Above the declared range the lower index stays at B - 2 and the local
      ratio exceeds 1: the step extrapolates beyond the last item rather than
      wrapping. */
  lemma AboveOneStaysInRange(count: nat, ratio: real)
    requires count >= 2 && ratio > 1.0
    ensures Locate(count, ratio).lower == count - 2
    ensures Locate(count, ratio).local > 1.0
  {
    ScaledAboveLast(count, ratio);
    assert Scaled(count, ratio).Floor >= count - 1;
  }

  lemma ScaledAboveLast(count: nat, ratio: real)
    requires count >= 2 && ratio > 1.0
    ensures Scaled(count, ratio) > (count - 1) as real
  {
    var c := (count - 1) as real;
    assert c * ratio - c == c * (ratio - 1.0);
    assert c * (ratio - 1.0) > 0.0;
  }

  /** The batched sample tensor of a bundle. */
  function Batch(latents: Bundle): Tensor
    requires Samples in latents
  {
    latents[Samples]
  }

  /** What the node needs of its input: a batched sample tensor with at
      least one item, a ratio in the declared range [0, 1], and, when there
      are two or more items, a defined slerp between the selected pair. */
  predicate Admissible(an: Analysis, latents: Bundle, ratio: real)
    requires an.Valid()
  {
    && HasSamples(latents)
    && |Batch(latents).shape| >= 1 && Batch(latents).shape[0] >= 1
    && 0.0 <= ratio <= 1.0
    && (Batch(latents).shape[0] >= 2 ==>
          var p := Locate(Batch(latents).shape[0], ratio);
          Defined(an, Item(Batch(latents), p.lower as nat), Item(Batch(latents), p.lower as nat + 1)))
  }

  /** `interpolate_latents`: a batch of one is returned as it is; otherwise
      the pair around the position of `ratio` is slerped and the result gets
      a batch axis of size 1. */
  function InterpolateSequence(an: Analysis, latents: Bundle, ratio: real): (out: Bundle)
    requires an.Valid() && Admissible(an, latents, ratio)
    ensures Batch(latents).shape[0] == 1 ==> out == latents
    ensures Batch(latents).shape[0] >= 2 ==>
              && out.Keys == {Samples}
              && out[Samples].Valid()
              && out[Samples].shape == [1] + Batch(latents).shape[1..]
    ensures Batch(latents).shape[0] >= 2 && ratio == 0.0 ==>
              out[Samples] == Unsqueeze(Item(Batch(latents), 0))
    ensures Batch(latents).shape[0] >= 2 && ratio == 1.0 ==>
              out[Samples] == Unsqueeze(Item(Batch(latents), Batch(latents).shape[0] - 1))
  {
    var x := Batch(latents);
    var count := x.shape[0];
    if count == 1 then
      latents
    else
      var p := Locate(count, ratio);
      var first, second := Item(x, p.lower as nat), Item(x, p.lower as nat + 1);
      SlerpAtZero(an, first, second);
      SlerpAtOne(an, first, second);
      Wrap(Unsqueeze(Slerp(an, first, second, p.local)))
  }

  /** Each step of the sequence is the pairwise node applied to the two
      selected items at the local ratio, given a batch axis of size 1. */
  lemma SequenceStepIsPairwise(an: Analysis, latents: Bundle, ratio: real)
    requires an.Valid() && Admissible(an, latents, ratio)
    requires Batch(latents).shape[0] >= 2
    ensures var x := Batch(latents);
            var p := Locate(x.shape[0], ratio);
            var pair1, pair2 := Wrap(Item(x, p.lower as nat)), Wrap(Item(x, p.lower as nat + 1));
            && Compose.Admissible(an, pair1, pair2)
            && InterpolateSequence(an, latents, ratio)[Samples]
               == Unsqueeze(Compose.Interpolate(an, pair1, pair2, p.local)[Samples])
  {
  }
}
