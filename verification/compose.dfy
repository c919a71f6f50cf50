/** The pairwise node `LatentInterpolate`: slerp between the samples of two
    latent bundles. */
module Compose {
  import opened Latent
  import opened SlerpPrimitive

  /** What the node needs of its inputs: both bundles carry samples of the
      same shape (the code never checks this) and the slerp is defined. */
  predicate Admissible(an: Analysis, latent1: Bundle, latent2: Bundle)
    requires an.Valid()
  {
    && HasSamples(latent1) && HasSamples(latent2)
    && latent1[Samples].shape == latent2[Samples].shape
    && Defined(an, latent1[Samples], latent2[Samples])
  }

  /** `interpolate_latents`: the slerp of the two sample tensors at `ratio`,
      wrapped as a fresh bundle. */
  function Interpolate(an: Analysis, latent1: Bundle, latent2: Bundle, ratio: real): (out: Bundle)
    requires an.Valid() && Admissible(an, latent1, latent2)
    ensures out.Keys == {Samples}
    ensures out[Samples].Valid() && out[Samples].shape == latent1[Samples].shape
    ensures ratio == 0.0 ==> out[Samples] == latent1[Samples]
    ensures ratio == 1.0 ==> out[Samples] == latent2[Samples]
  {
    var a, b := latent1[Samples], latent2[Samples];
    SlerpAtZero(an, a, b);
    SlerpAtOne(an, a, b);
    Wrap(Slerp(an, a, b, ratio))
  }

  /** Exchanging the two inputs and complementing the ratio gives the same
      output bundle. */
  lemma InterpolateSwap(an: Analysis, latent1: Bundle, latent2: Bundle, ratio: real)
    requires an.Valid() && Admissible(an, latent1, latent2)
    ensures Admissible(an, latent2, latent1)
    ensures Interpolate(an, latent2, latent1, 1.0 - ratio) == Interpolate(an, latent1, latent2, ratio)
  {
    SlerpSymmetric(an, latent1[Samples], latent2[Samples], ratio);
  }
}
