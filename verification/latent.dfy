/** Latent bundles: the name-to-tensor mappings passed between nodes, whose
    primary tensor sits under the `samples` key. */
module Latent {
  import opened Tensors

  /** Key of the primary sample tensor. */
  const Samples: string := "samples"

  /** A latent bundle; other keys (a noise mask, say) are carried as tensors. */
  type Bundle = map<string, Tensor>

  /** The bundle holds a well-formed primary sample tensor. */
  predicate HasSamples(l: Bundle)
  {
    Samples in l && l[Samples].Valid()
  }

  /** A fresh bundle holding only the given samples (`{"samples": t}`). */
  function Wrap(t: Tensor): (l: Bundle)
    ensures l.Keys == {Samples}
    ensures Samples in l && l[Samples] == t
  {
    map[Samples := t]
  }
}
