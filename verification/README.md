# Latent interpolation nodes: a Dafny model

This project models the computational core of three ComfyUI latent
interpolation nodes:

- `LatentInterpolate` slerps between the sample tensors of two latents.
- `LatentInterpolateMask` computes the same global slerp. When a mask is
  given, it normalises the mask to `[batch, 1, height, width]`, resizes it to
  the latent's spatial size when that differs, expands it over the channels,
  and blends `latent1 * (1 - mask) + global * mask`.
- `LatentInterpolateMuti` walks a global ratio along the batch axis of one
  latent. It picks the neighbouring pair `i`, `i + 1` with the local ratio `t`
  (`s = (B - 1) * ratio`, `i = min(floor(s), B - 2)`, `t = s - i`), slerps
  that pair, and returns the result with a batch axis of size 1.

## How the model is built

- A tensor is a shape (`seq<nat>`) plus its row-major flat data (`seq<real>`);
  `view(-1)` is the flat data itself.
- A latent is a map from names to tensors whose primary tensor sits under
  `"samples"`.
- The Euclidean norm, arc-cosine, sine and pi stay abstract, as fields of an
  `Analysis` record. The model assumes only three facts about them:
  - the norm is non-negative;
  - acos maps [-1, 1] into [0, pi];
  - sin(0) = 0.
- Bilinear resampling is an abstract `Resampler`. It is assumed only to keep
  the batch and channel sizes and to return the requested height and width.
- The general slerp path divides by sin(theta). The model requires the slerp
  to be `Defined`: on the near-parallel path, or with sin(theta) not 0. This
  precondition comes from the abstraction, not from a hole in the code. With
  the real Euclidean norm, Cauchy-Schwarz gives |u . v| <= |u| |v|, which is
  strictly less than (|u| + 1e-8)(|v| + 1e-8). So the padded cosine stays
  strictly inside (-1, 1) and theta never reaches pi. The abstract norm has no
  Cauchy-Schwarz fact, so the model must exclude that case explicitly. In
  float32 a cosine of -1 can arise by rounding, but there sin(theta) of the
  rounded pi is not 0.
- Modules:
  - `Tensors`: shapes, flat indexing, dot product, broadcasting.
  - `SlerpPrimitive`: the shared slerp.
  - `Latent`: bundles.
  - `Compose`: the pairwise node.
  - `ComposeMulti`: the sequence node.
  - `ComposeMask`: the masked node.
  - `Results`: `Option` and `Result`.

The two inline copies of the slerp (LantentCompose.py:31-57 and
LantentComposeMuti.py:44-66) do the same steps as `LatentInterpolateMask.slerp`.
They are modelled by the single `SlerpPrimitive.Slerp`.

## Model

| member | source | states |
|---|---|---|
| SlerpPrimitive.Clamp | LantentComposeMask.py:30 | The clamped cosine lies in [-1, 1]. It is the cosine itself when already inside, and otherwise the nearer bound. |
| SlerpPrimitive.Theta | LantentComposeMask.py:27-31 | theta = acos(clamped cosine of the epsilon-padded norms) lies in [0, pi], so `abs(theta)` is theta itself. |
| SlerpPrimitive.Slerp | LantentComposeMask.py:21-39 | The slerp of two equal-shaped tensors is a well-formed tensor with the shape of the first input. |
| SlerpPrimitive.NearParallelIsLinear | LantentComposeMask.py:32-34 | When `abs(theta) < 1e-6`, every element of the result is `(1 - r) * a + r * b`. |
| SlerpPrimitive.WeightsAtZero | LantentComposeMask.py:32-38 | At ratio 0 the two blend factors are (1, 0) on both paths, using sin(0) = 0 and sin(theta) / sin(theta) = 1. |
| SlerpPrimitive.WeightsAtOne | LantentComposeMask.py:32-38 | At ratio 1 the two blend factors are (0, 1) on both paths. |
| SlerpPrimitive.WeightsSwap | LantentComposeMask.py:32-38 | Replacing r by 1 - r exchanges factor1 and factor2. |
| SlerpPrimitive.SlerpAtZero | LantentCompose.py:25-57 | Ratio 0 returns the first tensor exactly, as the node's doc comment promises, on either path. |
| SlerpPrimitive.SlerpAtOne | LantentCompose.py:25-57 | Ratio 1 returns the second tensor exactly, on either path. |
| SlerpPrimitive.ThetaSymmetric | LantentComposeMask.py:25-31 | The angle does not depend on the order of the two flattened tensors (the dot product is symmetric). |
| SlerpPrimitive.DefinedSymmetric | LantentComposeMask.py:32-36 | Taking the linear path, and being defined at all, do not depend on the order of the inputs. |
| SlerpPrimitive.SlerpSymmetric | LantentCompose.py:43-57 | Swapping the two tensors and replacing r by 1 - r gives the same tensor. |
| SlerpPrimitive.AntiParallelUndefined | LantentComposeMask.py:29-38 | If the clamped cosine is -1 (possible in the model only because the abstract norm has no Cauchy-Schwarz fact), theta = acos(-1) = pi. With sin(pi) = 0 the general path would divide by zero, so the slerp is not defined there. |
| SlerpPrimitive.SlerpFromZero | LantentComposeMask.py:27-39 | From an all-zero first tensor the cosine is 0 and theta = acos(0) = pi/2. Each element is then sin(r * theta) times the element of the second tensor, not the linear blend. |
| Tensors.DotSymmetric | LantentComposeMask.py:29 | `torch.dot(v1, v2) == torch.dot(v2, v1)`. |
| Tensors.Item | LantentComposeMuti.py:41-42 | `samples[i]` is a well-formed tensor whose shape is the batch tensor's shape without its leading axis. |
| Tensors.ItemOfUnsqueeze | LantentComposeMuti.py:69 | Taking item 0 of an unsqueezed tensor gives the tensor back. |
| Tensors.UnsqueezeOfItem | LantentComposeMuti.py:32-33 | A batch of one is the unsqueezed form of its only item. |
| Compose.Interpolate | LantentCompose.py:31-61 | The output bundle holds only `samples`, with the inputs' shape. It is latent1's samples at ratio 0 and latent2's at ratio 1. |
| Compose.InterpolateSwap | LantentCompose.py:43-57 | Exchanging the two latents and replacing r by 1 - r gives the same bundle. |
| ComposeMulti.Locate | LantentComposeMuti.py:36-38 | i <= B - 2 and i + t = (B - 1) * ratio. For ratio in [0, 1]: 0 <= i, t in [0, 1], and t = 1 exactly when ratio = 1. Ratio 0 gives (0, 0) and ratio 1 gives (B - 2, 1). |
| ComposeMulti.LocateMonotone | LantentComposeMuti.py:36-37 | As the ratio grows, i never decreases, and within one segment t never decreases. |
| ComposeMulti.AboveOneStaysInRange | LantentComposeMuti.py:36-38 | A ratio above 1 keeps i = B - 2 and gives t > 1: the step extrapolates past the last item instead of wrapping. |
| ComposeMulti.NegativeRatioGivesNegativeIndex | LantentComposeMuti.py:36-37 | A ratio below 0 gives a negative i. That i is at least -B exactly when (B - 1) * ratio >= -B: only then does Python read samples[i] from the end of the batch, and a smaller ratio makes samples[i] raise an IndexError. |
| ComposeMulti.InterpolateSequence | LantentComposeMuti.py:29-70 | A batch of one returns the input bundle unchanged, all keys included. Otherwise the output holds only `samples`, of shape [1] + item shape. Ratio 0 gives samples[0] and ratio 1 gives samples[B - 1], each unsqueezed. |
| ComposeMulti.SequenceStepIsPairwise | LantentComposeMuti.py:41-69 | The step is the pairwise node on samples[i] and samples[i + 1] at the local ratio t, then unsqueezed. |
| ComposeMask.NormalizeMask | LantentComposeMask.py:52-57 | The mask is accepted exactly when it has rank 3, or rank 4 with one channel; otherwise the error is `InvalidMaskShape`. A rank-3 mask gains a unit channel axis and keeps batch, height, width and data. An accepted rank-4 mask is returned unchanged. |
| ComposeMask.FitMask | LantentComposeMask.py:60-69 | The mask is resized exactly when its height or width differs from the latent's. Afterwards it is [b, 1, H, W]. |
| ComposeMask.FitMaskIdempotent | LantentComposeMask.py:63-69 | Fitting a mask that was already fitted to the same size changes nothing and calls no resampler. |
| ComposeMask.ExpandMask | LantentComposeMask.py:75 | The expanded mask is [b, C, H, W], and its values come from the mask. |
| ComposeMask.ExpandMaskCopiesChannel | LantentComposeMask.py:75 | Every channel at (n, y, x) holds the mask's value at (n, 0, y, x). |
| ComposeMask.MatchBatch | LantentComposeMask.py:78 | Broadcasting the mask batch against the latent batch keeps an equal batch unchanged. Otherwise it gives the latent's batch size with values from the mask. |
| ComposeMask.MatchBatchRepeats | LantentComposeMask.py:78 | A mask batch of one is repeated: each batch item equals the mask's only item. |
| ComposeMask.Blend | LantentComposeMask.py:77-78 | Where the mask is 0 the output is latent1's element, and where it is 1 it is the global slerp's element. Mask values in [0, 1] give a value between the two. The shape is latent1's. |
| ComposeMask.PrepareMask | LantentComposeMask.py:50-75 | Mask preparation succeeds exactly for the accepted layouts and then has the latent's full shape. Otherwise it fails with `InvalidMaskShape`. |
| ComposeMask.PreparedValuesFromMask | LantentComposeMask.py:60-75 | A mask already at the latent's resolution is not resampled, so every prepared value is one of the mask's own values. |
| ComposeMask.InterpolateMasked | LantentComposeMask.py:41-84 | Without a mask the result is exactly the pairwise node's bundle. With one, it succeeds exactly when the mask layout is accepted, and then holds only `samples` with latent1's shape. |
| ComposeMask.ZeroMaskKeepsFirst | LantentComposeMask.py:77-78 | An all-zero mask at the latent's resolution returns latent1's samples. |
| ComposeMask.OneMaskGivesPairwise | LantentComposeMask.py:77-78 | An all-one mask at the latent's resolution returns exactly the pairwise node's bundle. |
| ComposeMask.MaskedStaysBetween | LantentComposeMask.py:77-78 | With mask values in [0, 1], every output element lies between latent1's element and the global slerp's element. |

## Left out

- `UnsamplerCustom.py` is not part of this model. It orchestrates an external sampler, model management, device placement and a progress bar, and its normalisation is floating-point statistics.
- `__init__.py` is registration metadata only and is not modelled. Two defects there are not modelled either:
  - its display-name key `"LantentCompose"` does not match the class key `"LatentCompose"`;
  - `LatentInterpolateMuti` is never registered.
- Node metadata (`INPUT_TYPES`, `RETURN_TYPES`, `FUNCTION`, `CATEGORY`) is left out. The declared ratio bound [0, 1] appears only as a precondition of the sequence node.
- The 1-tuple that each node returns is dropped; the functions return the bundle itself.
- Float32 arithmetic is replaced by real arithmetic. This includes the numeric effect of the 1e-8 norm epsilon and the 1e-6 threshold (approximation bounds, NaN and infinity behaviour). The constants themselves are kept exactly.
- Norm, arc-cosine and sine are abstract. Properties that need more trigonometry than sin(0) = 0 take extra facts as preconditions: AntiParallelUndefined needs acos(-1) = pi, sin(pi) = 0 and pi >= 1e-6, and SlerpFromZero needs acos(0) = pi/2 and sin(pi/2) = 1.
- Bilinear resampling (`torch.nn.functional.interpolate`) is a foreign library call. Only its shape behaviour is modelled, not its values.
- The device and dtype casts (`.to(torch.float32)`, `mask.to(device, dtype)`) are the identity over reals.
- SlerpPrimitive.Slerp: requires the slerp to be defined, i.e. the near-parallel path or sin(theta) != 0. Over the reals the code would divide by zero otherwise.
- Compose.Interpolate: requires both latents to have `samples` of equal shape, which the code silently relies on but never checks.
- ComposeMulti.InterpolateSequence: requires ratio in [0, 1], a batch of at least one, and the selected pair to be defined. A ratio below 0 gives a negative i (see NegativeRatioGivesNegativeIndex). For a ratio in [-B/(B-1), 0) Python reads samples[i] from the end of the batch: at i = -1 it pairs samples[-1] with samples[0]. A smaller ratio makes samples[i] raise an IndexError. The upper neighbour i + 1 is at most 0 and so always readable. A ratio above 1 stays in range and extrapolates with t > 1 (see AboveOneStaysInRange). An empty batch would fail inside torch.
- ComposeMask.InterpolateMasked: when the mask layout is accepted, requires a rank-4 latent, because the code then reads `shape[1]`, `shape[2]` and `shape[3]`. It also requires a mask batch equal to the latent batch or 1. A rejected mask raises `InvalidMaskShape` for a latent of any rank. The torch broadcast of a batch-1 latent against a larger mask batch is not modelled.
- ComposeMask.ZeroMaskKeepsFirst: covers only masks already at the latent's resolution, because the resampler's values are abstract.
- ComposeMask.OneMaskGivesPairwise: covers only masks already at the latent's resolution, because the resampler's values are abstract.
- ComposeMask.MaskedStaysBetween: covers only masks already at the latent's resolution, because the resampler's values are abstract.
- Self-interpolation (slerp of a tensor with itself) is not stated. With the epsilon-padded norms the cosine is only close to 1, so the result is the input only approximately.
