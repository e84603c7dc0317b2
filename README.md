# Bayesian image restoration by iterated conditional modes

This project models the restoration core of `bayes_image`: the per-pixel energies of
`libs/energy.py`, the denoising engine of `libs/denoise.py` and the inpainting engine of
`libs/inpaint.py`. Both engines improve an image by repeated synchronous sweeps. In each sweep, every
pixel the engine works on takes the first grey level of least energy, given its
neighbourhood in a frozen snapshot of the previous sweep.

- **Images** (`Grids`). An image is a `Grid`, indexed `[row][column][channel]`.
  - A 2-D numpy array is a grid with one channel.
  - The array handed to an entry point is an `NdArray`, which keeps its rank for the `ValueError` checks.
  - `Pad` and `Unpad` model `np.pad(..., mode='constant')` on the two spatial axes and the slice that strips that padding. `UnpadPad` and `PadUnpad` prove that the two undo each other.
- **Energies** (`Energy`).
  - `DenoiseEnergy` and `InpaintEnergy` are the energy vectors over the levels `0 .. 2^bit - 1`.
  - `Trunc` is numpy's `clip((v - n)^2, 0, cutoff)`, modelled exactly.
  - `ArgMin` is `np.argmin`, the first least index.
- **Denoising** (`DenoiseEngine`).
  - The class `Denoise` keeps its buffers `im`, `posterior` and `denoiseIm` as `array3<int>` fields. `Execute` fills the working buffer pixel by pixel with loops and then copies it into the snapshot.
  - `Execute` is proved against the pure function `DenoiseSweep`.
  - `DenoiseRun`, `DenoiseFrame` and `DenoiseHistory` follow an engine through `bayes_denoise`.
  - These are tied to a padding-free reference iteration, `DenoiseIterate`.
- **Inpainting** (`InpaintEngine`).
  - The constructor extracts the scratched pixels (mask value above 200) in row-major order, as `np.where` does. It then seeds them with random values in `[0, 256)`, whatever `bit` is.
  - The random draws are an input grid `seeds` whose values are taken to lie in `[0, 256)`.
  - `Execute` repaints every listed pixel from the frozen prior.
  - `Execute` is proved against `InpaintSweep`, which is tied to the padding-free `InpaintStep` and `InpaintIterate`.
  - `BayesInpaint` is proved to return exactly `InpaintHistory`.

The integer arithmetic of the sources is unbounded in the model. Python integers are unbounded, and numpy's `int64` does not overflow for 8-bit levels and the cutoffs used.

## Model

| member | source | states |
|---|---|---|
| Grids.UnpadPad | libs/inpaint.py:78 | stripping the padding of a padded image gives the image back |
| Grids.PadUnpad | libs/inpaint.py:27-30 | a padded grid whose border is zero is the padding of its own interior |
| Energy.Trunc | libs/energy.py:16 | each neighbour's term is `(v - n)^2` capped at cutoff, never above cutoff, and in `[0, (v - n)^2]` when cutoff ≥ 0 |
| Energy.ArgMinFirstMinimum | libs/denoise.py:55 | `np.argmin` picks a least energy, and every earlier level has strictly greater energy |
| Energy.ArgMinIs | libs/inpaint.py:61 | an index that is least and strictly below all earlier ones is the argmin |
| Energy.DenoiseIgnoresCentre | libs/energy.py:16-23 | the window centre `nei[1,1]` does not enter the denoising energy |
| Energy.DenoiseEnergyBounds | libs/energy.py:15-24 | with lam, cutoff ≥ 0 the energy of v lies between `(v - center)^2` and that plus `8 * lam * cutoff` |
| Energy.DenoiseDataOnly | libs/energy.py:15-24 | with lam = 0 or cutoff = 0 only the data term `(v - center)^2` is left |
| Energy.DataOnlyArgMin | libs/energy.py:15-24 | with lam = 0 or cutoff = 0 the chosen level is the observation clamped into `[0, L-1]`, whatever the neighbours |
| Energy.ClampIsNearest | libs/energy.py:15 | the clamped observation is strictly the nearest level to it |
| Energy.DenoiseFlatArgMin | libs/energy.py:15-24 | an observation c whose eight neighbours all equal c keeps level c |
| Energy.InpaintSumsUsedCells | libs/energy.py:31-50 | the inpainting energy sums exactly the 20 cells of the 5x5 window other than the centre and the four corners |
| Energy.InpaintIgnoresUnused | libs/energy.py:31-50 | the centre and the four corners of the 5x5 window do not affect the inpainting energy |
| Energy.InpaintEnergyBounds | libs/energy.py:31-51 | with cutoff ≥ 0 each level's energy lies in `[0, 20 * cutoff]` |
| Energy.InpaintConsensus | libs/energy.py:31-51 | when all 20 used cells hold level n (cutoff > 0), n has energy 0, every other level positive energy, and n is chosen |
| DenoiseEngine.Denoise.constructor | libs/denoise.py:22-41 | the input and the snapshot are the image padded by one cell, the working buffer is zeros, and there are `2^bit` levels |
| DenoiseEngine.Denoise.Execute | libs/denoise.py:47-71 | the working buffer becomes the sweep of the old snapshot over the old working buffer, and the snapshot becomes a copy of it (colour and grey alike) |
| DenoiseEngine.Denoise.SweepChannel | libs/denoise.py:49-59 | every row of channel k of the working buffer gets its swept values, and the other channels are unchanged |
| DenoiseEngine.Denoise.SweepRow | libs/denoise.py:50-59 | one row of one channel is written with its swept values, and nothing else changes |
| DenoiseEngine.StatusBeforeSweep | libs/denoise.py:77 | before any sweep status() is all zeros, whatever the input, because the working buffer starts as zeros |
| DenoiseEngine.DenoiseFrames | libs/denoise.py:112-114 | the j-th collected image is the status after j + 1 sweeps |
| DenoiseEngine.BayesDenoise | libs/denoise.py:101-119 | fails with `NotAnImage` exactly when the rank is neither 2 nor 3; otherwise returns the history (surplus) or its last image, the status after iters sweeps or the input when iters = 0 |
| DenoiseEngine.SweepIgnoresWorkInterior | libs/denoise.py:55-58 | the sweep is synchronous: interior values already in the working buffer have no influence on it |
| DenoiseEngine.RunBorderZero | libs/denoise.py:41 | the one-cell border of the working buffer stays zero through every sweep |
| DenoiseEngine.RunCell | libs/denoise.py:55-62 | an interior cell after sweep n + 1 is the argmin over its window in the snapshot after sweep n |
| DenoiseEngine.SnapshotIsPaddedFrame | libs/denoise.py:62 | after n ≥ 1 sweeps the snapshot is the padded n-th status |
| DenoiseEngine.SweepIsStep | libs/denoise.py:47-62 | a sweep of the padded snapshot, unpadded, is one padding-free step |
| DenoiseEngine.FrameStep | libs/denoise.py:112-114 | the status after n + 1 sweeps is the step applied to the status after n sweeps |
| DenoiseEngine.FrameIsIterate | libs/denoise.py:112-114 | the status after n sweeps is the n-th padding-free iterate of the input |
| DenoiseEngine.HistoryIsIterate | libs/denoise.py:110-119 | the history has iters + 1 images and its i-th image is the i-th iterate |
| DenoiseEngine.StepRange | libs/denoise.py:55-59 | every pixel after a step is a level in `[0, 2^bit)` |
| DenoiseEngine.IterateRange | libs/denoise.py:112-114 | after n ≥ 1 sweeps every pixel is a level in `[0, 2^bit)` |
| DenoiseEngine.StepDataOnly | libs/energy.py:15-24 | with lam = 0 or cutoff = 0 a step clamps the input into the levels |
| DenoiseEngine.IterateDataOnly | libs/denoise.py:112-114 | with lam = 0 or cutoff = 0 every sweep gives the clamped input |
| DenoiseEngine.ZeroImageFixedPoint | libs/denoise.py:112-114 | the all-zero image is a fixed point of every number of sweeps |
| DenoiseEngine.StepFlat | libs/energy.py:15-24 | an interior pixel whose observation and 3x3 neighbourhood all hold level v keeps v under a step (lam, cutoff ≥ 0) |
| DenoiseEngine.ConstantImageBorderMoves | libs/denoise.py:23-27 | the zero padding pulls a constant 1-pixel image at level 1 down to 0 |
| InpaintEngine.MaskCoords | libs/inpaint.py:35-36 | the list holds exactly the pixels of the first n rows whose mask value exceeds 200, in strictly increasing row-major order |
| InpaintEngine.MaskListScratched | libs/inpaint.py:34-36 | on the mask padded by two cells, the list holds exactly the scratched pixels shifted by 2, in row-major order |
| InpaintEngine.ScratchedInBand | libs/inpaint.py:34-36 | every listed pixel lies at least two cells inside the padded image, so its 5x5 window exists |
| InpaintEngine.FindScratched | libs/inpaint.py:34-36 | the extracted list holds exactly the scratched pixels, shifted by 2, in row-major order |
| InpaintEngine.SweepOrderFree | libs/inpaint.py:56-62 | the sweep depends only on which pixels are listed, not on their order |
| InpaintEngine.WriteSeeds | libs/inpaint.py:44-46 | every channel of each listed pixel holds its seed; every other cell is unchanged |
| InpaintEngine.SliceIsWindow | libs/inpaint.py:61 | the slice `prior[r-2:r+3, c-2:c+3, ch]` of a buffer is the 5x5 window of its contents |
| InpaintEngine.RepaintPixel | libs/inpaint.py:58-62 | channels `0 .. nch-1` of one pixel get their repainted level, and nothing else changes |
| InpaintEngine.Inpaint.constructor | libs/inpaint.py:20-46 | the input is padded by two cells, the mask list holds exactly the scratched pixels in row-major order, there are `2^bit` levels, and the prior is the padded seeded image |
| InpaintEngine.Inpaint.Execute | libs/inpaint.py:53-72 | the prior becomes the sweep of the old prior over the mask list, 3 channels for colour and channel 0 for grey |
| InpaintEngine.RepaintedIsSweep | libs/inpaint.py:56-72 | a grid holding the repainted levels at the listed pixels and the prior elsewhere is the sweep |
| InpaintEngine.SeededIsPadded | libs/inpaint.py:42-46 | writing the seeds at the listed pixels of the padded input gives the padded seeded image |
| InpaintEngine.SweepIsStep | libs/inpaint.py:53-72 | a sweep of the padded image over the mask list is the padding of one step |
| InpaintEngine.SweepInterior | libs/inpaint.py:56-62 | inside the padding, the sweep agrees with the step |
| InpaintEngine.SweepBorder | libs/inpaint.py:72 | a sweep leaves the two-cell zero border of the prior at zero |
| InpaintEngine.IterateSweep | libs/inpaint.py:118-120 | the sweep of the padded n-th iterate is the padded (n + 1)-th iterate |
| InpaintEngine.InpaintFrames | libs/inpaint.py:116-120 | the j-th collected status is the j-th iterate of the seeded image |
| InpaintEngine.HistoryIsIterate | libs/inpaint.py:116-120 | the history has iters + 2 images: the input, then iterates 0 .. iters |
| InpaintEngine.InpaintImages | libs/inpaint.py:115-120 | the engine builds exactly the history of the model: each status() taken after i sweeps (the prior without its two-cell border) is the i-th iterate of the seeded image |
| InpaintEngine.BayesInpaint | libs/inpaint.py:101-125 | fails exactly when the image rank is neither 2 nor 3 (`NotAnImage`, checked first) or the mask is not 2-D (`BadMask`); otherwise returns the history or its last image |
| InpaintEngine.IterateKeepsImage | libs/inpaint.py:56-69 | a pixel the mask does not mark keeps the input's value in every channel after any number of sweeps |
| InpaintEngine.IterateKeepsSeed | libs/inpaint.py:58 | a scratched pixel's channels from 3 on keep their random seed forever |
| InpaintEngine.ScratchedInRange | libs/inpaint.py:44-62 | a scratched pixel always holds a value in `[0, 256)`, and after a sweep a repainted channel holds a level below `2^bit` |
| InpaintEngine.NoScratchIsIdentity | libs/inpaint.py:35-72 | with no mask value above 200 nothing is listed and every sweep leaves the image unchanged |
| InpaintEngine.StepConsensus | libs/inpaint.py:61-62 | a scratched pixel whose 20 energy cells all hold level v becomes v (cutoff > 0) |
| InpaintEngine.GreyAsWrittenRaises | libs/inpaint.py:65-69 | one scratched pixel in a grey mask makes the branch as written raise, while the intended step repaints it with a level |

## Left out

- `libs/noisegen.py`, `libs/utils.py` and `denoise_multi` (libs/denoise.py:122-137) are not part of this model. They hold noise generation, a floating-point PSNR measure with plotting and display helpers, and float averaging of several frames, all outside the restoration core.
- Random draws: `np.random.randint(0, 256, ...)` in the inpainting constructor becomes the parameter `seeds`. Its values in `[0, 256)` are a hypothesis of `ScratchedInRange`, not a draw.
- Floating point: lam is an integer, and a float lam is not modelled.
- Dtypes: the inpainting prior takes the input's dtype, uint8 for images.
  - `BayesInpaint` and the `Inpaint` constructor require `bit <= 8` so that every level fits and no wrap-around arises.
  - Wider levels in a uint8 buffer are not modelled.
- The denoising buffers are int32. Levels below `2^bit` fit for the depths used, and a 32-bit wrap-around is not modelled.
- `InpaintEngine.Inpaint.constructor` requires a colour image to have at least 3 channels, and so do `BayesInpaint` and `InpaintImages`. In the source such an image gets through the constructor. It fails only inside `execute` (libs/inpaint.py:58-61), and only when some pixel is listed. So with `iters = 0` or an unmarked mask, bayes_inpaint succeeds on it; the model does not cover that case.
- `InpaintEngine.Inpaint.constructor` requires the mask to have exactly the image's rows and columns, and so does `BayesInpaint` (a precondition). In the source a mismatched mask is not rejected:
  - A smaller mask raises nothing. `np.where` (libs/inpaint.py:35) lists coordinates inside the mask's own extent, and the engine repaints those pixels of the image.
  - A larger mask raises only when a scratched pixel lies outside the image. If it lies beyond the padded image, the seeding write fails (libs/inpaint.py:44/46). If it lies in the padding band, the failure comes later: the slice at libs/inpaint.py:61 is short, and indexing the short window in `Energy.inpaint` (libs/energy.py:31-50) fails (on a grey image the `UnboundLocalError` of libs/inpaint.py:68 comes first).
  - The model does not cover any of these mismatched cases.
- `InpaintEngine.NoScratchIsIdentity` states that no pixel is in the list rather than that the list equals `[]`. This is the same fact for a sequence.
- The denoising `color` flag is read from the rank, and both branches of `execute` do the same per-channel work. They are modelled as one loop over the channel count.
- `InpaintEngine.BayesInpaint` and `InpaintEngine.InpaintImages` model the intended grey path (see Findings): on a 2-D image they return the full history. The source as written raises `UnboundLocalError` (a `NameError`) there as soon as `iters >= 1` and some mask value exceeds 200. The as-written behaviour is captured only by `GreyExecuteAsWritten` and `GreyAsWrittenRaises`. So "fails exactly when" in the `BayesInpaint` row refers to the rank checks (libs/inpaint.py:101-112), not to this error.
- `iters` is a `nat` in `BayesDenoise` and `BayesInpaint`. In the source a negative `iters` makes `range(iters)` empty, so no sweep runs: bayes_denoise returns the input and bayes_inpaint the seeded status. That is what `iters = 0` gives in the model, and negative values are not modelled separately.
- The default arguments (`iters=1`, `lam=1`, `cutoff=2000`, `bit=8`, `surplus=False`, and the constructors' `cutoff=1000`) are not modelled; every argument is explicit.
- Object identity and the `.copy()` calls on returned arrays are modelled as values. Aliasing between returned images is not.
- Behaviour one might expect that the code does not have; the model follows the code:
  - `Denoise.status()` before any sweep is the zero buffer, not the input.
  - The inpainting energy sums 20 cells: the 5x5 window without its centre and four corners.
  - Because of the zero padding, a constant image is not a fixed point of denoising (`ConstantImageBorderMoves`).

## Findings

| source | as written | input that shows it | evidently intended | confidence | as-written member | corrected member |
|---|---|---|---|---|---|---|
| libs/inpaint.py:65-69 | the grey branch indexes `posterior[r,c,ch]` and `self.prior[...,ch]` with `ch`, which is bound only by the colour branch's loop (libs/inpaint.py:58), so it raises `UnboundLocalError` (a `NameError`) | a 2-D image with a 2-D mask holding one value above 200, one sweep | repaint the single channel of each scratched pixel from its 5x5 window | not executed | InpaintEngine.GreyAsWrittenRaises | InpaintEngine.Inpaint.Execute |
