# Reflectance initializer: ambient averaging and parameter refinement

A Dafny model of two sequential pieces of JavaCV's `ReflectanceInitializer`,
the photometric start-up step of projector-camera calibration.

1. **Ambient recovery** (`initializeReflectance`, the pixel loop). The smoothed
   black exposure `fb1` and the white-balanced reflectance estimate `fb2` are
   flat buffers of interleaved samples, `channels` per pixel. Every sample of
   `fb1` is overwritten by `fb1[k] / fb2[k]`. The quotient of a sample is also
   added to its channel's total, and the channel's pixel count goes up by one,
   when the pixel's region-of-interest mask byte is non-zero and the
   reflectance exceeds `reflectanceMin`. Each channel's total is then divided
   by its count. A channel that nothing qualified for gets 0.
   - Modules: `Reflectance` (the `Frame` datatype and the reference `Count` and
     `Sum`) and `ReflectanceFacts` (properties of the result).
   - Samples are reals. The per-sample division is a parameter
     `quot: (real, real) -> real` that the model never looks inside. A zero
     denominator therefore needs no meaning: the source produces IEEE
     infinities or NaN there.
   - The loop returns fresh sequences instead of writing into the buffers. It
     also returns the per-channel counts, which the source keeps in a local
     array.
2. **Plane-parameter initialization** (`initializePlaneParameters`), in module
   `Refinement`. The parameter vector created by the transform model gets 1.0
   in slot 11 and `ambientLight[i]` in slot `12 + i`. The alignment engine is
   then stepped until a step reports convergence or 100 steps were made.
   - The engine is an oracle `step: S -> (bool, S)` over an abstract engine
     state `S`.
   - Building the engine (`start`) and reading its parameters back (`current`)
     are parameters as well.

The source's own checks at ReflectanceInitializer.java:113-114 compare
`fb1.capacity()` with a third of the other buffers' capacities. The loop's
indexing does not need that relation, so it is not modelled. For three
same-sized images these checks would fail whenever Java assertions are
enabled. The preconditions are the ones the indexing needs:
- at least one channel;
- whole pixels in `fb1`;
- `fb2` at least as long as `fb1`;
- a mask byte for every pixel.

The seeding loop runs over `ambientLight.length`, not over the channel count,
and the model follows the code in this.

## Model

| member | source | states |
|---|---|---|
| Reflectance.RecoverAmbient | src/com/googlecode/javacv/ReflectanceInitializer.java:110-132 | Every sample position of `fb1` ends holding the quotient of its original value and its `fb2` sample, whatever the mask or threshold says. Each channel's count equals the reference count of pixels in the region whose reflectance exceeds the threshold. Each channel's result is 0 when that count is 0. Otherwise it is (caller's start value + sum of qualifying quotients) / count. Slots of the ambient vector past `channels` are left unchanged. |
| Reflectance.VisitPixel | src/com/googlecode/javacv/ReflectanceInitializer.java:117-128 | One pass of the inner loop over pixel `i` replaces exactly that pixel's samples by their quotients. It advances every channel's count and total from the first `i` pixels to the first `i + 1`. Earlier and later samples are untouched. |
| Reflectance.PixelOfOffset | src/com/googlecode/javacv/ReflectanceInitializer.java:116 | While the sample offset `j = i * channels` is inside `fb1`, the pixel index is `j / channels` and names a whole pixel of the buffer. |
| ReflectanceFacts.CountIsQualifyingPixels | src/com/googlecode/javacv/ReflectanceInitializer.java:115-129 | A channel's count is the size of the set of pixels `i` with `mask[i] != 0` and `fb2[i * channels + z] > reflectanceMin`. |
| ReflectanceFacts.UnqualifiedSamplesIrrelevant | src/com/googlecode/javacv/ReflectanceInitializer.java:122-127 | Changing black-exposure samples that are masked out or below the threshold changes neither a channel's count nor its total, and so not its mean. |
| ReflectanceFacts.EmptyRegionCountsNothing | src/com/googlecode/javacv/ReflectanceInitializer.java:122-127 | With every mask byte zero, no pixel is counted and nothing is summed. |
| ReflectanceFacts.EmptyRegionZeroAmbient | src/com/googlecode/javacv/ReflectanceInitializer.java:130-132 | An empty region of interest gives an ambient level of exactly 0 in every channel, discarding the caller's start value. |
| ReflectanceFacts.SumWithin | src/com/googlecode/javacv/ReflectanceInitializer.java:122-127 | If every qualifying quotient lies in `[lo, hi]`, a channel's total lies between `count` copies of `lo` and `count` copies of `hi`. |
| ReflectanceFacts.MeanWithin | src/com/googlecode/javacv/ReflectanceInitializer.java:122-132 | With a zeroed start value and at least one qualifying pixel, the channel mean lies within the range of the quotients it averages. For example, quotients in `[0, 1]` give an ambient level in `[0, 1]`. |
| ReflectanceFacts.UniformAmbientRecovered | src/com/googlecode/javacv/ReflectanceInitializer.java:120-132 | When every qualifying sample's quotient is the same ambient level `a`, the start value is zero and some pixel qualifies, the recovered level is exactly `a`. |
| ReflectanceFacts.StartValueLeaks | src/com/googlecode/javacv/ReflectanceInitializer.java:125-131 | When some pixel qualifies, a non-zero caller start value is not discarded: it shifts the mean by `start / count`. |
| Refinement.SeedParameters | src/com/googlecode/javacv/ReflectanceInitializer.java:155-162 | Slot 11 holds 1.0 and slot `12 + i` holds `ambientLight[i]` for every `i < ambientLight.length`. Every other slot keeps the value the transform model created, and the length is unchanged. |
| Refinement.StepsTakenStops | src/com/googlecode/javacv/ReflectanceInitializer.java:170-173 | The reference step count under a positive budget is at least 1 and within the budget. No step before the last reported convergence. If it stopped short of the budget, the last step reported convergence. |
| Refinement.StopsAtIffStepsTaken | src/com/googlecode/javacv/ReflectanceInitializer.java:170-173 | A run has that shape exactly when its length is the reference count, in both directions. So the loop's exit condition fixes the number of steps. |
| Refinement.Refine | src/com/googlecode/javacv/ReflectanceInitializer.java:166-173 | The loop ends with `1 <= iterations <= 100` after calling the engine exactly `iterations` times. No earlier call reported convergence. Stopping before 100 means the last call reported convergence. The returned flag is the last call's, and the engine state is the one after `iterations` steps. |
| Refinement.InitializePlaneParameters | src/com/googlecode/javacv/ReflectanceInitializer.java:155-178 | The engine starts from the seeded vector, with slot 11 = 1.0, the ambient block in place and other slots as created. It is stepped under the same stopping rule as `Refine`. The result is read from the engine's state after the last step. |

## Left out

- Constructor (ReflectanceInitializer.java:36-63) and `getProjectorImages`: allocating the three projector patterns and the fractal triangle-wave texture are calls into the imaging library and device code, which are not part of this model.
- Mask construction, Gaussian smoothing, image subtraction and the colour-mixing correction (:81-104): these are library image operations with floating-point numerics. The model takes their results, `fb1`, `fb2` and the mask, as inputs.
- Final reflectance division, mask inversion, erosion and masked zeroing (:136-143): these are library image operations and are not modelled.
- Reflectance.RecoverAmbient: samples are reals, not Java `float`/`double`. Rounding, and the accumulation of a `float` quotient into a `double` total, are not modelled. The per-sample division is an uninterpreted parameter, so IEEE infinities and NaN for a zero denominator have no counterpart.
- Reflectance.RecoverAmbient: the per-channel counts are unbounded naturals, not Java `int`. A count never exceeds the pixel count, which is bounded by the `int` buffer capacity, so no overflow can occur.
- Reflectance.RecoverAmbient: requires at least one channel. With zero channels and a non-empty buffer, the source's loop never advances.
- The checks at :113-114 are not modelled; the reason is given above.
- Refinement.SeedParameters: requires the created vector to have a slot for every index it writes. `ProCamTransformer.Parameters.set` is not part of this model, so its behaviour on an out-of-range index is unknown.
- Refinement.Refine: the scratch buffer `delta` passed to `iterate` is only used inside the engine and is left out.
- `ProCamTransformer`, `GNImageAligner` internals, `getParameters`, `getRMSE` and `getSrcN` are external. They appear only as the parameters `start`, `step` and `current`.
- Timing (`System.currentTimeMillis`) and the log message (:168, :175-177) are observability only and are not modelled.
- Matrix pooling (`CvMat.take`/`pool`) is resource management, not behaviour, and is not modelled.
- Running the estimator twice on the same inputs gives the same result. This needs no lemma: every member here is a deterministic function of its inputs.
