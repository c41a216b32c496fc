# Peak finding and boxcar smoothing of spectral_extraction/utils.py

This project models three routines of a spectral-extraction helper module:

- `find_signal` finds the single most prominent peak of a 1D profile. It works on a copy of the profile and:
  - clamps negatives to 0;
  - for profiles longer than 800 samples, blanks the index bands 0–199 and 800–999;
  - returns NaN when nothing is left;
  - full-convolves with a 10-tap window and rescales by `avg(data)/avg(filtered)`;
  - clamps again and finds the local maxima and their prominences;
  - returns the first peak of largest prominence minus the 9 samples the convolution added.
- `guess_picks_image` returns the `objects_guess` most prominent peaks of a 1D profile. It:
  - smooths with a 2-tap window;
  - rotates the filtered profile left by the one sample of growth before searching;
  - ranks the peaks by descending prominence and adds the growth back to each pick;
  - pads the result with NaN up to `objects_guess` entries.
- `smooth_boxcar` is an inverse-variance weighted boxcar mean: `uniform_filter(w*y)/uniform_filter(w)`. It optionally returns a smoothed variance `1/(filtwidth*uniform_filter(w))`.

## How the model is built

Samples are Dafny `real`s, so there is no floating-point rounding. NaN is `Option.None`.

The exceptions numpy raises on some inputs are `Result.Failure`s:
- a band index past the end of a mask shorter than 1000 samples;
- `argmax` of an empty prominence list;
- `np.ones` with a negative count.

The scipy routines the code calls are written out as Dafny functions from their documented definitions:
- `signal.convolve` in full mode;
- `np.roll`;
- `signal.find_peaks`, where a flat top counts as one peak at its middle, rounded down;
- `signal.peak_prominences`;
- `np.argmax`;
- `np.argsort(...)[::-1]`;
- `scipy.ndimage.uniform_filter` with its default 'reflect' boundary.

Each routine is an imperative method that works on copies of the caller's arrays. It is proved equal to a specification function (`FindSignalSpec`, `GuessPicksSpec`, `SmoothSpec`), and the lemmas state what that function promises. The in-place steps of the source are methods over arrays with loop invariants:
- the clamp `a[a<0]=0` is `SignalOps.ClampNegatives`;
- building the band mask is `PeakFinders.BandMask`;
- `ysmooth /= smowht` is `Boxcar.DivideInPlace`.

Modules:
- `Types`: `Option` and `Result`.
- `SignalOps`: clamping, sums and averages, scaling, convolution and roll.
- `PeakDetection`: local maxima, prominence, argmax, descending ranking, and their invariance under positive scaling.
- `PeakFinders`: `find_signal` and `guess_picks_image`.
- `Boxcar`: `uniform_filter` and `smooth_boxcar`.
- `SpikeResponse`: what both finders return for a profile holding a single positive sample.

## Where the code and its documented behaviour differ

The model follows the code. Three differences from the documented behaviour:

- **A long profile of 801–999 samples makes `find_signal` raise; it does not return a peak.** The index list `np.r_[0:200, 800:1000]` runs past the mask, and numpy raises an IndexError. `FindSignalSpec` fails with `BandIndexOutOfBounds` exactly for those lengths.
- **A single spike is not reported at its own index.** Take a profile that is zero except for one positive sample at `i`, and a window that rises strictly to two equal middle taps and is mirror-symmetric, as `general_gaussian(10, p=1, sig=5)` is. The smoothed profile's only peak is then at `i + 4`, and `find_signal` subtracts the full growth of 9. It therefore returns `i - 5`, not an index within 2 of `i` (`SpikeResponse.FindSignalSpike`). `guess_picks_image` rotates by its growth before searching and adds it back afterwards, so for a spike at index 2 or later it returns exactly `i` (`SpikeResponse.GuessPicksSpike`). The as-written index and a corrected, centred one are both modelled; see "## Findings".
- **`guess_picks_image` loses a spike at index 0 or 1.** After the left rotation, the spike's two equal smoothed samples sit at indices 0 and 1 (spike at 1) or at the last index and 0 (spike at 0). A flat top must start at index 1 or later and end before the last index, so the profile has no local maximum. The routine then returns `objects_guess` NaNs (`SpikeResponse.GuessPicksEdgeSpike`).

## Model

| member | source | states |
|---|---|---|
| SignalOps.AllZero | spectral_extraction/utils.py:30 | on a non-negative profile, "everything is zero" holds exactly when the samples sum to 0 |
| SignalOps.AveragePositive | spectral_extraction/utils.py:35 | `np.average` of a non-negative profile that is not all zero is positive, so the rescaling factor's numerator and denominator are positive |
| SignalOps.Clamped | spectral_extraction/utils.py:21-22 | the working copy is non-negative, keeps every non-negative sample and sets every negative one to 0 |
| SignalOps.ClampNegatives | spectral_extraction/utils.py:22 | the in-place clamp leaves the array equal to the clamped old contents |
| SignalOps.ClampedNonNegativeIsIdentity | spectral_extraction/utils.py:37-38 | clamping a profile that is already non-negative changes nothing (clamping is idempotent) |
| SignalOps.Convolve | spectral_extraction/utils.py:34 | full convolution of n samples with an m-tap window has n + m - 1 samples |
| SignalOps.ConvolveNotAllZero | spectral_extraction/utils.py:34 | a non-negative, non-zero profile convolved with a positive window is non-negative and not all zero |
| SignalOps.RescaleFactor | spectral_extraction/utils.py:35 | the rescaling factor avg(data)/avg(filtered) is strictly positive |
| SignalOps.Roll | spectral_extraction/utils.py:36 | `np.roll` keeps the array's length |
| SignalOps.RollMoves | spectral_extraction/utils.py:73 | `np.roll` by `shift` moves the element at i to position (i + shift) mod n |
| SignalOps.RollZero | spectral_extraction/utils.py:36 | np.roll by 0 is the identity |
| SignalOps.RollLeftOne | spectral_extraction/utils.py:73 | after rolling left by one, position j holds sample (j + 1) mod n |
| SignalOps.RollScale | spectral_extraction/utils.py:72-73 | rolling commutes with scaling |
| PeakDetection.LocalMaxima | spectral_extraction/utils.py:39 | find_peaks reports interior indices in strictly increasing order |
| PeakDetection.LocalMaximaExact | spectral_extraction/utils.py:39 | an index is reported iff it is the middle (rounded down) of a flat top with a lower sample on each side |
| PeakDetection.PeaksFromSound | spectral_extraction/utils.py:39 | every index the scan reports is such a middle |
| PeakDetection.PeaksFromComplete | spectral_extraction/utils.py:39 | the scan misses no flat top to the right of where it starts |
| PeakDetection.StrictMaximumIsReported | spectral_extraction/utils.py:39 | a sample above both neighbours is reported |
| PeakDetection.LeftBaseMinIsMinimum | spectral_extraction/utils.py:40 | the left base of a prominence is the minimum from the peak back to the nearest higher sample or the edge |
| PeakDetection.RightBaseMinIsMinimum | spectral_extraction/utils.py:40 | the right base of a prominence is the minimum from the peak forward to the nearest higher sample or the edge |
| PeakDetection.Prominence | spectral_extraction/utils.py:40 | a prominence is never negative |
| PeakDetection.ProminenceAboveHigherBase | spectral_extraction/utils.py:40 | a prominence is the height above the higher of the two bases: at most the height above either base, and equal to one of them |
| PeakDetection.Prominences | spectral_extraction/utils.py:40 | one non-negative prominence per listed peak |
| PeakDetection.ProminenceAtMostHeight | spectral_extraction/utils.py:40 | on a non-negative profile a prominence lies between 0 and the peak's height |
| PeakDetection.ArgMax | spectral_extraction/utils.py:41 | np.argmax returns an index holding the largest value, with every earlier index strictly smaller |
| PeakDetection.MostProminent | spectral_extraction/utils.py:39-41 | nothing is selected iff find_peaks finds no peak; otherwise the selected index is one of the peaks |
| PeakDetection.MostProminentIsFirstMaximal | spectral_extraction/utils.py:39-41 | the selected peak is a local maximum that no local maximum out-ranks and that every earlier one is strictly below; nothing is selected iff there is no local maximum |
| PeakDetection.RankDescending | spectral_extraction/utils.py:79 | argsort reversed lists each of the n indices exactly once |
| PeakDetection.RankDescendingIsRanking | spectral_extraction/utils.py:79 | the ranking is non-increasing in the key and repeats no index |
| PeakDetection.RankedPrefixIsTop | spectral_extraction/utils.py:79 | an index cut off by [:k] has a key no larger than any kept index |
| PeakDetection.LocalMaximaScale | spectral_extraction/utils.py:35 | multiplying the profile by a positive factor leaves the peak indices unchanged |
| PeakDetection.ProminenceScale | spectral_extraction/utils.py:35 | a positive factor multiplies every prominence by that factor |
| PeakDetection.MostProminentScale | spectral_extraction/utils.py:35 | a positive factor does not change which peak is selected |
| PeakDetection.RankDescendingSameOrder | spectral_extraction/utils.py:72 | keys in the same relative order give the same ranking |
| PeakFinders.BandMask | spectral_extraction/utils.py:25-28 | the mask fails iff n < 1000; otherwise it has n entries and is false exactly on 0..199 and 800..999 |
| PeakFinders.ApplyMask | spectral_extraction/utils.py:29 | the product with the mask cast to 1.0/0.0 is 0 where the mask is false and the sample itself where it is true |
| PeakFinders.WorkingSignal | spectral_extraction/utils.py:21-29 | the working profile is non-negative; above 800 samples it is 0 in the bands and the clamped input elsewhere |
| PeakFinders.WorkingProfile | spectral_extraction/utils.py:21-29 | the copy-clamp-mask steps fail iff 800 < n < 1000 and otherwise give the working profile |
| PeakFinders.SmoothedProfile | spectral_extraction/utils.py:34-38 | the searched profile has n + m - 1 samples and is non-negative |
| PeakFinders.Smooth | spectral_extraction/utils.py:34-38 | convolve, rescale, roll, copy and clamp produce a fresh array holding the smoothed profile |
| PeakFinders.FindSignalSpec | spectral_extraction/utils.py:7-41 | the band error happens iff 800 < n < 1000, and a returned index lies in [-8, n - 2] |
| PeakFinders.FindSignal | spectral_extraction/utils.py:7-41 | the array-level routine returns exactly what the specification function gives for the input's contents |
| PeakFinders.SearchProfile | spectral_extraction/utils.py:33-41 | smoothing, peak search and argmax of a non-zero working profile give the specified result |
| PeakFinders.FindSignalMissing | spectral_extraction/utils.py:30-31 | NaN is returned iff the length is allowed and the working profile is all zero |
| PeakFinders.FindSignalSelectsMostProminent | spectral_extraction/utils.py:33-41 | the call fails iff the filtered profile has no local maximum; otherwise result + 9 is its first most prominent local maximum |
| PeakFinders.FindSignalSearchesFiltered | spectral_extraction/utils.py:35-41 | rescaling and clamping play no part: the result is the filtered profile's selected peak minus 9 |
| PeakFinders.FindSignalCentredSpec | spectral_extraction/utils.py:7-41 | the corrected find_signal: the band error iff 800 < n < 1000, and a returned index lies in [-3, n + 3] |
| PeakFinders.FindSignalCentredShift | spectral_extraction/utils.py:41 | the corrected index is the as-written one plus 5; NaN and the errors are unchanged |
| PeakFinders.SmoothedProfileIsScaled | spectral_extraction/utils.py:35-38 | with a zero roll, the clamped profile is the rescaled convolution itself |
| PeakFinders.TakeCount | spectral_extraction/utils.py:79 | the slice [:k] keeps at most the list's length, and at most k entries for k >= 0 |
| PeakFinders.RankedPeaks | spectral_extraction/utils.py:79 | the ranking has one in-range entry per local maximum |
| PeakFinders.RankedPeaksIsRanking | spectral_extraction/utils.py:76-79 | the ranking holds every local maximum exactly once, with non-increasing prominence |
| PeakFinders.RankedPeaksTop | spectral_extraction/utils.py:79 | a local maximum cut off after t entries is no more prominent than any kept one |
| PeakFinders.RankedPicks | spectral_extraction/utils.py:79-89 | for k >= 0 there are exactly k picks |
| PeakFinders.RankedPicksShape | spectral_extraction/utils.py:79-89 | the picks are the first min(k, #peaks) ranked peaks shifted by the growth, then NaN up to k; a negative k keeps all but the last -k |
| PeakFinders.GuessPicksSpec | spectral_extraction/utils.py:65-89 | the call fails iff k < 0 and the clamped profile is all zero; for k >= 0 it returns exactly k entries |
| PeakFinders.GuessPicksImage | spectral_extraction/utils.py:65-89 | the array-level routine returns exactly what the specification function gives |
| PeakFinders.GuessPicksAllZero | spectral_extraction/utils.py:67-68 | an all-zero clamped profile gives k NaNs |
| PeakFinders.GuessPicksSearchesRotatedFilter | spectral_extraction/utils.py:70-79 | the picks are those of the filtered profile rotated left by one, shifted by +1; the filtered profile has n + 1 samples |
| PeakFinders.RankedPicksScale | spectral_extraction/utils.py:72 | a positive rescaling factor does not change the picks |
| Boxcar.Reflect | spectral_extraction/utils.py:200-201 | the 'reflect' extension always reads a sample inside the array |
| Boxcar.ReflectInside | spectral_extraction/utils.py:200-201 | inside the array, index j reads sample j |
| Boxcar.ReflectLeftEdge | spectral_extraction/utils.py:200-201 | index -1 - j reads sample j (d c b a \| a b c d) |
| Boxcar.ReflectRightEdge | spectral_extraction/utils.py:200-201 | index n + j reads sample n - 1 - j |
| Boxcar.UniformFilter | spectral_extraction/utils.py:200 | `uniform_filter` keeps the array's length |
| Boxcar.AverageConstant | spectral_extraction/utils.py:200 | the average of a constant window is that constant |
| Boxcar.AverageScale | spectral_extraction/utils.py:201 | scaling the samples scales the average |
| Boxcar.UniformFilterConstant | spectral_extraction/utils.py:200 | the filter of a constant array is that constant |
| Boxcar.UniformFilterPositive | spectral_extraction/utils.py:200 | the filter of positive weights is positive, so the division at :202 is defined |
| Boxcar.UniformFilterScale | spectral_extraction/utils.py:201 | the filter commutes with multiplication by a constant |
| Boxcar.SumWeighted | spectral_extraction/utils.py:199-201 | a positively weighted sum of samples in [lo, hi] lies between lo and hi times the sum of the weights |
| Boxcar.DivideInPlace | spectral_extraction/utils.py:202 | the in-place division leaves the element-wise quotient of the old contents |
| Boxcar.Weights | spectral_extraction/utils.py:185-197 | the weights are positive and as long as the spectrum |
| Boxcar.WeightedMean | spectral_extraction/utils.py:199-202 | the weighted mean has one value per sample |
| Boxcar.SmoothedVariance | spectral_extraction/utils.py:203-204 | one smoothed variance per sample, positive for a positive width and negative for a negative one |
| Boxcar.SmoothSpec | spectral_extraction/utils.py:185-208 | the result keeps the spectrum's length, and a smoothed variance is returned iff a variance is given |
| Boxcar.SmoothBoxcar | spectral_extraction/utils.py:149-208 | the array-level routine returns the spectrum itself for a zero width without variance, and fresh arrays holding the specified result otherwise |
| Boxcar.WeightedMeanConstantWeights | spectral_extraction/utils.py:199-202 | equal weights cancel: the weighted mean is the plain boxcar mean |
| Boxcar.SmoothUnweighted | spectral_extraction/utils.py:190-206 | without a variance and with a non-zero width, the result is (uniform_filter(y), None) |
| Boxcar.WeightedMeanNarrow | spectral_extraction/utils.py:199-202 | a width of at most 1 returns the spectrum |
| Boxcar.WeightedMeanWithin | spectral_extraction/utils.py:199-202 | every weighted mean of samples in [lo, hi] lies in [lo, hi] |
| Boxcar.SmoothNarrowIsIdentity | spectral_extraction/utils.py:185-202 | any width of at most 1 leaves the spectrum unchanged |
| Boxcar.SmoothWithinRange | spectral_extraction/utils.py:185-202 | the smoothed spectrum stays within the spectrum's bounds |
| Boxcar.SmoothConstant | spectral_extraction/utils.py:185-202 | a constant spectrum smooths to itself, whatever the variance |
| Boxcar.SmoothedVarianceConstant | spectral_extraction/utils.py:204 | weights 1/v everywhere give a smoothed variance of v/filtwidth everywhere |
| Boxcar.SmoothConstantVariance | spectral_extraction/utils.py:185-204 | a constant variance v smooths the spectrum as unweighted and returns v/filtwidth everywhere |
| SpikeResponse.OnlyPlateau | spectral_extraction/utils.py:39 | a profile that rises to one flat top and then falls has exactly one local maximum, the middle of that top |
| SpikeResponse.ConvolveSpike | spectral_extraction/utils.py:34 | convolving a single positive sample places a scaled copy of the window at its index |
| SpikeResponse.BumpPeak | spectral_extraction/utils.py:34-39 | a symmetric unimodal 10-tap window placed at i has its only local maximum at i + 4 |
| SpikeResponse.FindSignalSpike | spectral_extraction/utils.py:7-41 | find_signal on a single spike at i returns i - 5 |
| SpikeResponse.FindSignalCentredSpike | spectral_extraction/utils.py:7-41 | the corrected find_signal reports a single spike at its own index i |
| SpikeResponse.SpikeFilteredPeak | spectral_extraction/utils.py:34-41 | the filtered spike's selected peak is i + 4 |
| SpikeResponse.GuessPicksSpikeProfile | spectral_extraction/utils.py:70-76 | the rotated, smoothed spike has its only local maximum at i - 1 |
| SpikeResponse.SinglePeakRanking | spectral_extraction/utils.py:76-79 | a profile with one local maximum ranks just that one |
| SpikeResponse.GuessPicksSpike | spectral_extraction/utils.py:65-89 | guess_picks_image on a single spike at i (2 <= i <= n - 1) returns i followed by k - 1 NaNs |
| SpikeResponse.EdgeSpikeProfile | spectral_extraction/utils.py:70-76 | the rotated, smoothed spike at index 0 or 1 has no local maximum |
| SpikeResponse.GuessPicksEdgeSpike | spectral_extraction/utils.py:65-89 | guess_picks_image on a single spike at index 0 or 1 returns k NaNs |

## Left out

- `gaussian` and `moffat` are not part of this model. They evaluate `exp` and real powers, which Dafny has no primitive for.
- The coefficients of `signal.windows.general_gaussian` are not computed, since they also involve `exp`. Each window is a parameter: any sequence of 10 (or 2) positive reals. The spike lemmas additionally assume the shape that `general_gaussian(10, p=1, sig=5)` has.
- Floating point is not modelled: no rounding, NaN or infinity propagation, or overflow. Values are exact reals and NaN is `None`.
- Plotting and the `plot` and `verbose` flags are not modelled; their branches only draw or do nothing.
- Genuinely 2D `image` arrays are out of scope. The peak search and the 1D convolution take 1D data, so only 1D profiles are modelled.
- PeakDetection.RankDescending: `np.argsort` is not stable, so the source leaves the order among equal prominences open. The model fixes one order: among equal keys, the later index comes first. Only the non-increasing order and the membership are stated about it.
- Boxcar.SmoothBoxcar: requires a non-zero width whenever a variance is given. The source divides by `filtwidth * smowht`, which is 0 in that case and yields infinities.
- Boxcar.SmoothSpec: the same requirement, a non-zero width whenever a variance is given, for the same reason.
- Boxcar.SmoothedVariance: requires a non-zero width, since `1/(0 * smowht)` is infinite.
- Boxcar.SmoothBoxcar: requires every variance sample to be positive. A zero or negative variance makes `1/var` infinite or the weights negative.
- Boxcar.SmoothSpec: the same requirement, positive variance samples, for the same reason; so does Boxcar.Weights.
- Boxcar.UniformFilter: follows scipy in leaving the array unchanged for a size of at most 1. Only the default 'reflect' mode and the default origin 0 are modelled.
- SpikeResponse.GuessPicksSpike: covers spikes at index 2 or later. A spike at index 0 or 1 gives no pick at all, which `SpikeResponse.GuessPicksEdgeSpike` states.
- SignalOps.Average carries no contract of its own. Its properties are stated where they are used: `SignalOps.AveragePositive`, `Boxcar.AverageConstant` and `Boxcar.AverageScale`.
- `PeakFinders.FindSignal` models find_signal as written. The corrected, centred index (see "## Findings") is given as a specification function with its lemmas, not as a second array method.

## Findings

| source | as written | input that shows it | evidently intended | confidence | as-written member | corrected member |
|---|---|---|---|---|---|---|
| spectral_extraction/utils.py:41 | the index of the best peak of the full convolution minus the full growth `len(filtered) - len(data)` = 9 | 100 zero samples except 1.0 at index 50, window `general_gaussian(10, p=1, sig=5)`: the smoothed peak is at 54 and the routine returns 45 | the index of the peak in the input profile (utils.py:17-19): subtract the window's centre offset (10 - 1) // 2 = 4, giving 50 | medium; not executed | SpikeResponse.FindSignalSpike | SpikeResponse.FindSignalCentredSpike |
