/**
 * The two peak finders of spectral_extraction/utils.py:
 *
 *  - find_signal: the single most prominent peak of a 1D profile, after
 *    clamping negatives, blanking the index bands [0, 200) and [800, 1000) of
 *    long profiles, smoothing with a 10-tap window and rescaling; the index is
 *    corrected by the 9 samples that full convolution adds.
 *  - guess_picks_image: the `objects_guess` most prominent peaks of a profile,
 *    smoothed with a 2-tap window whose growth is rotated away before the
 *    search and added back to every pick; missing picks are padded with NaN.
 *
 * The windows (`signal.windows.general_gaussian(10 or 2, p=1, sig=5)`) are
 * parameters: any sequence of positive coefficients of the right length.
 * NaN is `None`; the exceptions numpy raises are `Failure`s.
 */
module PeakFinders {
  import opened Types
  import opened SignalOps
  import opened PeakDetection

  datatype Error =
    | BandIndexOutOfBounds  // np.r_[0:200, 800:1000] indexes past a mask shorter than 1000
    | NoPeaksFound          // np.argmax of an empty prominence array
    | NegativeDimensions    // np.ones(objects_guess) with objects_guess < 0

  /** Profiles longer than this get the two bands blanked. */
  const BandThreshold: nat := 800

  /** Length of find_signal's smoothing window. */
  const FindWindowLength: nat := 10

  /** Length of guess_picks_image's smoothing window. */
  const GuessWindowLength: nat := 2

  /** The indices `np.r_[0:200, 800:1000]` that find_signal blanks in long profiles. */
  predicate InExcludedBand(i: int)
  {
    0 <= i < 200 || 800 <= i < 1000
  }

  /**
   * `mask = np.ones(n, dtype=bool); mask[np.r_[0:200, 800:1000]] = False`.
   * For every `n < 1000` the index list runs past the mask and numpy raises
   * an IndexError.
   */
  method BandMask(n: nat) returns (r: Result<seq<bool>, Error>)
    ensures r.Failure? <==> n < 1000
    ensures r.Failure? ==> r.error == BandIndexOutOfBounds
    ensures r.Success? ==> |r.value| == n
    ensures r.Success? ==> forall i :: 0 <= i < n ==> (r.value[i] <==> !InExcludedBand(i))
  {
    if n < 1000 {
      return Failure(BandIndexOutOfBounds);
    }
    var mask := new bool[n](_ => true);
    for i := 0 to 200
      invariant forall k :: 0 <= k < n ==> (mask[k] <==> !(k < i))
    {
      mask[i] := false;
    }
    for i := 800 to 1000
      invariant forall k :: 0 <= k < n ==> (mask[k] <==> !(k < 200 || 800 <= k < i))
    {
      mask[i] := false;
    }
    r := Success(mask[..]);
  }

  /**
   * `s * mask`: numpy multiplies by the mask cast to 1.0 and 0.0, so
   * masked-out samples become 0 and the others stay.
   */
  function ApplyMask(s: seq<real>, mask: seq<bool>): (r: seq<real>)
    requires |mask| == |s|
    ensures |r| == |s|
    ensures forall i :: 0 <= i < |s| ==> r[i] == (if mask[i] then s[i] else 0.0)
  {
    seq(|s|, i requires 0 <= i < |s| => s[i] * (if mask[i] then 1.0 else 0.0))
  }

  /**
   * The profile find_signal searches: negatives clamped to 0 and, when the
   * profile is longer than 800 samples, the excluded bands set to 0.
   */
  function WorkingSignal(data: seq<real>): (m: seq<real>)
    ensures |m| == |data| && NonNegative(m)
    ensures |data| <= BandThreshold ==> m == Clamped(data)
    ensures |data| > BandThreshold ==> forall i :: 0 <= i < |data| && InExcludedBand(i) ==> m[i] == 0.0
    ensures |data| > BandThreshold ==> forall i :: 0 <= i < |data| && !InExcludedBand(i) ==> m[i] == Clamped(data)[i]
    ensures forall i :: 0 <= i < |data| && data[i] >= 0.0 && !(|data| > BandThreshold && InExcludedBand(i)) ==> m[i] == data[i]
  {
    var c := Clamped(data);
    if |data| > BandThreshold then
      seq(|c|, i requires 0 <= i < |c| => if InExcludedBand(i) then 0.0 else c[i])
    else c
  }

  /**
   * The searched profile shared by both finders: `m` convolved with the window
   * in full mode, rescaled to the average of `m`, rolled by `shift` and clamped
   * at 0.
   */
  function SmoothedProfile(window: seq<real>, m: seq<real>, shift: int): (g: seq<real>)
    requires IsWindow(window, |window|) && |window| >= 1
    requires NonNegative(m) && !AllZero(m)
    ensures |g| == |m| + |window| - 1 && NonNegative(g)
  {
    Clamped(Roll(Scale(RescaleFactor(window, m), Convolve(window, m)), shift))
  }

  /**
   * The smoothing steps as they run on arrays: convolve, rescale, roll, copy
   * into a fresh array and clamp it in place.
   */
  method Smooth(window: seq<real>, m: seq<real>, shift: int) returns (g: array<real>)
    requires IsWindow(window, |window|) && |window| >= 1
    requires NonNegative(m) && !AllZero(m)
    ensures fresh(g) && g[..] == SmoothedProfile(window, m, shift)
  {
    var filtered := Convolve(window, m);
    AveragePositive(m);
    ConvolveNotAllZero(window, m);
    AveragePositive(filtered);
    filtered := Scale(Average(m) / Average(filtered), filtered);
    filtered := Roll(filtered, shift);
    g := new real[|filtered|](k requires 0 <= k < |filtered| => filtered[k]);
    assert g[..] == filtered;
    ClampNegatives(g);
  }

  /**
   * What find_signal returns for `data`: `Success(None)` for NaN, the
   * corrected index of the first most prominent peak, or the error numpy
   * raises.
   */
  function FindSignalSpec(data: seq<real>, window: seq<real>): (r: Result<Option<int>, Error>)
    requires IsWindow(window, FindWindowLength)
    ensures (r.Failure? && r.error == BandIndexOutOfBounds) <==> BandThreshold < |data| < 1000
    ensures r.Success? && r.value.Some? ==> -8 <= r.value.value <= |data| - 2
  {
    if BandThreshold < |data| < 1000 then Failure(BandIndexOutOfBounds)
    else
      var m := WorkingSignal(data);
      if AllZero(m) then Success(None)
      else
        var g := SmoothedProfile(window, m, 0);
        match MostProminent(g)
        case None => Failure(NoPeaksFound)
        case Some(p) => Success(Some(p - (|g| - |data|)))
  }

  /**
   * The first steps of find_signal on a copy of the caller's array: clamp the
   * copy in place and, for a long profile, multiply it by the band mask.
   */
  method WorkingProfile(data: array<real>) returns (r: Result<seq<real>, Error>)
    ensures r.Failure? <==> BandThreshold < data.Length < 1000
    ensures r.Failure? ==> r.error == BandIndexOutOfBounds
    ensures r.Success? ==> r.value == WorkingSignal(data[..])
  {
    var work := new real[data.Length](k requires 0 <= k < data.Length reads data => data[k]);
    assert work[..] == data[..];
    ClampNegatives(work);
    var m := work[..];
    if work.Length > BandThreshold {
      var mask := BandMask(work.Length);
      if mask.Failure? {
        return Failure(mask.error);
      }
      m := ApplyMask(m, mask.value);
    }
    assert m == WorkingSignal(data[..]);
    r := Success(m);
  }

  /**
   * find_signal. The caller's array is only read: the search runs on a copy,
   * which is clamped in place, masked, smoothed and searched.
   */
  method FindSignal(data: array<real>, window: seq<real>) returns (r: Result<Option<int>, Error>)
    requires IsWindow(window, FindWindowLength)
    ensures r == FindSignalSpec(data[..], window)
  {
    var working := WorkingProfile(data);
    if working.Failure? {
      return Failure(working.error);
    }
    var m := working.value;
    if AllZero(m) {
      return Success(None);
    }
    r := SearchProfile(data[..], window, m);
  }

  /**
   * The search part of find_signal on a working profile that is not all zero:
   * smooth, find the local maxima, and report the most prominent one shifted
   * back by the convolution growth.
   */
  method SearchProfile(data: seq<real>, window: seq<real>, m: seq<real>) returns (r: Result<Option<int>, Error>)
    requires IsWindow(window, FindWindowLength) && !(BandThreshold < |data| < 1000)
    requires m == WorkingSignal(data) && !AllZero(m)
    ensures r == FindSignalSpec(data, window)
  {
    var g := Smooth(window, m, 0);
    var peaks := LocalMaxima(g[..]);
    if |peaks| == 0 {
      return Failure(NoPeaksFound);
    }
    var prominences := Prominences(g[..], peaks);
    var best := peaks[ArgMax(prominences)];
    assert MostProminent(g[..]) == Some(best);
    r := Success(Some(best - (g.Length - |data|)));
  }

  /** find_signal returns NaN exactly when the working profile is all zero (an empty profile included). */
  lemma FindSignalMissing(data: seq<real>, window: seq<real>)
    requires IsWindow(window, FindWindowLength)
    ensures FindSignalSpec(data, window) == Success(None)
        <==> !(BandThreshold < |data| < 1000) && AllZero(WorkingSignal(data))
  {
  }

  /**
   * When the working profile is not all zero, find_signal reports the first
   * most prominent local maximum of the smoothed profile minus the 9 samples
   * of convolution growth, and fails only when that profile has no local
   * maximum. The rescaling factor and the final clamp play no part.
   */
  lemma FindSignalSelectsMostProminent(data: seq<real>, window: seq<real>)
    requires IsWindow(window, FindWindowLength)
    requires !(BandThreshold < |data| < 1000) && !AllZero(WorkingSignal(data))
    ensures var f := Convolve(window, WorkingSignal(data));
            && (FindSignalSpec(data, window) == Failure(NoPeaksFound) <==> forall p :: !IsLocalMaximum(f, p))
            && (FindSignalSpec(data, window).Success? ==>
                  && FindSignalSpec(data, window).value.Some?
                  && IsFirstMostProminent(f, FindSignalSpec(data, window).value.value + 9))
  {
    var f := Convolve(window, WorkingSignal(data));
    FindSignalSearchesFiltered(data, window);
    MostProminentIsFirstMaximal(f);
  }

  /** find_signal's search on the rescaled, clamped profile is the search on the filtered profile itself. */
  lemma FindSignalSearchesFiltered(data: seq<real>, window: seq<real>)
    requires IsWindow(window, FindWindowLength)
    requires !(BandThreshold < |data| < 1000) && !AllZero(WorkingSignal(data))
    ensures var best := MostProminent(Convolve(window, WorkingSignal(data)));
            && (best.None? ==> FindSignalSpec(data, window) == Failure(NoPeaksFound))
            && (best.Some? ==> FindSignalSpec(data, window) == Success(Some(best.value - 9)))
  {
    var m := WorkingSignal(data);
    var f := Convolve(window, m);
    var c := RescaleFactor(window, m);
    var g := SmoothedProfile(window, m, 0);
    SmoothedProfileIsScaled(window, m);
    MostProminentScale(c, f);
    assert MostProminent(g) == MostProminent(f);
    assert |g| - |data| == 9;
  }

  /**
   * find_signal with the index taken back by the window's centre offset,
   * `(|window| - 1) / 2` = 4, instead of the full growth of 9: sample `k` of
   * the full convolution is centred on input sample `k - 4`, so this index
   * refers to the input profile, as the routine's documentation promises.
   */
  function FindSignalCentredSpec(data: seq<real>, window: seq<real>): (r: Result<Option<int>, Error>)
    requires IsWindow(window, FindWindowLength)
    ensures (r.Failure? && r.error == BandIndexOutOfBounds) <==> BandThreshold < |data| < 1000
    ensures r.Success? && r.value.Some? ==> -3 <= r.value.value <= |data| + 3
  {
    if BandThreshold < |data| < 1000 then Failure(BandIndexOutOfBounds)
    else
      var m := WorkingSignal(data);
      if AllZero(m) then Success(None)
      else
        var g := SmoothedProfile(window, m, 0);
        match MostProminent(g)
        case None => Failure(NoPeaksFound)
        case Some(p) => Success(Some(p - (|window| - 1) / 2))
  }

  /**
   * The centred index is the as-written one plus 5; every other outcome (NaN
   * and the errors) is the same.
   */
  lemma FindSignalCentredShift(data: seq<real>, window: seq<real>)
    requires IsWindow(window, FindWindowLength)
    ensures var r := FindSignalSpec(data, window);
            && (r.Success? && r.value.Some? ==> FindSignalCentredSpec(data, window) == Success(Some(r.value.value + 5)))
            && (!(r.Success? && r.value.Some?) ==> FindSignalCentredSpec(data, window) == r)
  {
    if !(BandThreshold < |data| < 1000) && !AllZero(WorkingSignal(data)) {
      var g := SmoothedProfile(window, WorkingSignal(data), 0);
      assert |g| - |data| == 9;
    }
  }

  /** Without a roll, the clamp changes nothing: the smoothed profile is the rescaled convolution. */
  lemma SmoothedProfileIsScaled(window: seq<real>, m: seq<real>)
    requires IsWindow(window, |window|) && |window| >= 1
    requires NonNegative(m) && !AllZero(m)
    ensures SmoothedProfile(window, m, 0) == Scale(RescaleFactor(window, m), Convolve(window, m))
  {
    var f := Convolve(window, m);
    var c := RescaleFactor(window, m);
    ConvolveNonNegative(window, m);
    ScalePreservesNonNegative(c, f);
    RollZero(Scale(c, f));
    ClampedNonNegativeIsIdentity(Scale(c, f));
  }

  // ---------------------------------------------------------------------------
  // guess_picks_image
  // ---------------------------------------------------------------------------

  /** `len(order[:k])` for a list of `p` entries: Python's slice keeps `k` entries, or all but the last `-k`. */
  function TakeCount(k: int, p: nat): (t: nat)
    ensures t <= p
    ensures k >= 0 ==> t <= k
  {
    if k >= 0 then (if k < p then k else p)
    else (if p + k > 0 then p + k else 0)
  }

  /** `peaks[np.argsort(prominences)[::-1]]`: the local maxima of `g`, most prominent first. */
  function RankedPeaks(g: seq<real>): (ranked: seq<nat>)
    ensures |ranked| == |LocalMaxima(g)|
    ensures forall j :: 0 <= j < |ranked| ==> ranked[j] < |g|
  {
    var peaks := LocalMaxima(g);
    var order := RankDescending(Prominences(g, peaks), |peaks|);
    seq(|peaks|, j requires 0 <= j < |peaks| => assert order[j] in order; peaks[order[j]])
  }

  /**
   * The ranking lists every local maximum of `g` exactly once, from the most
   * prominent down.
   */
  lemma RankedPeaksIsRanking(g: seq<real>)
    ensures forall p: nat :: p in RankedPeaks(g) <==> IsLocalMaximum(g, p)
    ensures forall a, b :: 0 <= a < b < |RankedPeaks(g)| ==> RankedPeaks(g)[a] != RankedPeaks(g)[b]
    ensures forall a, b :: 0 <= a < b < |RankedPeaks(g)| ==>
              Prominence(g, RankedPeaks(g)[a]) >= Prominence(g, RankedPeaks(g)[b])
  {
    forall p: nat
      ensures p in RankedPeaks(g) <==> IsLocalMaximum(g, p)
    {
      RankedPeaksMember(g, p);
    }
    RankedPeaksOrdered(g);
  }

  /** A position is ranked exactly when it is a local maximum. */
  lemma RankedPeaksMember(g: seq<real>, p: nat)
    ensures p in RankedPeaks(g) <==> IsLocalMaximum(g, p)
  {
    var peaks := LocalMaxima(g);
    var order := RankDescending(Prominences(g, peaks), |peaks|);
    var ranked := RankedPeaks(g);
    LocalMaximaExact(g, p);
    if p in peaks {
      var v :| 0 <= v < |peaks| && peaks[v] == p;
      assert v in order;
      var j :| 0 <= j < |order| && order[j] == v;
      assert ranked[j] == p;
    }
    if p in ranked {
      var j :| 0 <= j < |ranked| && ranked[j] == p;
      assert order[j] in order;
    }
  }

  /** The ranking holds no position twice and runs from the most prominent down. */
  lemma RankedPeaksOrdered(g: seq<real>)
    ensures forall a, b :: 0 <= a < b < |RankedPeaks(g)| ==> RankedPeaks(g)[a] != RankedPeaks(g)[b]
    ensures forall a, b :: 0 <= a < b < |RankedPeaks(g)| ==>
              Prominence(g, RankedPeaks(g)[a]) >= Prominence(g, RankedPeaks(g)[b])
  {
    var peaks := LocalMaxima(g);
    var prom := Prominences(g, peaks);
    var order := RankDescending(prom, |peaks|);
    var ranked := RankedPeaks(g);
    RankDescendingIsRanking(prom, |peaks|);
    forall a, b | 0 <= a < b < |ranked|
      ensures ranked[a] != ranked[b]
      ensures Prominence(g, ranked[a]) >= Prominence(g, ranked[b])
    {
      assert order[a] in order && order[b] in order;
      assert order[a] != order[b];
      assert prom[order[a]] >= prom[order[b]];
    }
  }

  /**
   * Cutting the ranking after `t` entries keeps a top-`t` set: a local maximum
   * not among the first `t` is no more prominent than any of them.
   */
  lemma RankedPeaksTop(g: seq<real>, t: nat, q: nat, j: nat)
    requires t <= |RankedPeaks(g)| && j < t
    requires IsLocalMaximum(g, q) && q !in RankedPeaks(g)[..t]
    ensures Prominence(g, q) <= Prominence(g, RankedPeaks(g)[j])
  {
    var ranked := RankedPeaks(g);
    RankedPeaksIsRanking(g);
    var v :| 0 <= v < |ranked| && ranked[v] == q;
    assert forall a :: 0 <= a < t ==> ranked[a] in ranked[..t];
  }

  /**
   * The picks guess_picks_image builds from the searched profile `g`: the
   * ranked peaks cut to `k`, shifted by `offset` and padded with NaN up to `k`
   * entries.
   */
  function RankedPicks(g: seq<real>, k: int, offset: int): (picks: seq<Option<int>>)
    ensures k >= 0 ==> |picks| == k
  {
    var ranked := RankedPeaks(g);
    var t := TakeCount(k, |ranked|);
    var chosen := seq(t, j requires 0 <= j < t => Some(ranked[j] + offset));
    if t < k then chosen + seq(k - t, _ => None) else chosen
  }

  /**
   * For `k >= 0` the picks hold the `min(k, number of peaks)` most prominent
   * peaks, shifted by `offset`, followed by NaNs; a negative `k` keeps all but
   * the last `-k` peaks of the ranking.
   */
  lemma RankedPicksShape(g: seq<real>, k: int, offset: int)
    ensures var ranked := RankedPeaks(g);
            var picks := RankedPicks(g, k, offset);
            var t := if k >= 0 then (if k < |ranked| then k else |ranked|)
                     else (if |ranked| + k > 0 then |ranked| + k else 0);
            && |picks| == (if k >= 0 then k else t)
            && (forall j :: 0 <= j < t ==> picks[j] == Some(ranked[j] + offset))
            && (forall j :: t <= j < |picks| ==> picks[j] == None)
  {
    var ranked := RankedPeaks(g);
    var picks := RankedPicks(g, k, offset);
    var t := TakeCount(k, |ranked|);
    var chosen := seq(t, j requires 0 <= j < t => Some(ranked[j] + offset));
    if t < k {
      var pad := seq(k - t, _ => None);
      assert picks == chosen + pad;
      forall j | t <= j < |picks|
        ensures picks[j] == None
      {
        assert picks[j] == pad[j - t];
      }
    } else {
      assert picks == chosen;
    }
  }

  /** What guess_picks_image returns for a 1D `image`. */
  function GuessPicksSpec(image: seq<real>, k: int, window: seq<real>): (r: Result<seq<Option<int>>, Error>)
    requires IsWindow(window, GuessWindowLength)
    ensures r.Failure? <==> k < 0 && AllZero(Clamped(image))
    ensures r.Failure? ==> r.error == NegativeDimensions
    ensures k >= 0 ==> r.Success? && |r.value| == k
  {
    var data := Clamped(image);
    if AllZero(data) then
      if k < 0 then Failure(NegativeDimensions) else Success(seq(k, _ => None))
    else
      var g := SmoothedProfile(window, data, -(GuessWindowLength - 1));
      Success(RankedPicks(g, k, GuessWindowLength - 1))
  }

  /**
   * guess_picks_image. The caller's array is only read: the search runs on a
   * copy, which is clamped in place, smoothed, rotated left by the
   * convolution growth and searched.
   */
  method GuessPicksImage(image: array<real>, objectsGuess: int, window: seq<real>)
    returns (r: Result<seq<Option<int>>, Error>)
    requires IsWindow(window, GuessWindowLength)
    ensures r == GuessPicksSpec(image[..], objectsGuess, window)
  {
    var data := new real[image.Length](k requires 0 <= k < image.Length reads image => image[k]);
    assert data[..] == image[..];
    ClampNegatives(data);
    var d := data[..];
    if AllZero(d) {
      if objectsGuess < 0 {
        return Failure(NegativeDimensions);
      }
      return Success(seq(objectsGuess, _ => None));
    }
    var growth := |window| - 1;
    var g := Smooth(window, d, -growth);
    r := Success(RankedPicks(g[..], objectsGuess, growth));
  }

  /** An all-zero profile (after clamping) gives `objects_guess` NaNs. */
  lemma GuessPicksAllZero(image: seq<real>, k: int, window: seq<real>)
    requires IsWindow(window, GuessWindowLength) && k >= 0 && AllZero(Clamped(image))
    ensures GuessPicksSpec(image, k, window) == Success(seq(k, _ => None))
  {
  }

  /**
   * guess_picks_image searches the smoothed profile rotated left by one sample
   * (`rolled[i] = filtered[(i + 1) mod len]`) and adds the one sample of growth
   * back to every pick; the rescaling factor and the final clamp play no part.
   */
  lemma GuessPicksSearchesRotatedFilter(image: seq<real>, k: int, window: seq<real>)
    requires IsWindow(window, GuessWindowLength) && !AllZero(Clamped(image))
    ensures var f := Convolve(window, Clamped(image));
            && |f| == |image| + 1
            && GuessPicksSpec(image, k, window) == Success(RankedPicks(Roll(f, -1), k, 1))
  {
    var data := Clamped(image);
    var f := Convolve(window, data);
    var c := RescaleFactor(window, data);
    ConvolveNonNegative(window, data);
    RollScale(c, f, -1);
    RollNonNegative(f, -1);
    var h := Roll(f, -1);
    ScalePreservesNonNegative(c, h);
    ClampedNonNegativeIsIdentity(Scale(c, h));
    assert SmoothedProfile(window, data, -1) == Scale(c, h);
    RankedPicksScale(c, h, k, 1);
  }

  /** The picks do not change when the searched profile is multiplied by a positive factor. */
  lemma RankedPicksScale(c: real, g: seq<real>, k: int, offset: int)
    requires c > 0.0
    ensures RankedPicks(Scale(c, g), k, offset) == RankedPicks(g, k, offset)
  {
    LocalMaximaScale(c, g);
    var peaks := LocalMaxima(g);
    var prom := Prominences(g, peaks);
    ProminencesScale(c, g, peaks);
    ScaleSameOrder(c, prom);
    RankDescendingSameOrder(prom, Scale(c, prom), |peaks|);
    assert RankedPeaks(Scale(c, g)) == RankedPeaks(g);
  }
}
