/**
 * What the two peak finders report for a profile that is zero except for one
 * positive sample, with the windows' shape: the 10-tap window of find_signal
 * rises strictly to a flat pair of middle taps and is symmetric, the 2-tap
 * window of guess_picks_image has two equal taps. Both hold for
 * `general_gaussian(M, p=1, sig=5)`.
 */
module SpikeResponse {
  import opened Types
  import opened SignalOps
  import opened PeakDetection
  import opened PeakFinders

  /** Zero everywhere except at `i`, where the sample is positive. */
  ghost predicate Spike(x: seq<real>, i: nat)
  {
    && i < |x|
    && x[i] > 0.0
    && forall k :: 0 <= k < |x| && k != i ==> x[k] == 0.0
  }

  /** A 10-tap window rising strictly to two equal middle taps, mirrored about its centre. */
  ghost predicate SymmetricUnimodal(w: seq<real>)
  {
    && IsWindow(w, FindWindowLength)
    && (forall j :: 0 <= j < 4 ==> w[j] < w[j + 1])
    && w[4] == w[5]
    && (forall j :: 0 <= j < 10 ==> w[j] == w[9 - j])
  }

  // ---------------------------------------------------------------------------
  // A single flat top is the only local maximum
  // ---------------------------------------------------------------------------

  /**
   * A profile that never falls before `l0`, is flat on `l0..r0`, never rises
   * after `r0` and drops on both sides of the flat top has exactly one local
   * maximum, the middle of that top.
   */
  lemma OnlyPlateau(x: seq<real>, l0: int, r0: int)
    requires 1 <= l0 <= r0 <= |x| - 2
    requires forall t :: 0 <= t < l0 ==> x[t] <= x[t + 1]
    requires forall t :: l0 <= t <= r0 ==> x[t] == x[l0]
    requires forall t :: r0 < t < |x| ==> x[t] <= x[t - 1]
    requires x[l0 - 1] < x[l0] && x[r0 + 1] < x[l0]
    ensures forall p :: IsLocalMaximum(x, p) <==> p == (l0 + r0) / 2
  {
    assert PlateauPeak(x, l0, r0);
    forall p | IsLocalMaximum(x, p)
      ensures p == (l0 + r0) / 2
    {
      var l, r :| PlateauPeak(x, l, r) && p == (l + r) / 2;
      PlateauIsTheTop(x, l0, r0, l, r);
    }
  }

  lemma PlateauIsTheTop(x: seq<real>, l0: int, r0: int, l: int, r: int)
    requires 1 <= l0 <= r0 <= |x| - 2
    requires forall t :: 0 <= t < l0 ==> x[t] <= x[t + 1]
    requires forall t :: l0 <= t <= r0 ==> x[t] == x[l0]
    requires forall t :: r0 < t < |x| ==> x[t] <= x[t - 1]
    requires x[l0 - 1] < x[l0] && x[r0 + 1] < x[l0]
    ensures PlateauPeak(x, l, r) ==> l == l0 && r == r0
  {
    if 1 <= l <= r <= |x| - 2 {
      // A top ending before l0 is followed by a sample no lower; one reaching
      // over l0 - 1 would take in the rise into l0.
      if r < l0 {
        assert x[r] <= x[r + 1];
      } else if l < l0 {
        assert x[l0 - 1] < x[l0];
      }
      // A top starting right of l0 has no rise before it.
      if l > r0 {
        assert x[l] <= x[l - 1];
      } else if l0 < l {
        assert x[l - 1] == x[l0];
      }
      // A top from l0 can end neither inside the flat stretch nor past it.
      if l == l0 && r < r0 {
        assert x[r + 1] == x[l0];
      } else if l == l0 && r > r0 {
        assert x[r0 + 1] < x[l0];
      }
    }
  }

  // ---------------------------------------------------------------------------
  // Convolving a spike
  // ---------------------------------------------------------------------------

  lemma {:induction false} ConvSumSpike(w: seq<real>, x: seq<real>, i: nat, k: int, j: nat)
    requires j <= |w| && Spike(x, i)
    ensures ConvSum(w, x, k, j) == if 0 <= k - i < j then w[k - i] * x[i] else 0.0
  {
    if j > 0 {
      ConvSumSpike(w, x, i, k, j - 1);
    }
  }

  /** Full convolution with a spike copies the window, scaled by the spike, to the spike's position. */
  lemma ConvolveSpike(w: seq<real>, x: seq<real>, i: nat)
    requires |w| >= 1 && Spike(x, i)
    ensures Bump(Convolve(w, x), w, x[i], i)
  {
    forall k | 0 <= k < |Convolve(w, x)|
      ensures Convolve(w, x)[k] == if i <= k < i + |w| then w[k - i] * x[i] else 0.0
    {
      ConvSumSpike(w, x, i, k, |w|);
    }
  }

  // ---------------------------------------------------------------------------
  // find_signal
  // ---------------------------------------------------------------------------

  /** `f` is the window, scaled by `a > 0`, placed at `i` in a zero profile. */
  ghost predicate Bump(f: seq<real>, w: seq<real>, a: real, i: nat)
  {
    && a > 0.0
    && i + |w| <= |f|
    && forall k :: 0 <= k < |f| ==> f[k] == if i <= k < i + |w| then w[k - i] * a else 0.0
  }

  lemma BumpRises(f: seq<real>, w: seq<real>, a: real, i: nat, t: nat)
    requires SymmetricUnimodal(w) && Bump(f, w, a, i) && t < i + 4
    ensures f[t] <= f[t + 1]
  {
    if t >= i {
      ScaleComparison(a, w[t - i], w[t + 1 - i]);
    } else if t + 1 == i {
      ProductNonNegative(w[0], a);
    }
  }

  lemma BumpFalls(f: seq<real>, w: seq<real>, a: real, i: nat, t: nat)
    requires SymmetricUnimodal(w) && Bump(f, w, a, i) && i + 5 < t < |f|
    ensures f[t] <= f[t - 1]
  {
    if t < i + 10 {
      var j := t - i;
      assert w[j] == w[9 - j] && w[j - 1] == w[9 - (j - 1)];
      assert w[9 - j] < w[9 - j + 1];
      ScaleComparison(a, w[j], w[j - 1]);
    } else if t == i + 10 {
      ProductNonNegative(w[9], a);
    }
  }

  /** The window placed at `i` has its only local maximum at `i + 4`, the lower middle of its flat top. */
  lemma BumpPeak(f: seq<real>, w: seq<real>, a: real, i: nat)
    requires SymmetricUnimodal(w) && Bump(f, w, a, i)
    ensures forall p :: IsLocalMaximum(f, p) <==> p == i + 4
  {
    forall t | 0 <= t < i + 4
      ensures f[t] <= f[t + 1]
    {
      BumpRises(f, w, a, i, t);
    }
    forall t | i + 5 < t < |f|
      ensures f[t] <= f[t - 1]
    {
      BumpFalls(f, w, a, i, t);
    }
    ScaleComparison(a, w[3], w[4]);
    assert w[6] == w[3];
    OnlyPlateau(f, i + 4, i + 5);
  }

  /** Clamping and band masking leave a spike outside the excluded bands as it is. */
  lemma WorkingSignalOfSpike(data: seq<real>, i: nat)
    requires Spike(data, i)
    requires |data| > BandThreshold ==> !InExcludedBand(i)
    ensures WorkingSignal(data) == data
  {
    var m := WorkingSignal(data);
    forall k | 0 <= k < |data|
      ensures m[k] == data[k]
    {
      if k != i {
        assert data[k] == 0.0;
      }
    }
  }

  /**
   * For a spike at `i` and a symmetric unimodal window, find_signal returns
   * `i - 5`: the smoothed spike peaks 4 samples after `i` (the lower of the two
   * equal middle taps) and 9 samples of growth are taken off.
   */
  lemma FindSignalSpike(data: seq<real>, window: seq<real>, i: nat)
    requires SymmetricUnimodal(window) && Spike(data, i)
    requires !(BandThreshold < |data| < 1000)
    requires |data| > BandThreshold ==> !InExcludedBand(i)
    ensures FindSignalSpec(data, window) == Success(Some(i - 5))
  {
    WorkingSignalOfSpike(data, i);
    assert !AllZero(data);
    FindSignalSearchesFiltered(data, window);
    SpikeFilteredPeak(data, window, i);
  }

  /**
   * With the index taken back by the window's centre offset instead of the
   * full growth, the spike is reported at its own index.
   */
  lemma FindSignalCentredSpike(data: seq<real>, window: seq<real>, i: nat)
    requires SymmetricUnimodal(window) && Spike(data, i)
    requires !(BandThreshold < |data| < 1000)
    requires |data| > BandThreshold ==> !InExcludedBand(i)
    ensures FindSignalCentredSpec(data, window) == Success(Some(i))
  {
    FindSignalSpike(data, window, i);
    FindSignalCentredShift(data, window);
  }

  /** The filtered spike's most prominent peak is its only local maximum, `i + 4`. */
  lemma SpikeFilteredPeak(data: seq<real>, window: seq<real>, i: nat)
    requires SymmetricUnimodal(window) && Spike(data, i)
    ensures MostProminent(Convolve(window, data)) == Some(i + 4)
  {
    var f := Convolve(window, data);
    ConvolveSpike(window, data, i);
    BumpPeak(f, window, data[i], i);
    SingleMaximumIsMostProminent(f, i + 4);
  }

  /** A profile with a single local maximum has it as its most prominent peak. */
  lemma SingleMaximumIsMostProminent(f: seq<real>, q: nat)
    requires forall p :: IsLocalMaximum(f, p) <==> p == q
    ensures MostProminent(f) == Some(q)
  {
    LocalMaximaExact(f, q);
    var best := MostProminent(f);
    LocalMaximaExact(f, best.value);
  }

  // ---------------------------------------------------------------------------
  // guess_picks_image
  // ---------------------------------------------------------------------------

  /** The rotated, smoothed spike has its only local maximum one sample before the spike. */
  lemma GuessPicksSpikeProfile(w: seq<real>, m: seq<real>, i: nat)
    requires IsWindow(w, GuessWindowLength) && w[0] == w[1]
    requires Spike(m, i) && 2 <= i <= |m| - 1
    ensures forall p :: IsLocalMaximum(Roll(Convolve(w, m), -1), p) <==> p == i - 1
  {
    var f := Convolve(w, m);
    var h := Roll(f, -1);
    var a := m[i];
    ConvolveSpike(w, m, i);
    ProductPositive(w[0], a);
    forall t | 0 <= t < |h|
      ensures h[t] == if t == i - 1 || t == i then w[0] * a else 0.0
    {
      RollLeftOne(f, t);
    }
    OnlyPlateau(h, i - 1, i);
  }

  /** A single local maximum gives a ranking of one peak. */
  lemma SinglePeakRanking(h: seq<real>, q: nat)
    requires forall p :: IsLocalMaximum(h, p) <==> p == q
    ensures RankedPeaks(h) == [q]
  {
    var ranked := RankedPeaks(h);
    RankedPeaksIsRanking(h);
    assert q in ranked;
    assert forall a :: 0 <= a < |ranked| ==> ranked[a] in ranked;
    FirstTwoEqual(ranked, q);
  }

  lemma FirstTwoEqual(s: seq<nat>, q: nat)
    requires forall a :: 0 <= a < |s| ==> s[a] == q
    ensures |s| >= 2 ==> s[0] == s[1]
  {
  }

  /** `k` picks holding `p` and then NaNs. */
  function OnePick(p: int, k: int): (picks: seq<Option<int>>)
    requires k >= 1
    ensures |picks| == k && picks[0] == Some(p)
    ensures forall j :: 1 <= j < k ==> picks[j] == None
  {
    [Some(p)] + seq(k - 1, _ => None)
  }

  /** A ranking of one peak gives that peak, shifted, then NaNs. */
  lemma SinglePeakPicks(h: seq<real>, q: nat, k: int, offset: int)
    requires RankedPeaks(h) == [q] && k >= 1
    ensures RankedPicks(h, k, offset) == OnePick(q + offset, k)
  {
    RankedPicksShape(h, k, offset);
  }

  /**
   * A spike at index 0 or 1 leaves no local maximum after the left rotation:
   * its two equal taps land at indices 0 and 1, or at `n` and 0, and a flat
   * top must start at index 1 or later and end before the last index.
   */
  lemma EdgeSpikeProfile(w: seq<real>, m: seq<real>, i: nat)
    requires IsWindow(w, GuessWindowLength) && w[0] == w[1]
    requires Spike(m, i) && i <= 1
    ensures forall p :: !IsLocalMaximum(Roll(Convolve(w, m), -1), p)
  {
    var h := Roll(Convolve(w, m), -1);
    EdgeSpikeRotated(w, m, i);
    NoTopAtEdge(h, w[0] * m[i], i);
  }

  /** The rotated, smoothed edge spike: the two equal taps at 0 and 1, or at 0 and `n`. */
  lemma EdgeSpikeRotated(w: seq<real>, m: seq<real>, i: nat)
    requires IsWindow(w, GuessWindowLength) && w[0] == w[1]
    requires Spike(m, i) && i <= 1
    ensures w[0] * m[i] > 0.0
    ensures var h := Roll(Convolve(w, m), -1);
            && |h| == |m| + 1
            && forall t :: 0 <= t < |h| ==>
                 h[t] == if t == 0 || (i == 1 && t == 1) || (i == 0 && t == |m|) then w[0] * m[i] else 0.0
  {
    var h := Roll(Convolve(w, m), -1);
    ProductPositive(w[0], m[i]);
    forall t | 0 <= t < |h|
      ensures h[t] == if t == 0 || (i == 1 && t == 1) || (i == 0 && t == |m|) then w[0] * m[i] else 0.0
    {
      EdgeSpikeRotatedAt(w, m, i, t);
    }
  }

  lemma EdgeSpikeRotatedAt(w: seq<real>, m: seq<real>, i: nat, t: nat)
    requires IsWindow(w, GuessWindowLength) && w[0] == w[1]
    requires Spike(m, i) && i <= 1 && t <= |m|
    ensures Roll(Convolve(w, m), -1)[t]
         == if t == 0 || (i == 1 && t == 1) || (i == 0 && t == |m|) then w[0] * m[i] else 0.0
  {
    var f := Convolve(w, m);
    RollLeftOne(f, t);
    var k := if t + 1 < |f| then t + 1 else 0;
    assert Roll(f, -1)[t] == f[k];
    ConvSumSpike(w, m, i, k, |w|);
    assert f[k] == if i <= k < i + 2 then w[k - i] * m[i] else 0.0;
    assert (t == 0 || (i == 1 && t == 1) || (i == 0 && t == |m|)) <==> i <= k < i + 2;
  }

  /**
   * A profile that is `c > 0` at index 0 and at one of 1 or its last index,
   * and 0 elsewhere, has no flat top with a lower sample on both sides.
   */
  lemma NoTopAtEdge(h: seq<real>, c: real, i: nat)
    requires c > 0.0 && i <= 1 && |h| >= 2
    requires forall t :: 0 <= t < |h| ==>
               h[t] == if t == 0 || (i == 1 && t == 1) || (i == 0 && t == |h| - 1) then c else 0.0
    ensures forall p :: !IsLocalMaximum(h, p)
  {
  }

  /** A profile with no local maximum gives `k` NaNs. */
  lemma NoMaximumPicks(h: seq<real>, k: int, offset: int)
    requires forall p :: !IsLocalMaximum(h, p)
    requires k >= 0
    ensures |RankedPicks(h, k, offset)| == k
    ensures forall j :: 0 <= j < k ==> RankedPicks(h, k, offset)[j] == None
  {
    if |LocalMaxima(h)| > 0 {
      LocalMaximaExact(h, LocalMaxima(h)[0]);
    }
    RankedPicksShape(h, k, offset);
  }

  /**
   * For a spike at index 0 or 1 and two equal taps, guess_picks_image finds no
   * peak and returns `objects_guess` NaNs: the spike is lost.
   */
  lemma GuessPicksEdgeSpike(image: seq<real>, k: int, window: seq<real>, i: nat)
    requires IsWindow(window, GuessWindowLength) && window[0] == window[1]
    requires Spike(image, i) && i <= 1 && k >= 0
    ensures var r := GuessPicksSpec(image, k, window);
            && r.Success? && |r.value| == k
            && forall j :: 0 <= j < k ==> r.value[j] == None
  {
    ClampedNonNegativeIsIdentity(image);
    assert Clamped(image)[i] > 0.0;
    GuessPicksSearchesRotatedFilter(image, k, window);
    EdgeSpikeProfile(window, image, i);
    NoMaximumPicks(Roll(Convolve(window, image), -1), k, 1);
  }

  /**
   * For a spike at `i` (index 2 or later) and two equal taps,
   * guess_picks_image reports exactly `i`, followed by NaNs.
   */
  lemma GuessPicksSpike(image: seq<real>, k: int, window: seq<real>, i: nat)
    requires IsWindow(window, GuessWindowLength) && window[0] == window[1]
    requires Spike(image, i) && 2 <= i <= |image| - 1 && k >= 1
    ensures GuessPicksSpec(image, k, window) == Success(OnePick(i, k))
  {
    ClampedNonNegativeIsIdentity(image);
    assert Clamped(image)[i] > 0.0;
    GuessPicksSearchesRotatedFilter(image, k, window);
    SpikeRotatedPicks(image, k, window, i);
  }

  /** The picks of the rotated, smoothed spike: the spike's own index, then NaNs. */
  lemma SpikeRotatedPicks(image: seq<real>, k: int, window: seq<real>, i: nat)
    requires IsWindow(window, GuessWindowLength) && window[0] == window[1]
    requires Spike(image, i) && 2 <= i <= |image| - 1 && k >= 1
    ensures RankedPicks(Roll(Convolve(window, Clamped(image)), -1), k, 1) == OnePick(i, k)
  {
    ClampedNonNegativeIsIdentity(image);
    var h := Roll(Convolve(window, image), -1);
    GuessPicksSpikeProfile(window, image, i);
    SinglePeakRanking(h, i - 1);
    SinglePeakPicks(h, i - 1, k, 1);
  }
}
