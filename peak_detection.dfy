/**
 * The peak-detection routines that the peak finders take from the numeric
 * runtime, written out from their documented definitions:
 * `scipy.signal.find_peaks` (local maxima, a flat top reported at its middle),
 * `scipy.signal.peak_prominences`, `np.argmax` and the descending ranking
 * `np.argsort(p)[::-1]`.
 */
module PeakDetection {
  import opened Types
  import opened SignalOps

  function Min(a: real, b: real): real { if a <= b then a else b }

  function Max(a: real, b: real): real { if a >= b then a else b }

  // ---------------------------------------------------------------------------
  // Local maxima (find_peaks without any condition)
  // ---------------------------------------------------------------------------

  /**
   * `x[l..r]` is a flat top: every sample equals `x[l]`, the sample before it
   * is strictly lower and so is the sample after it; neither end sample of the
   * signal belongs to it.
   */
  ghost predicate PlateauPeak(x: seq<real>, l: int, r: int)
  {
    && 1 <= l <= r <= |x| - 2
    && x[l - 1] < x[l]
    && x[r + 1] < x[l]
    && forall t :: l <= t <= r ==> x[t] == x[l]
  }

  /** `p` is where find_peaks reports a peak: the middle (rounded down) of a flat top. */
  ghost predicate IsLocalMaximum(x: seq<real>, p: int)
  {
    exists l, r :: PlateauPeak(x, l, r) && p == (l + r) / 2
  }

  /**
   * The scan that looks ahead from `i` over samples equal to `x[i]`, starting
   * at `j`; it stops at the last sample or at the first sample that differs.
   */
  function PlateauEnd(x: seq<real>, i: nat, j: nat): (e: nat)
    requires 1 <= i < j <= |x| - 1
    requires forall t :: i <= t < j ==> x[t] == x[i]
    ensures j <= e <= |x| - 1
    ensures forall t :: i <= t < e ==> x[t] == x[i]
    ensures e == |x| - 1 || x[e] != x[i]
    decreases |x| - j
  {
    if j < |x| - 1 && x[j] == x[i] then PlateauEnd(x, i, j + 1) else j
  }

  /**
   * The left-to-right scan of find_peaks from index `i`: a rise into `x[i]`
   * followed by a flat stretch that then falls is reported at its middle and
   * the scan resumes after it; otherwise the scan moves on by one sample.
   */
  function PeaksFrom(x: seq<real>, i: nat): (peaks: seq<nat>)
    requires i >= 1
    ensures forall k :: 0 <= k < |peaks| ==> i <= peaks[k] <= |x| - 2
    decreases |x| - i
  {
    if i + 1 >= |x| then []
    else if x[i - 1] < x[i] then
      var e := PlateauEnd(x, i, i + 1);
      if x[e] < x[i] then [(i + e - 1) / 2] + PeaksFrom(x, e + 1)
      else PeaksFrom(x, i + 1)
    else PeaksFrom(x, i + 1)
  }

  /** `find_peaks(x)[0]`: the indices of all local maxima, in increasing order. */
  function LocalMaxima(x: seq<real>): (peaks: seq<nat>)
    ensures forall k :: 0 <= k < |peaks| ==> 1 <= peaks[k] <= |x| - 2
    ensures forall a, b :: 0 <= a < b < |peaks| ==> peaks[a] < peaks[b]
  {
    PeaksFromIncreasing(x, 1);
    PeaksFrom(x, 1)
  }

  /** The scan reports its peaks from left to right, each once. */
  lemma {:induction false} PeaksFromIncreasing(x: seq<real>, i: nat)
    requires i >= 1
    ensures forall a, b :: 0 <= a < b < |PeaksFrom(x, i)| ==> PeaksFrom(x, i)[a] < PeaksFrom(x, i)[b]
    decreases |x| - i
  {
    if i + 1 < |x| {
      if x[i - 1] < x[i] && x[PlateauEnd(x, i, i + 1)] < x[i] {
        var e := PlateauEnd(x, i, i + 1);
        PeaksFromIncreasing(x, e + 1);
        PeaksFromReports(x, i);
      } else {
        PeaksFromIncreasing(x, i + 1);
        PeaksFromSkips(x, i);
      }
    }
  }

  lemma {:induction false} PeaksFromSound(x: seq<real>, i: nat, p: int)
    requires i >= 1 && p in PeaksFrom(x, i)
    ensures IsLocalMaximum(x, p)
    decreases |x| - i
  {
    if i + 1 >= |x| {
    } else if x[i - 1] < x[i] {
      var e := PlateauEnd(x, i, i + 1);
      if x[e] < x[i] {
        if p == (i + e - 1) / 2 {
          assert PlateauPeak(x, i, e - 1);
        } else {
          PeaksFromSound(x, e + 1, p);
        }
      } else {
        PeaksFromSound(x, i + 1, p);
      }
    } else {
      PeaksFromSound(x, i + 1, p);
    }
  }

  /** On a flat top `x[l..r]` the look-ahead from `l` stops right after `r`. */
  lemma {:induction false} PlateauEndOfPeak(x: seq<real>, l: int, r: int, j: nat)
    requires PlateauPeak(x, l, r) && l < j <= r + 1
    ensures PlateauEnd(x, l, j) == r + 1
    decreases r + 1 - j
  {
    if j <= r {
      PlateauEndOfPeak(x, l, r, j + 1);
    }
  }

  /** A flat top cannot start inside, or right after, a stretch that the scan has just reported and skipped. */
  lemma PeakStartsAfterPlateau(x: seq<real>, i: nat, e: nat, l: int, r: int)
    requires 1 <= i < e <= |x| - 1 && forall t :: i <= t < e ==> x[t] == x[i]
    requires x[e] < x[i] && PlateauPeak(x, l, r) && i < l
    ensures e + 1 <= l
  {
  }

  /** A rise into `x[i]` whose flat stretch then falls is reported, and the scan resumes after the stretch. */
  lemma PeaksFromReports(x: seq<real>, i: nat)
    requires 1 <= i && i + 1 < |x| && x[i - 1] < x[i]
    requires x[PlateauEnd(x, i, i + 1)] < x[i]
    ensures var e := PlateauEnd(x, i, i + 1);
            PeaksFrom(x, i) == [(i + e - 1) / 2] + PeaksFrom(x, e + 1)
  {
  }

  /** Otherwise the scan moves on by one sample. */
  lemma PeaksFromSkips(x: seq<real>, i: nat)
    requires 1 <= i && i + 1 < |x|
    requires !(x[i - 1] < x[i] && x[PlateauEnd(x, i, i + 1)] < x[i])
    ensures PeaksFrom(x, i) == PeaksFrom(x, i + 1)
  {
  }

  lemma SkipKeeps(x: seq<real>, i: nat, v: nat)
    requires 1 <= i && i + 1 < |x|
    requires !(x[i - 1] < x[i] && x[PlateauEnd(x, i, i + 1)] < x[i])
    requires v in PeaksFrom(x, i + 1)
    ensures v in PeaksFrom(x, i)
  {
    PeaksFromSkips(x, i);
  }

  /** A reported stretch's middle is among the peaks from `i`. */
  lemma ReportAdds(x: seq<real>, i: nat)
    requires 1 <= i && i + 1 < |x| && x[i - 1] < x[i]
    requires x[PlateauEnd(x, i, i + 1)] < x[i]
    ensures (i + PlateauEnd(x, i, i + 1) - 1) / 2 in PeaksFrom(x, i)
  {
    var e := PlateauEnd(x, i, i + 1);
    PeaksFromReports(x, i);
    assert (i + e - 1) / 2 in [(i + e - 1) / 2] + PeaksFrom(x, e + 1);
  }

  /** A peak found after a reported stretch is among the peaks from `i`. */
  lemma ReportKeeps(x: seq<real>, i: nat, v: nat)
    requires 1 <= i && i + 1 < |x| && x[i - 1] < x[i]
    requires x[PlateauEnd(x, i, i + 1)] < x[i]
    requires v in PeaksFrom(x, PlateauEnd(x, i, i + 1) + 1)
    ensures v in PeaksFrom(x, i)
  {
    var e := PlateauEnd(x, i, i + 1);
    PeaksFromReports(x, i);
    assert v in [(i + e - 1) / 2] + PeaksFrom(x, e + 1);
  }

  lemma {:induction false} PeaksFromComplete(x: seq<real>, i: nat, l: int, r: int)
    requires 1 <= i <= l && PlateauPeak(x, l, r)
    ensures (l + r) / 2 in PeaksFrom(x, i)
    decreases |x| - i
  {
    if i == l {
      PlateauEndOfPeak(x, l, r, l + 1);
      ReportAdds(x, l);
    } else if x[i - 1] < x[i] && x[PlateauEnd(x, i, i + 1)] < x[i] {
      var e := PlateauEnd(x, i, i + 1);
      PeakStartsAfterPlateau(x, i, e, l, r);
      PeaksFromComplete(x, e + 1, l, r);
      ReportKeeps(x, i, (l + r) / 2);
    } else {
      PeaksFromComplete(x, i + 1, l, r);
      SkipKeeps(x, i, (l + r) / 2);
    }
  }

  /** find_peaks reports exactly the middles of the flat tops: nothing else and nothing missed. */
  lemma LocalMaximaExact(x: seq<real>, p: int)
    ensures p in LocalMaxima(x) <==> IsLocalMaximum(x, p)
  {
    if p in LocalMaxima(x) {
      PeaksFromSound(x, 1, p);
    }
    if IsLocalMaximum(x, p) {
      var l, r :| PlateauPeak(x, l, r) && p == (l + r) / 2;
      PeaksFromComplete(x, 1, l, r);
    }
  }

  /** A sample strictly above both neighbours is always reported; the end samples never are. */
  lemma StrictMaximumIsReported(x: seq<real>, p: int)
    requires 1 <= p <= |x| - 2 && x[p - 1] < x[p] && x[p + 1] < x[p]
    ensures p in LocalMaxima(x)
  {
    assert PlateauPeak(x, p, p);
    PeaksFromComplete(x, 1, p, p);
  }

  // ---------------------------------------------------------------------------
  // Prominence (peak_prominences with no window length)
  // ---------------------------------------------------------------------------

  /** Every sample of `x[t..i]` is at most `h`. */
  ghost predicate NotAbove(x: seq<real>, h: real, t: int, i: int)
    requires 0 <= t && i < |x|
  {
    forall u :: t <= u <= i ==> x[u] <= h
  }

  /**
   * The lowest sample met when walking left from `i` while samples stay at or
   * below `h`; `h` itself when the walk meets nothing.
   */
  function LeftBaseMin(x: seq<real>, h: real, i: int): (m: real)
    requires -1 <= i < |x|
    ensures m <= h
    decreases i + 1
  {
    if i < 0 || x[i] > h then h else Min(x[i], LeftBaseMin(x, h, i - 1))
  }

  /** The same walk to the right from `i`. */
  function RightBaseMin(x: seq<real>, h: real, i: int): (m: real)
    requires 0 <= i <= |x|
    ensures m <= h
    decreases |x| - i
  {
    if i >= |x| || x[i] > h then h else Min(x[i], RightBaseMin(x, h, i + 1))
  }

  /**
   * The left walk's result is the minimum of the stretch it covers: it is no
   * larger than any sample of that stretch and is either `h` or one of them.
   */
  lemma {:induction false} LeftBaseMinIsMinimum(x: seq<real>, h: real, i: int)
    requires -1 <= i < |x|
    ensures forall t :: 0 <= t <= i && NotAbove(x, h, t, i) ==> LeftBaseMin(x, h, i) <= x[t]
    ensures LeftBaseMin(x, h, i) == h
         || exists t :: 0 <= t <= i && NotAbove(x, h, t, i) && LeftBaseMin(x, h, i) == x[t]
    decreases i + 1
  {
    if i >= 0 && x[i] <= h {
      LeftBaseMinIsMinimum(x, h, i - 1);
      forall t | 0 <= t <= i && NotAbove(x, h, t, i)
        ensures LeftBaseMin(x, h, i) <= x[t]
      {
        if t < i {
          assert NotAbove(x, h, t, i - 1);
        }
      }
      var m := LeftBaseMin(x, h, i);
      if m == x[i] {
        assert NotAbove(x, h, i, i);
      } else if m != h {
        var t :| 0 <= t <= i - 1 && NotAbove(x, h, t, i - 1) && LeftBaseMin(x, h, i - 1) == x[t];
        assert NotAbove(x, h, t, i);
      }
    }
  }

  /**
   * The right walk's result is the minimum of the stretch it covers: it is no
   * larger than any sample of that stretch and is either `h` or one of them.
   */
  lemma {:induction false} RightBaseMinIsMinimum(x: seq<real>, h: real, i: int)
    requires 0 <= i <= |x|
    ensures forall t :: i <= t < |x| && NotAbove(x, h, i, t) ==> RightBaseMin(x, h, i) <= x[t]
    ensures RightBaseMin(x, h, i) == h
         || exists t :: i <= t < |x| && NotAbove(x, h, i, t) && RightBaseMin(x, h, i) == x[t]
    decreases |x| - i
  {
    if i < |x| && x[i] <= h {
      RightBaseMinIsMinimum(x, h, i + 1);
      forall t | i <= t < |x| && NotAbove(x, h, i, t)
        ensures RightBaseMin(x, h, i) <= x[t]
      {
        if t > i {
          assert NotAbove(x, h, i + 1, t);
        }
      }
      var m := RightBaseMin(x, h, i);
      if m == x[i] {
        assert NotAbove(x, h, i, i);
      } else if m != h {
        var t :| i + 1 <= t < |x| && NotAbove(x, h, i + 1, t) && RightBaseMin(x, h, i + 1) == x[t];
        assert NotAbove(x, h, i, t);
      }
    }
  }

  /**
   * `peak_prominences(x, [p])[0]`: the height of `x[p]` above the higher of the
   * two bases, each the lowest sample on its side before a higher sample or
   * the edge of the signal.
   */
  function Prominence(x: seq<real>, p: nat): (r: real)
    requires p < |x|
    ensures r >= 0.0
  {
    x[p] - Max(LeftBaseMin(x, x[p], p), RightBaseMin(x, x[p], p))
  }

  /**
   * The prominence is the peak's height above the higher of its two bases:
   * no more than the height above either base, and equal to one of them.
   */
  lemma ProminenceAboveHigherBase(x: seq<real>, p: nat)
    requires p < |x|
    ensures Prominence(x, p) <= x[p] - LeftBaseMin(x, x[p], p)
    ensures Prominence(x, p) <= x[p] - RightBaseMin(x, x[p], p)
    ensures Prominence(x, p) == x[p] - LeftBaseMin(x, x[p], p)
         || Prominence(x, p) == x[p] - RightBaseMin(x, x[p], p)
  {
  }

  lemma {:induction false} LeftBaseMinNonNegative(x: seq<real>, h: real, i: int)
    requires -1 <= i < |x| && NonNegative(x) && h >= 0.0
    ensures LeftBaseMin(x, h, i) >= 0.0
    decreases i + 1
  {
    if i >= 0 && x[i] <= h {
      LeftBaseMinNonNegative(x, h, i - 1);
    }
  }

  lemma {:induction false} RightBaseMinNonNegative(x: seq<real>, h: real, i: int)
    requires 0 <= i <= |x| && NonNegative(x) && h >= 0.0
    ensures RightBaseMin(x, h, i) >= 0.0
    decreases |x| - i
  {
    if i < |x| && x[i] <= h {
      RightBaseMinNonNegative(x, h, i + 1);
    }
  }

  /** On a non-negative signal a peak's prominence never exceeds its height. */
  lemma ProminenceAtMostHeight(x: seq<real>, p: nat)
    requires p < |x| && NonNegative(x)
    ensures 0.0 <= Prominence(x, p) <= x[p]
  {
    LeftBaseMinNonNegative(x, x[p], p);
  }

  /** The prominences of a list of peak indices. */
  function Prominences(x: seq<real>, peaks: seq<nat>): (r: seq<real>)
    requires forall k :: 0 <= k < |peaks| ==> peaks[k] < |x|
    ensures |r| == |peaks|
    ensures forall k :: 0 <= k < |r| ==> r[k] >= 0.0
  {
    seq(|peaks|, k requires 0 <= k < |peaks| => Prominence(x, peaks[k]))
  }

  // ---------------------------------------------------------------------------
  // argmax
  // ---------------------------------------------------------------------------

  /** `np.argmax(s)`: the first index holding the largest value. */
  function ArgMax(s: seq<real>): (r: nat)
    requires |s| > 0
    ensures r < |s|
    ensures forall j :: 0 <= j < |s| ==> s[j] <= s[r]
    ensures forall j :: 0 <= j < r ==> s[j] < s[r]
  {
    if |s| == 1 then 0
    else
      var k := ArgMax(s[..|s| - 1]);
      if s[k] < s[|s| - 1] then |s| - 1 else k
  }

  /**
   * The peak that `peaks[np.argmax(peak_prominences(x, peaks)[0])]` selects,
   * or `None` when find_peaks reports nothing.
   */
  function MostProminent(x: seq<real>): (r: Option<nat>)
    ensures r.None? <==> LocalMaxima(x) == []
    ensures r.Some? ==> r.value in LocalMaxima(x)
  {
    var peaks := LocalMaxima(x);
    if |peaks| == 0 then None else Some(peaks[ArgMax(Prominences(x, peaks))])
  }

  /**
   * `p` is a local maximum whose prominence no local maximum exceeds, and every
   * local maximum left of it is strictly less prominent: ties go to the first.
   */
  ghost predicate IsFirstMostProminent(x: seq<real>, p: nat)
  {
    && p < |x|
    && IsLocalMaximum(x, p)
    && (forall q: nat :: q < |x| && IsLocalMaximum(x, q) ==> Prominence(x, q) <= Prominence(x, p))
    && (forall q: nat :: q < p && IsLocalMaximum(x, q) ==> Prominence(x, q) < Prominence(x, p))
  }

  /** The selected peak is the first local maximum of largest prominence; none is selected only when there is no local maximum. */
  lemma MostProminentIsFirstMaximal(x: seq<real>)
    ensures MostProminent(x).Some? ==> IsFirstMostProminent(x, MostProminent(x).value)
    ensures MostProminent(x).None? <==> forall p :: !IsLocalMaximum(x, p)
  {
    var peaks := LocalMaxima(x);
    if |peaks| == 0 {
      forall p ensures !IsLocalMaximum(x, p) {
        LocalMaximaExact(x, p);
      }
    } else {
      var prom := Prominences(x, peaks);
      var k := ArgMax(prom);
      var p := peaks[k];
      assert MostProminent(x) == Some(p);
      LocalMaximaExact(x, p);
      forall q: nat | q < |x| && IsLocalMaximum(x, q)
        ensures Prominence(x, q) <= Prominence(x, p)
        ensures q < p ==> Prominence(x, q) < Prominence(x, p)
      {
        ArgMaxBeatsPeak(x, q);
      }
    }
  }

  /** The selected peak is at least as prominent as any local maximum, and more prominent than those left of it. */
  lemma ArgMaxBeatsPeak(x: seq<real>, q: nat)
    requires q < |x| && IsLocalMaximum(x, q)
    ensures LocalMaxima(x) != []
    ensures var peaks := LocalMaxima(x);
            var p := peaks[ArgMax(Prominences(x, peaks))];
            && Prominence(x, q) <= Prominence(x, p)
            && (q < p ==> Prominence(x, q) < Prominence(x, p))
  {
    var peaks := LocalMaxima(x);
    LocalMaximaExact(x, q);
    var kq :| 0 <= kq < |peaks| && peaks[kq] == q;
    var prom := Prominences(x, peaks);
    var k := ArgMax(prom);
    assert prom[kq] == Prominence(x, q);
    assert prom[k] == Prominence(x, peaks[k]);
    assert q < peaks[k] ==> kq < k;
  }

  // ---------------------------------------------------------------------------
  // Descending ranking (np.argsort(key)[::-1])
  // ---------------------------------------------------------------------------

  ghost predicate Distinct(order: seq<nat>)
  {
    forall a, b :: 0 <= a < b < |order| ==> order[a] != order[b]
  }

  /** `order` lists indices of `key` from the largest key down (ties in any order). */
  ghost predicate RankedDescending(key: seq<real>, order: seq<nat>)
  {
    && (forall t :: 0 <= t < |order| ==> order[t] < |key|)
    && (forall a, b :: 0 <= a < b < |order| && order[a] < |key| && order[b] < |key| ==> key[order[a]] >= key[order[b]])
  }

  /**
   * Places index `i` into a ranking, before the first index whose key is not
   * larger than `key[i]`; since indices are inserted in increasing order,
   * equal keys end up with the later index first, as a stable ascending sort
   * read backwards gives.
   */
  function InsertRanked(key: seq<real>, i: nat, order: seq<nat>): (r: seq<nat>)
    requires i < |key| && forall t :: 0 <= t < |order| ==> order[t] < |key|
    ensures |r| == |order| + 1
    ensures forall t :: 0 <= t < |r| ==> r[t] < |key|
    ensures forall v: nat :: v in r <==> v == i || v in order
  {
    if |order| == 0 || key[order[0]] <= key[i] then [i] + order
    else [order[0]] + InsertRanked(key, i, order[1..])
  }

  /** The indices `0 .. n-1` of `key`, ranked by descending key. */
  function RankDescending(key: seq<real>, n: nat): (order: seq<nat>)
    requires n <= |key|
    ensures |order| == n
    ensures forall v: nat :: v in order <==> v < n
  {
    if n == 0 then [] else InsertRanked(key, n - 1, RankDescending(key, n - 1))
  }

  /** Putting `i` in front of a ranking whose keys are all at most `key[i]` keeps it ranked and duplicate-free. */
  lemma PrependRanked(key: seq<real>, i: nat, order: seq<nat>)
    requires i < |key| && RankedDescending(key, order)
    requires i !in order && Distinct(order)
    requires forall t :: 0 <= t < |order| ==> key[order[t]] <= key[i]
    ensures RankedDescending(key, [i] + order) && Distinct([i] + order)
  {
    var r := [i] + order;
    forall a, b | 0 <= a < b < |r|
      ensures key[r[a]] >= key[r[b]] && r[a] != r[b]
    {
      assert r[b] == order[b - 1];
      if a > 0 {
        assert r[a] == order[a - 1];
      } else {
        assert r[b] in order;
      }
    }
  }

  lemma {:induction false} InsertRankedKeepsOrder(key: seq<real>, i: nat, order: seq<nat>)
    requires i < |key| && RankedDescending(key, order)
    requires i !in order && Distinct(order)
    ensures RankedDescending(key, InsertRanked(key, i, order))
    ensures Distinct(InsertRanked(key, i, order))
  {
    if |order| == 0 || key[order[0]] <= key[i] {
      PrependRanked(key, i, order);
    } else {
      var rest := InsertRanked(key, i, order[1..]);
      assert order == [order[0]] + order[1..];
      InsertRankedKeepsOrder(key, i, order[1..]);
      forall t | 0 <= t < |rest|
        ensures key[rest[t]] <= key[order[0]] && rest[t] != order[0]
      {
        assert rest[t] in rest;
        if rest[t] != i {
          var c :| 0 <= c < |order[1..]| && order[1..][c] == rest[t];
          assert order[c + 1] == rest[t];
        }
      }
      PrependRanked(key, order[0], rest);
    }
  }

  /** RankDescending lists every index below `n` exactly once, from the largest key down. */
  lemma {:induction false} RankDescendingIsRanking(key: seq<real>, n: nat)
    requires n <= |key|
    ensures RankedDescending(key, RankDescending(key, n))
    ensures Distinct(RankDescending(key, n))
  {
    if n > 0 {
      var order := RankDescending(key, n - 1);
      RankDescendingIsRanking(key, n - 1);
      assert n - 1 !in order;
      InsertRankedKeepsOrder(key, n - 1, order);
    }
  }

  /**
   * Taking the first `t` entries of the ranking takes a top-`t` set: an index
   * not among them has a key no larger than any of theirs.
   */
  lemma RankedPrefixIsTop(key: seq<real>, n: nat, t: nat, v: nat, s: nat)
    requires n <= |key| && t <= n && v < n && s < t
    requires v !in RankDescending(key, n)[..t]
    ensures key[v] <= key[RankDescending(key, n)[s]]
  {
    var order := RankDescending(key, n);
    RankDescendingIsRanking(key, n);
    assert v in order;
    var q :| 0 <= q < |order| && order[q] == v;
    assert forall a :: 0 <= a < t ==> order[a] in order[..t];
  }

  // ---------------------------------------------------------------------------
  // Positive rescaling changes neither the peaks nor their ranking
  // ---------------------------------------------------------------------------

  /** `x` and `y` have the same length and every comparison between two samples comes out the same. */
  ghost predicate SameOrder(x: seq<real>, y: seq<real>)
  {
    && |x| == |y|
    && (forall i, j :: 0 <= i < |x| && 0 <= j < |x| ==> (x[i] < x[j] <==> y[i] < y[j]))
    && (forall i, j :: 0 <= i < |x| && 0 <= j < |x| ==> (x[i] == x[j] <==> y[i] == y[j]))
  }

  lemma ScaleComparison(c: real, a: real, b: real)
    requires c > 0.0
    ensures (c * a < c * b <==> a < b) && (c * a == c * b <==> a == b)
  {
    if a < b {
      assert c * b - c * a == c * (b - a);
      ProductPositive(c, b - a);
    } else if b < a {
      assert c * a - c * b == c * (a - b);
      ProductPositive(c, a - b);
    }
  }

  /** Multiplying by a positive factor keeps every comparison between samples. */
  lemma ScaleSameOrder(c: real, x: seq<real>)
    requires c > 0.0
    ensures SameOrder(x, Scale(c, x))
  {
    forall i, j | 0 <= i < |x| && 0 <= j < |x|
      ensures (x[i] < x[j] <==> Scale(c, x)[i] < Scale(c, x)[j])
      ensures (x[i] == x[j] <==> Scale(c, x)[i] == Scale(c, x)[j])
    {
      ScaleComparison(c, x[i], x[j]);
    }
  }

  lemma {:induction false} PlateauEndSameOrder(x: seq<real>, y: seq<real>, i: nat, j: nat)
    requires SameOrder(x, y) && 1 <= i < j <= |x| - 1
    requires forall t :: i <= t < j ==> x[t] == x[i]
    ensures forall t :: i <= t < j ==> y[t] == y[i]
    ensures PlateauEnd(y, i, j) == PlateauEnd(x, i, j)
    decreases |x| - j
  {
    if j < |x| - 1 && x[j] == x[i] {
      PlateauEndSameOrder(x, y, i, j + 1);
    }
  }

  lemma {:induction false} PeaksFromSameOrder(x: seq<real>, y: seq<real>, i: nat)
    requires SameOrder(x, y) && i >= 1
    ensures PeaksFrom(y, i) == PeaksFrom(x, i)
    decreases |x| - i
  {
    if i + 1 < |x| {
      assert (x[i - 1] < x[i]) == (y[i - 1] < y[i]);
      if x[i - 1] < x[i] {
        PlateauEndSameOrder(x, y, i, i + 1);
        var e := PlateauEnd(x, i, i + 1);
        assert (x[e] < x[i]) == (y[e] < y[i]);
        if x[e] < x[i] {
          PeaksFromSameOrder(x, y, e + 1);
          PeaksFromReports(x, i);
          PeaksFromReports(y, i);
        } else {
          PeaksFromSameOrder(x, y, i + 1);
          PeaksFromSkips(x, i);
          PeaksFromSkips(y, i);
        }
      } else {
        PeaksFromSameOrder(x, y, i + 1);
        PeaksFromSkips(x, i);
        PeaksFromSkips(y, i);
      }
    }
  }

  /** Multiplying a signal by a positive factor leaves its local maxima where they are. */
  lemma LocalMaximaScale(c: real, x: seq<real>)
    requires c > 0.0
    ensures LocalMaxima(Scale(c, x)) == LocalMaxima(x)
  {
    ScaleSameOrder(c, x);
    PeaksFromSameOrder(x, Scale(c, x), 1);
  }

  ghost predicate StrictlyIncreasing(f: real -> real)
  {
    forall a, b :: a < b ==> f(a) < f(b)
  }

  /** `f` applied to every sample. */
  function Apply(f: real -> real, x: seq<real>): (r: seq<real>)
    ensures |r| == |x|
  {
    seq(|x|, k requires 0 <= k < |x| => f(x[k]))
  }

  /** The base walks commute with any strictly increasing map of the sample values. */
  lemma {:induction false} LeftBaseMinMap(f: real -> real, x: seq<real>, h: real, i: int)
    requires StrictlyIncreasing(f) && -1 <= i < |x|
    ensures LeftBaseMin(Apply(f, x), f(h), i) == f(LeftBaseMin(x, h, i))
    decreases i + 1
  {
    if i >= 0 && x[i] <= h {
      LeftBaseMinMap(f, x, h, i - 1);
    }
  }

  lemma {:induction false} RightBaseMinMap(f: real -> real, x: seq<real>, h: real, i: int)
    requires StrictlyIncreasing(f) && 0 <= i <= |x|
    ensures RightBaseMin(Apply(f, x), f(h), i) == f(RightBaseMin(x, h, i))
    decreases |x| - i
  {
    if i < |x| && x[i] <= h {
      RightBaseMinMap(f, x, h, i + 1);
    }
  }

  lemma MaxMap(f: real -> real, a: real, b: real)
    requires StrictlyIncreasing(f)
    ensures Max(f(a), f(b)) == f(Max(a, b))
  {
    if a < b {
      assert f(a) < f(b);
    } else if b < a {
      assert f(b) < f(a);
    }
  }

  /** Prominence is computed from comparisons and one difference, so a strictly increasing map passes through it. */
  lemma ProminenceMap(f: real -> real, x: seq<real>, p: nat)
    requires StrictlyIncreasing(f) && p < |x|
    ensures Prominence(Apply(f, x), p)
         == f(x[p]) - f(Max(LeftBaseMin(x, x[p], p), RightBaseMin(x, x[p], p)))
  {
    var l := LeftBaseMin(x, x[p], p);
    var r := RightBaseMin(x, x[p], p);
    LeftBaseMinMap(f, x, x[p], p);
    RightBaseMinMap(f, x, x[p], p);
    var y := Apply(f, x);
    assert y[p] == f(x[p]);
    MaxMap(f, l, r);
    assert Prominence(y, p) == y[p] - Max(f(l), f(r));
  }

  /** Multiplication by `c`, as a function value. */
  function Times(c: real): real -> real
  {
    (a: real) => c * a
  }

  lemma TimesIncreasing(c: real)
    requires c > 0.0
    ensures StrictlyIncreasing(Times(c))
  {
    forall a: real, b: real | a < b
      ensures Times(c)(a) < Times(c)(b)
    {
      ScaleComparison(c, a, b);
    }
  }

  /** Multiplying a signal by a positive factor multiplies every prominence by that factor. */
  lemma ProminenceScale(c: real, x: seq<real>, p: nat)
    requires c > 0.0 && p < |x|
    ensures Prominence(Scale(c, x), p) == c * Prominence(x, p)
  {
    TimesIncreasing(c);
    assert Apply(Times(c), x) == Scale(c, x);
    ProminenceMap(Times(c), x, p);
    var m := Max(LeftBaseMin(x, x[p], p), RightBaseMin(x, x[p], p));
    assert c * x[p] - c * m == c * (x[p] - m);
  }

  lemma ProminencesScale(c: real, x: seq<real>, peaks: seq<nat>)
    requires c > 0.0 && forall k :: 0 <= k < |peaks| ==> peaks[k] < |x|
    ensures Prominences(Scale(c, x), peaks) == Scale(c, Prominences(x, peaks))
  {
    forall k | 0 <= k < |peaks|
      ensures Prominences(Scale(c, x), peaks)[k] == Scale(c, Prominences(x, peaks))[k]
    {
      ProminenceScale(c, x, peaks[k]);
    }
  }

  lemma {:induction false} ArgMaxSameOrder(s: seq<real>, t: seq<real>)
    requires SameOrder(s, t) && |s| > 0
    ensures ArgMax(t) == ArgMax(s)
  {
    if |s| > 1 {
      var n := |s| - 1;
      assert SameOrder(s[..n], t[..n]);
      ArgMaxSameOrder(s[..n], t[..n]);
    }
  }

  /** The selected most prominent peak does not depend on a positive rescaling of the signal. */
  lemma MostProminentScale(c: real, x: seq<real>)
    requires c > 0.0
    ensures MostProminent(Scale(c, x)) == MostProminent(x)
  {
    LocalMaximaScale(c, x);
    var peaks := LocalMaxima(x);
    if |peaks| > 0 {
      var prom := Prominences(x, peaks);
      ProminencesScale(c, x, peaks);
      ScaleSameOrder(c, prom);
      ArgMaxSameOrder(prom, Scale(c, prom));
    }
  }

  lemma {:induction false} InsertRankedSameOrder(key: seq<real>, key': seq<real>, i: nat, order: seq<nat>)
    requires SameOrder(key, key') && i < |key| && forall t :: 0 <= t < |order| ==> order[t] < |key|
    ensures InsertRanked(key', i, order) == InsertRanked(key, i, order)
  {
    if |order| > 0 {
      InsertRankedSameOrder(key, key', i, order[1..]);
    }
  }

  /** Keys that compare the same way give the same descending ranking. */
  lemma {:induction false} RankDescendingSameOrder(key: seq<real>, key': seq<real>, n: nat)
    requires SameOrder(key, key') && n <= |key|
    ensures RankDescending(key', n) == RankDescending(key, n)
  {
    if n > 0 {
      RankDescendingSameOrder(key, key', n - 1);
      InsertRankedSameOrder(key, key', n - 1, RankDescending(key, n - 1));
    }
  }
}
