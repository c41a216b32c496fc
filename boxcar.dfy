/**
 * smooth_boxcar (spectral_extraction/utils.py): an inverse-variance weighted
 * boxcar mean, `uniform_filter(w * y) / uniform_filter(w)`, together with
 * `scipy.ndimage.uniform_filter` in its default 'reflect' boundary mode.
 */
module Boxcar {
  import opened Types
  import opened SignalOps

  /** Every sample is strictly positive. */
  ghost predicate Positive(s: seq<real>)
  {
    forall i :: 0 <= i < |s| ==> s[i] > 0.0
  }

  /** Every sample equals `c`. */
  ghost predicate Constant(s: seq<real>, c: real)
  {
    forall i :: 0 <= i < |s| ==> s[i] == c
  }

  /** Every sample lies in `[lo, hi]`. */
  ghost predicate Within(s: seq<real>, lo: real, hi: real)
  {
    forall i :: 0 <= i < |s| ==> lo <= s[i] <= hi
  }

  // ---------------------------------------------------------------------------
  // scipy.ndimage.uniform_filter, mode 'reflect'
  // ---------------------------------------------------------------------------

  /**
   * The sample that index `j` of the extended array reads under the 'reflect'
   * boundary mode (`d c b a | a b c d | d c b a`): the extension mirrors the
   * array about its edges, which repeats with period `2n`.
   */
  function Reflect(j: int, n: nat): (q: nat)
    requires n > 0
    ensures q < n
  {
    var p := j % (2 * n);
    if p < n then p else 2 * n - 1 - p
  }

  /** Inside the array, index `j` reads sample `j`. */
  lemma ReflectInside(j: int, n: nat)
    requires 0 <= j < n
    ensures Reflect(j, n) == j
  {
    ModAddMultiple(j, 0, 2 * n);
  }

  /** Left of the array, index `-1 - j` reads sample `j`: the edge sample is repeated. */
  lemma ReflectLeftEdge(j: nat, n: nat)
    requires j < n
    ensures Reflect(-1 - j, n) == j
  {
    ModAddMultiple(2 * n - 1 - j, -1, 2 * n);
  }

  /** Right of the array, index `n + j` reads sample `n - 1 - j`. */
  lemma ReflectRightEdge(j: nat, n: nat)
    requires j < n
    ensures Reflect(n + j, n) == n - 1 - j
  {
    ModAddMultiple(n + j, 0, 2 * n);
  }

  /** The `len` samples of the reflected extension starting at index `lo`. */
  function Window(s: seq<real>, lo: int, len: nat): (r: seq<real>)
    requires |s| > 0
    ensures |r| == len
  {
    seq(len, k requires 0 <= k < len => s[Reflect(lo + k, |s|)])
  }

  /**
   * `uniform_filter(s, size)`: the mean of the `size` samples from
   * `i - size/2` to `i - size/2 + size - 1` around every index `i`. A size of
   * at most 1 leaves the array as it is, since scipy skips such axes.
   */
  function UniformFilter(s: seq<real>, size: int): (r: seq<real>)
    ensures |r| == |s|
  {
    if size <= 1 then s
    else seq(|s|, i requires 0 <= i < |s| => Average(Window(s, i - size / 2, size)))
  }

  /** A window of a positive array is positive; so is one of a constant array constant. */
  lemma WindowPositive(s: seq<real>, lo: int, len: nat)
    requires |s| > 0 && Positive(s)
    ensures Positive(Window(s, lo, len))
  {
    forall k | 0 <= k < len
      ensures Window(s, lo, len)[k] > 0.0
    {
      assert Window(s, lo, len)[k] == s[Reflect(lo + k, |s|)];
    }
  }

  lemma WindowWithin(s: seq<real>, lo: real, hi: real, start: int, len: nat)
    requires |s| > 0 && Within(s, lo, hi)
    ensures Within(Window(s, start, len), lo, hi)
  {
    forall k | 0 <= k < len
      ensures lo <= Window(s, start, len)[k] <= hi
    {
      assert Window(s, start, len)[k] == s[Reflect(start + k, |s|)];
    }
  }

  lemma WindowConstant(s: seq<real>, c: real, lo: int, len: nat)
    requires |s| > 0 && Constant(s, c)
    ensures Constant(Window(s, lo, len), c)
  {
    forall k | 0 <= k < len
      ensures Window(s, lo, len)[k] == c
    {
      assert Window(s, lo, len)[k] == s[Reflect(lo + k, |s|)];
    }
  }

  /** Windows commute with scaling and with element-wise products. */
  lemma WindowScale(c: real, s: seq<real>, lo: int, len: nat)
    requires |s| > 0
    ensures Window(Scale(c, s), lo, len) == Scale(c, Window(s, lo, len))
  {
    forall k | 0 <= k < len
      ensures Window(Scale(c, s), lo, len)[k] == Scale(c, Window(s, lo, len))[k]
    {
      var q := Reflect(lo + k, |s|);
      assert Window(Scale(c, s), lo, len)[k] == Scale(c, s)[q];
      assert Window(s, lo, len)[k] == s[q];
    }
  }

  lemma WindowProduct(w: seq<real>, y: seq<real>, lo: int, len: nat)
    requires |w| == |y| > 0
    ensures Window(Product(w, y), lo, len) == Product(Window(w, lo, len), Window(y, lo, len))
  {
    forall k | 0 <= k < len
      ensures Window(Product(w, y), lo, len)[k] == Product(Window(w, lo, len), Window(y, lo, len))[k]
    {
      var q := Reflect(lo + k, |y|);
      assert Window(Product(w, y), lo, len)[k] == Product(w, y)[q];
      assert Window(w, lo, len)[k] == w[q] && Window(y, lo, len)[k] == y[q];
    }
  }

  lemma {:induction false} SumConstant(s: seq<real>, c: real)
    requires Constant(s, c)
    ensures Sum(s) == (|s| as real) * c
  {
    if |s| > 0 {
      SumConstant(s[..|s| - 1], c);
    }
  }

  /** Scaling the samples scales the sum. */
  lemma {:induction false} SumScale(c: real, s: seq<real>)
    ensures Sum(Scale(c, s)) == c * Sum(s)
  {
    if |s| > 0 {
      var n := |s|;
      forall k | 0 <= k < n - 1
        ensures Scale(c, s)[k] == Scale(c, s[..n - 1])[k]
      {
        assert Scale(c, s)[k] == c * s[k];
      }
      assert Scale(c, s)[..n - 1] == Scale(c, s[..n - 1]);
      SumScale(c, s[..n - 1]);
      assert c * Sum(s) == c * Sum(s[..n - 1]) + c * s[n - 1];
    }
  }

  /** Sums are monotone in the samples. */
  lemma {:induction false} SumMonotone(a: seq<real>, b: seq<real>)
    requires |a| == |b| && forall k :: 0 <= k < |a| ==> a[k] <= b[k]
    ensures Sum(a) <= Sum(b)
  {
    if |a| > 0 {
      var n := |a|;
      SumMonotone(a[..n - 1], b[..n - 1]);
    }
  }

  /** The weighted sum lies between `lo` and `hi` times the sum of the weights. */
  lemma SumWeighted(w: seq<real>, y: seq<real>, lo: real, hi: real)
    requires |w| == |y| && Positive(w) && Within(y, lo, hi)
    ensures lo * Sum(w) <= Sum(Product(w, y)) <= hi * Sum(w)
  {
    var p := Product(w, y);
    forall k | 0 <= k < |y|
      ensures Scale(lo, w)[k] <= p[k]
    {
      WeightedSampleAbove(w, y, lo, k);
    }
    forall k | 0 <= k < |y|
      ensures p[k] <= Scale(hi, w)[k]
    {
      WeightedSampleBelow(w, y, hi, k);
    }
    SumMonotone(Scale(lo, w), p);
    SumMonotone(p, Scale(hi, w));
    SumScale(lo, w);
    SumScale(hi, w);
  }

  /** A positive weight times a sample of at least `lo` is at least `lo` times the weight. */
  lemma WeightedSampleAbove(w: seq<real>, y: seq<real>, lo: real, k: nat)
    requires |w| == |y| && k < |y| && w[k] > 0.0 && lo <= y[k]
    ensures Scale(lo, w)[k] <= Product(w, y)[k]
  {
    var a, b := w[k], y[k];
    assert Product(w, y)[k] == a * b;
    assert Scale(lo, w)[k] == lo * a;
    assert lo * a <= b * a;
  }

  /** A positive weight times a sample of at most `hi` is at most `hi` times the weight. */
  lemma WeightedSampleBelow(w: seq<real>, y: seq<real>, hi: real, k: nat)
    requires |w| == |y| && k < |y| && w[k] > 0.0 && y[k] <= hi
    ensures Product(w, y)[k] <= Scale(hi, w)[k]
  {
    var a, b := w[k], y[k];
    assert Product(w, y)[k] == a * b;
    assert Scale(hi, w)[k] == hi * a;
    assert b * a <= hi * a;
  }

  /** The average of a constant array is that constant. */
  lemma AverageConstant(s: seq<real>, c: real)
    requires |s| > 0 && Constant(s, c)
    ensures Average(s) == c
  {
    SumConstant(s, c);
    assert (|s| as real * c) / (|s| as real) == c;
  }

  /** Scaling the samples scales the average. */
  lemma AverageScale(c: real, s: seq<real>)
    requires |s| > 0
    ensures Average(Scale(c, s)) == c * Average(s)
  {
    SumScale(c, s);
    assert (c * Sum(s)) / (|s| as real) == c * (Sum(s) / (|s| as real));
  }

  /** The filter of a constant array is that constant. */
  lemma UniformFilterConstant(s: seq<real>, c: real, size: int)
    requires Constant(s, c)
    ensures Constant(UniformFilter(s, size), c)
  {
    if size > 1 {
      forall i | 0 <= i < |s|
        ensures UniformFilter(s, size)[i] == c
      {
        var win := Window(s, i - size / 2, size);
        assert UniformFilter(s, size)[i] == Average(win);
        WindowConstant(s, c, i - size / 2, size);
        AverageConstant(win, c);
      }
    }
  }

  /** The filter of a positive array is positive. */
  lemma UniformFilterPositive(s: seq<real>, size: int)
    requires Positive(s)
    ensures Positive(UniformFilter(s, size))
  {
    if size > 1 {
      forall i | 0 <= i < |s|
        ensures UniformFilter(s, size)[i] > 0.0
      {
        var win := Window(s, i - size / 2, size);
        assert UniformFilter(s, size)[i] == Average(win);
        WindowPositive(s, i - size / 2, size);
        assert win[0] != 0.0;
        AveragePositive(win);
      }
    }
  }

  /** The filter is linear: it commutes with multiplication by a constant. */
  lemma UniformFilterScale(c: real, s: seq<real>, size: int)
    ensures UniformFilter(Scale(c, s), size) == Scale(c, UniformFilter(s, size))
  {
    if size > 1 {
      forall i | 0 <= i < |s|
        ensures UniformFilter(Scale(c, s), size)[i] == Scale(c, UniformFilter(s, size))[i]
      {
        var win := Window(s, i - size / 2, size);
        assert UniformFilter(s, size)[i] == Average(win);
        WindowScale(c, s, i - size / 2, size);
        assert UniformFilter(Scale(c, s), size)[i] == Average(Scale(c, win));
        AverageScale(c, win);
      }
    }
  }

  // ---------------------------------------------------------------------------
  // Element-wise arithmetic
  // ---------------------------------------------------------------------------

  /** `w * y`, element-wise. */
  function Product(w: seq<real>, y: seq<real>): (r: seq<real>)
    requires |w| == |y|
    ensures |r| == |y|
  {
    seq(|y|, i requires 0 <= i < |y| => w[i] * y[i])
  }

  /** `a / d`, element-wise, for a divisor with no zero sample. */
  function Quotient(a: seq<real>, d: seq<real>): (r: seq<real>)
    requires |d| == |a| && Positive(d)
    ensures |r| == |a|
  {
    seq(|a|, i requires 0 <= i < |a| => a[i] / d[i])
  }

  /** `a /= d`, in place. */
  method DivideInPlace(a: array<real>, d: seq<real>)
    requires |d| == a.Length && Positive(d)
    modifies a
    ensures a[..] == Quotient(old(a[..]), d)
  {
    for i := 0 to a.Length
      invariant forall k :: 0 <= k < i ==> a[k] == old(a[k]) / d[k]
      invariant forall k :: i <= k < a.Length ==> a[k] == old(a[k])
    {
      a[i] := a[i] / d[i];
    }
  }

  // ---------------------------------------------------------------------------
  // smooth_boxcar
  // ---------------------------------------------------------------------------

  /** The variance, when given, matches the spectrum and has no zero or negative sample. */
  ghost predicate ValidVariance(y: seq<real>, variance: Option<seq<real>>)
  {
    variance.Some? ==> |variance.value| == |y| && Positive(variance.value)
  }

  /** The weights: `1/var` when a variance is given, otherwise `0*y + 1`. */
  function Weights(y: seq<real>, variance: Option<seq<real>>): (w: seq<real>)
    requires ValidVariance(y, variance)
    ensures |w| == |y| && Positive(w)
  {
    match variance
    case Some(v) => seq(|y|, i requires 0 <= i < |y| => 1.0 / v[i])
    case None => seq(|y|, _ => 1.0)
  }

  /** `uniform_filter(w * y, width) / uniform_filter(w, width)`: the weighted boxcar mean. */
  function WeightedMean(w: seq<real>, y: seq<real>, filtwidth: int): (r: seq<real>)
    requires |w| == |y| && Positive(w)
    ensures |r| == |y|
  {
    UniformFilterPositive(w, filtwidth);
    Quotient(UniformFilter(Product(w, y), filtwidth), UniformFilter(w, filtwidth))
  }

  /**
   * `1 / (filtwidth * uniform_filter(w, filtwidth))`: one value per sample,
   * each positive for a positive width and negative for a negative one.
   */
  function SmoothedVariance(w: seq<real>, filtwidth: int): (r: seq<real>)
    requires Positive(w) && filtwidth != 0
    ensures |r| == |w|
    ensures filtwidth > 0 ==> Positive(r)
    ensures filtwidth < 0 ==> forall i :: 0 <= i < |r| ==> r[i] < 0.0
  {
    var smowht := UniformFilter(w, filtwidth);
    UniformFilterPositive(w, filtwidth);
    seq(|w|, i requires 0 <= i < |w| =>
      assert filtwidth as real * smowht[i] != 0.0; 1.0 / (filtwidth as real * smowht[i]))
  }

  /**
   * What smooth_boxcar returns: `(y, None)` for a zero width without variance,
   * otherwise the weighted mean and, when a variance is given, the smoothed
   * variance.
   */
  function SmoothSpec(y: seq<real>, filtwidth: int, variance: Option<seq<real>>): (r: (seq<real>, Option<seq<real>>))
    requires ValidVariance(y, variance)
    requires variance.Some? ==> filtwidth != 0
    ensures |r.0| == |y|
    ensures r.1.Some? <==> variance.Some?
    ensures r.1.Some? ==> |r.1.value| == |y|
  {
    if variance.None? && filtwidth == 0 then (y, None)
    else
      var w := Weights(y, variance);
      (WeightedMean(w, y, filtwidth), if variance.Some? then Some(SmoothedVariance(w, filtwidth)) else None)
  }

  /**
   * smooth_boxcar. The spectrum and the variance are only read; without a
   * variance and with a zero width the spectrum itself comes back, otherwise
   * fresh arrays do, the smoothed spectrum being divided in place.
   */
  method SmoothBoxcar(y: array<real>, filtwidth: int, variance: Option<array<real>>)
    returns (ysmooth: array<real>, varsmooth: Option<array<real>>)
    requires variance.Some? ==> ValidVariance(y[..], Some(variance.value[..])) && filtwidth != 0
    ensures variance.None? && filtwidth == 0 ==> ysmooth == y && varsmooth == None
    ensures !(variance.None? && filtwidth == 0) ==> fresh(ysmooth)
    ensures varsmooth.Some? ==> fresh(varsmooth.value)
    ensures var spec := SmoothSpec(y[..], filtwidth, if variance.Some? then Some(variance.value[..]) else None);
            && ysmooth[..] == spec.0
            && varsmooth.Some? == spec.1.Some?
            && (varsmooth.Some? ==> varsmooth.value[..] == spec.1.value)
  {
    if variance.None? && filtwidth == 0 {
      return y, None;
    }
    var vs := if variance.Some? then Some(variance.value[..]) else None;
    var w := Weights(y[..], vs);
    var smowht := UniformFilter(w, filtwidth);
    UniformFilterPositive(w, filtwidth);
    var smoothed := UniformFilter(Product(w, y[..]), filtwidth);
    ysmooth := new real[|smoothed|](k requires 0 <= k < |smoothed| => smoothed[k]);
    assert ysmooth[..] == smoothed;
    DivideInPlace(ysmooth, smowht);
    if variance.Some? {
      var sv := SmoothedVariance(w, filtwidth);
      var out := new real[|sv|](k requires 0 <= k < |sv| => sv[k]);
      assert out[..] == sv;
      varsmooth := Some(out);
    } else {
      varsmooth := None;
    }
  }

  // ---------------------------------------------------------------------------
  // Properties
  // ---------------------------------------------------------------------------

  /** Equal weights cancel: the weighted mean is the plain boxcar mean. */
  lemma WeightedMeanConstantWeights(w: seq<real>, y: seq<real>, filtwidth: int, c: real)
    requires |w| == |y| && c > 0.0 && Constant(w, c)
    ensures WeightedMean(w, y, filtwidth) == UniformFilter(y, filtwidth)
  {
    forall i | 0 <= i < |y|
      ensures Product(w, y)[i] == Scale(c, y)[i]
    {
    }
    assert Product(w, y) == Scale(c, y);
    UniformFilterConstant(w, c, filtwidth);
    UniformFilterScale(c, y, filtwidth);
    forall i | 0 <= i < |y|
      ensures WeightedMean(w, y, filtwidth)[i] == UniformFilter(y, filtwidth)[i]
    {
      var m := UniformFilter(y, filtwidth)[i];
      assert UniformFilter(w, filtwidth)[i] == c;
      assert UniformFilter(Product(w, y), filtwidth)[i] == c * m;
      assert (c * m) / c == m;
    }
  }

  /** Without a variance the weights are all 1: the result is the plain boxcar mean and no variance. */
  lemma SmoothUnweighted(y: seq<real>, filtwidth: int)
    requires filtwidth != 0
    ensures SmoothSpec(y, filtwidth, None) == (UniformFilter(y, filtwidth), None)
  {
    WeightedMeanConstantWeights(Weights(y, None), y, filtwidth, 1.0);
  }

  /** With a width of at most 1 the filter is the identity and the weights cancel. */
  lemma WeightedMeanNarrow(w: seq<real>, y: seq<real>, filtwidth: int)
    requires |w| == |y| && Positive(w) && filtwidth <= 1
    ensures WeightedMean(w, y, filtwidth) == y
  {
    forall i | 0 <= i < |y|
      ensures WeightedMean(w, y, filtwidth)[i] == y[i]
    {
      assert WeightedMean(w, y, filtwidth)[i] == (w[i] * y[i]) / w[i];
      assert (w[i] * y[i]) / w[i] == y[i];
    }
  }

  /** A weighted mean of samples in `[lo, hi]` with positive weights lies in `[lo, hi]`. */
  lemma WeightedMeanWithin(w: seq<real>, y: seq<real>, filtwidth: int, lo: real, hi: real)
    requires |w| == |y| && Positive(w) && Within(y, lo, hi)
    ensures Within(WeightedMean(w, y, filtwidth), lo, hi)
  {
    if filtwidth <= 1 {
      WeightedMeanNarrow(w, y, filtwidth);
    } else {
      forall i | 0 <= i < |y|
        ensures lo <= WeightedMean(w, y, filtwidth)[i] <= hi
      {
        WeightedMeanAt(w, y, filtwidth, lo, hi, i);
      }
    }
  }

  lemma WeightedMeanAt(w: seq<real>, y: seq<real>, filtwidth: int, lo: real, hi: real, i: nat)
    requires |w| == |y| && Positive(w) && Within(y, lo, hi)
    requires filtwidth > 1 && i < |y|
    ensures lo <= WeightedMean(w, y, filtwidth)[i] <= hi
  {
    var start := i - filtwidth / 2;
    var ws := Window(w, start, filtwidth);
    var ys := Window(y, start, filtwidth);
    WeightedMeanIsRatio(w, y, filtwidth, i);
    WindowPositive(w, start, filtwidth);
    WindowWithin(y, lo, hi, start, filtwidth);
    RatioWithin(ws, ys, lo, hi);
  }

  /** Sample `i` of the weighted mean is the ratio of the window averages of `w * y` and `w`. */
  lemma WeightedMeanIsRatio(w: seq<real>, y: seq<real>, filtwidth: int, i: nat)
    requires |w| == |y| && Positive(w) && filtwidth > 1 && i < |y|
    ensures var ws, ys := Window(w, i - filtwidth / 2, filtwidth), Window(y, i - filtwidth / 2, filtwidth);
            Average(ws) != 0.0 && WeightedMean(w, y, filtwidth)[i] == Average(Product(ws, ys)) / Average(ws)
  {
    var start := i - filtwidth / 2;
    WindowProduct(w, y, start, filtwidth);
    UniformFilterPositive(w, filtwidth);
    assert UniformFilter(w, filtwidth)[i] == Average(Window(w, start, filtwidth));
    assert UniformFilter(Product(w, y), filtwidth)[i] == Average(Window(Product(w, y), start, filtwidth));
  }

  /** The ratio of the average of `w * y` to the average of `w` lies in `[lo, hi]`. */
  lemma RatioWithin(ws: seq<real>, ys: seq<real>, lo: real, hi: real)
    requires |ws| == |ys| > 0 && Positive(ws) && Within(ys, lo, hi)
    ensures Average(ws) != 0.0 && lo <= Average(Product(ws, ys)) / Average(ws) <= hi
  {
    SumWeighted(ws, ys, lo, hi);
    SumPositive(ws, 0);
    MeanRatio(Sum(Product(ws, ys)), Sum(ws), |ws| as real, lo, hi);
  }

  lemma MeanRatio(a: real, b: real, d: real, lo: real, hi: real)
    requires b > 0.0 && d > 0.0 && lo * b <= a <= hi * b
    ensures lo <= (a / d) / (b / d) <= hi
  {
    assert (a / d) / (b / d) == a / b;
  }

  /** A width of at most 1 (0 and negative widths included) returns the spectrum unchanged. */
  lemma SmoothNarrowIsIdentity(y: seq<real>, filtwidth: int, variance: Option<seq<real>>)
    requires ValidVariance(y, variance) && (variance.Some? ==> filtwidth != 0)
    requires filtwidth <= 1
    ensures SmoothSpec(y, filtwidth, variance).0 == y
  {
    if !(variance.None? && filtwidth == 0) {
      WeightedMeanNarrow(Weights(y, variance), y, filtwidth);
    }
  }

  /**
   * The smoothed spectrum is a weighted mean of the spectrum: when every
   * sample lies in `[lo, hi]`, so does every smoothed sample.
   */
  lemma SmoothWithinRange(y: seq<real>, filtwidth: int, variance: Option<seq<real>>, lo: real, hi: real)
    requires ValidVariance(y, variance) && (variance.Some? ==> filtwidth != 0)
    requires Within(y, lo, hi)
    ensures Within(SmoothSpec(y, filtwidth, variance).0, lo, hi)
  {
    if !(variance.None? && filtwidth == 0) {
      WeightedMeanWithin(Weights(y, variance), y, filtwidth, lo, hi);
    }
  }

  /** A constant spectrum is left as it is, whatever the positive weights. */
  lemma SmoothConstant(y: seq<real>, c: real, filtwidth: int, variance: Option<seq<real>>)
    requires ValidVariance(y, variance) && (variance.Some? ==> filtwidth != 0)
    requires Constant(y, c)
    ensures SmoothSpec(y, filtwidth, variance).0 == y
  {
    var r := SmoothSpec(y, filtwidth, variance).0;
    SmoothWithinRange(y, filtwidth, variance, c, c);
    assert forall i :: 0 <= i < |y| ==> r[i] == y[i];
  }

  /** Weights all equal to `1/v` give a smoothed variance of `v / filtwidth` everywhere. */
  lemma SmoothedVarianceConstant(w: seq<real>, filtwidth: int, v: real)
    requires v > 0.0 && filtwidth != 0 && Constant(w, 1.0 / v)
    ensures SmoothedVariance(w, filtwidth) == seq(|w|, _ => v / (filtwidth as real))
  {
    UniformFilterConstant(w, 1.0 / v, filtwidth);
    forall i | 0 <= i < |w|
      ensures SmoothedVariance(w, filtwidth)[i] == v / (filtwidth as real)
    {
      assert 1.0 / (filtwidth as real * (1.0 / v)) == v / (filtwidth as real);
    }
  }

  /**
   * A constant variance `v` weighs every sample alike: the spectrum is smoothed
   * as without a variance, and the smoothed variance is `v / filtwidth`.
   */
  lemma SmoothConstantVariance(y: seq<real>, filtwidth: int, v: real)
    requires v > 0.0 && filtwidth != 0
    ensures ValidVariance(y, Some(seq(|y|, _ => v)))
    ensures var r := SmoothSpec(y, filtwidth, Some(seq(|y|, _ => v)));
            && r.0 == UniformFilter(y, filtwidth)
            && r.1 == Some(seq(|y|, _ => v / (filtwidth as real)))
  {
    var w := Weights(y, Some(seq(|y|, _ => v)));
    assert Constant(w, 1.0 / v);
    WeightedMeanConstantWeights(w, y, filtwidth, 1.0 / v);
    SmoothedVarianceConstant(w, filtwidth, v);
  }
}
