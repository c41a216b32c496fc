/**
 * Element-wise array arithmetic the peak finders rely on: clamping of
 * negatives, sums and averages, scaling, full discrete convolution and
 * circular rotation (numpy's roll).
 */
module SignalOps {

  /** Every sample is non-negative. */
  ghost predicate NonNegative(s: seq<real>)
  {
    forall i :: 0 <= i < |s| ==> s[i] >= 0.0
  }

  /**
   * `np.all(s == 0)`; true of the empty array. On a non-negative array it
   * holds exactly when the samples sum to 0.
   */
  predicate AllZero(s: seq<real>)
    ensures NonNegative(s) ==> (AllZero(s) <==> Sum(s) == 0.0)
  {
    SumZero(s);
    forall i :: 0 <= i < |s| ==> s[i] == 0.0
  }

  /** A smoothing window: `len` strictly positive coefficients. */
  ghost predicate IsWindow(w: seq<real>, len: nat)
  {
    |w| == len && forall j :: 0 <= j < |w| ==> w[j] > 0.0
  }

  /** `s[s < 0] = 0` as a value: negatives become 0, the rest stays. */
  function Clamped(s: seq<real>): (r: seq<real>)
    ensures |r| == |s| && NonNegative(r)
    ensures forall i :: 0 <= i < |s| && s[i] >= 0.0 ==> r[i] == s[i]
    ensures forall i :: 0 <= i < |s| && s[i] < 0.0 ==> r[i] == 0.0
  {
    seq(|s|, i requires 0 <= i < |s| => if s[i] < 0.0 then 0.0 else s[i])
  }

  /** Clamping a signal that is already non-negative changes nothing; in particular clamping is idempotent. */
  lemma ClampedNonNegativeIsIdentity(s: seq<real>)
    requires NonNegative(s)
    ensures Clamped(s) == s
  {
  }

  /** `a[a < 0] = 0`, done in place on a working array. */
  method ClampNegatives(a: array<real>)
    modifies a
    ensures a[..] == Clamped(old(a[..]))
  {
    for i := 0 to a.Length
      invariant forall k :: 0 <= k < i ==> a[k] == Clamped(old(a[..]))[k]
      invariant forall k :: i <= k < a.Length ==> a[k] == old(a[k])
    {
      if a[i] < 0.0 {
        a[i] := 0.0;
      }
    }
  }

  /** Sum of all samples. */
  function Sum(s: seq<real>): real
  {
    if |s| == 0 then 0.0 else Sum(s[..|s| - 1]) + s[|s| - 1]
  }

  lemma {:induction false} SumNonNegative(s: seq<real>)
    requires NonNegative(s)
    ensures Sum(s) >= 0.0
  {
    if |s| > 0 {
      SumNonNegative(s[..|s| - 1]);
    }
  }

  /** A non-negative signal with one positive sample has a positive sum. */
  lemma {:induction false} SumPositive(s: seq<real>, i: nat)
    requires NonNegative(s) && i < |s| && s[i] > 0.0
    ensures Sum(s) > 0.0
  {
    if i == |s| - 1 {
      SumNonNegative(s[..|s| - 1]);
    } else {
      SumPositive(s[..|s| - 1], i);
    }
  }

  /** A non-negative array sums to 0 exactly when every sample is 0. */
  lemma SumZero(s: seq<real>)
    ensures NonNegative(s) ==> ((forall i :: 0 <= i < |s| ==> s[i] == 0.0) <==> Sum(s) == 0.0)
  {
    if NonNegative(s) {
      if forall i :: 0 <= i < |s| ==> s[i] == 0.0 {
        SumOfZeros(s);
      } else {
        var i :| 0 <= i < |s| && s[i] != 0.0;
        SumPositive(s, i);
      }
    }
  }

  lemma {:induction false} SumOfZeros(s: seq<real>)
    requires forall i :: 0 <= i < |s| ==> s[i] == 0.0
    ensures Sum(s) == 0.0
  {
    if |s| > 0 {
      SumOfZeros(s[..|s| - 1]);
    }
  }

  /** `np.average(s)` of a non-empty array. */
  function Average(s: seq<real>): real
    requires |s| > 0
  {
    Sum(s) / (|s| as real)
  }

  /** A non-negative signal that is not all zero has a positive average. */
  lemma AveragePositive(s: seq<real>)
    requires NonNegative(s) && !AllZero(s)
    ensures |s| > 0 && Average(s) > 0.0
  {
    var i :| 0 <= i < |s| && s[i] != 0.0;
    SumPositive(s, i);
  }

  /** `c * s`, element-wise. */
  function Scale(c: real, s: seq<real>): (r: seq<real>)
    ensures |r| == |s|
  {
    seq(|s|, i requires 0 <= i < |s| => c * s[i])
  }

  /** Scaling by a positive factor keeps a non-negative signal non-negative. */
  lemma ScalePreservesNonNegative(c: real, s: seq<real>)
    requires c > 0.0 && NonNegative(s)
    ensures NonNegative(Scale(c, s))
  {
    forall i | 0 <= i < |s|
      ensures Scale(c, s)[i] >= 0.0
    {
      ProductNonNegative(c, s[i]);
    }
  }

  lemma ProductNonNegative(a: real, b: real)
    requires a >= 0.0 && b >= 0.0
    ensures a * b >= 0.0
  {
  }

  lemma ProductPositive(a: real, b: real)
    requires a > 0.0 && b > 0.0
    ensures a * b > 0.0
  {
  }

  /** Sample `i` of `x`, or 0 outside the array (the zero padding of full convolution). */
  function At(x: seq<real>, i: int): real
  {
    if 0 <= i < |x| then x[i] else 0.0
  }

  /** The partial sum `w[0]*x[k] + w[1]*x[k-1] + ... + w[j-1]*x[k-j+1]`. */
  function ConvSum(w: seq<real>, x: seq<real>, k: int, j: nat): real
    requires j <= |w|
  {
    if j == 0 then 0.0 else ConvSum(w, x, k, j - 1) + w[j - 1] * At(x, k - (j - 1))
  }

  /**
   * `scipy.signal.convolve(w, x)` in full mode: `out[k] = sum_j w[j] * x[k - j]`,
   * with one output per overlap of the two arrays.
   */
  function Convolve(w: seq<real>, x: seq<real>): (r: seq<real>)
    requires |w| >= 1 && |x| >= 1
    ensures |r| == |x| + |w| - 1
  {
    seq(|x| + |w| - 1, k requires 0 <= k < |x| + |w| - 1 => ConvSum(w, x, k, |w|))
  }

  lemma {:induction false} ConvSumNonNegative(w: seq<real>, x: seq<real>, k: int, j: nat)
    requires j <= |w| && NonNegative(w) && NonNegative(x)
    ensures ConvSum(w, x, k, j) >= 0.0
  {
    if j > 0 {
      ConvSumNonNegative(w, x, k, j - 1);
      ProductNonNegative(w[j - 1], At(x, k - (j - 1)));
    }
  }

  /** Each product `w[t] * x[k - t]` is a lower bound of the partial sum it belongs to. */
  lemma {:induction false} ConvSumAtLeastTerm(w: seq<real>, x: seq<real>, k: int, j: nat, t: nat)
    requires t < j <= |w| && NonNegative(w) && NonNegative(x)
    ensures ConvSum(w, x, k, j) >= w[t] * At(x, k - t)
  {
    ProductNonNegative(w[j - 1], At(x, k - (j - 1)));
    if t < j - 1 {
      ConvSumAtLeastTerm(w, x, k, j - 1, t);
    } else {
      ConvSumNonNegative(w, x, k, j - 1);
    }
  }

  /** Full convolution of a non-negative signal with a positive window is non-negative. */
  lemma ConvolveNonNegative(w: seq<real>, x: seq<real>)
    requires |w| >= 1 && |x| >= 1 && NonNegative(w) && NonNegative(x)
    ensures NonNegative(Convolve(w, x))
  {
    forall k | 0 <= k < |x| + |w| - 1
      ensures Convolve(w, x)[k] >= 0.0
    {
      ConvSumNonNegative(w, x, k, |w|);
    }
  }

  /** A positive sample `x[i]` makes the convolution positive at `i + t` for every window tap `t`. */
  lemma ConvolvePositiveAt(w: seq<real>, x: seq<real>, i: nat, t: nat)
    requires |w| >= 1 && NonNegative(x) && i < |x| && x[i] > 0.0
    requires t < |w| && forall j :: 0 <= j < |w| ==> w[j] > 0.0
    ensures Convolve(w, x)[i + t] > 0.0
  {
    ConvSumAtLeastTerm(w, x, i + t, |w|, t);
    ProductPositive(w[t], x[i]);
  }

  /** The filtered signal of a non-zero, non-negative signal is non-negative and not all zero. */
  lemma ConvolveNotAllZero(w: seq<real>, x: seq<real>)
    requires |w| >= 1 && forall j :: 0 <= j < |w| ==> w[j] > 0.0
    requires NonNegative(x) && !AllZero(x)
    ensures NonNegative(Convolve(w, x)) && !AllZero(Convolve(w, x))
  {
    var i :| 0 <= i < |x| && x[i] != 0.0;
    ConvolveNonNegative(w, x);
    ConvolvePositiveAt(w, x, i, 0);
  }

  /**
   * The factor `avg(x) / avg(convolve(w, x))` by which the filtered signal is
   * rescaled; it is strictly positive for a non-zero, non-negative signal.
   */
  function RescaleFactor(w: seq<real>, x: seq<real>): (c: real)
    requires IsWindow(w, |w|) && |w| >= 1
    requires NonNegative(x) && !AllZero(x)
    ensures c > 0.0
  {
    AveragePositive(x);
    ConvolveNotAllZero(w, x);
    AveragePositive(Convolve(w, x));
    Average(x) / Average(Convolve(w, x))
  }

  /**
   * `np.roll(s, shift)`: the element at `i` moves to `(i + shift) mod n`,
   * so position `j` of the result holds `s[(j - shift) mod n]`.
   */
  function Roll(s: seq<real>, shift: int): (r: seq<real>)
    ensures |r| == |s|
  {
    seq(|s|, j requires 0 <= j < |s| => s[(j - shift) % |s|])
  }

  /** As numpy documents it: the element at `i` ends up at `(i + shift) mod n`. */
  lemma RollMoves(s: seq<real>, shift: int, i: nat)
    requires i < |s|
    ensures Roll(s, shift)[(i + shift) % |s|] == s[i]
  {
    ModShift(i, shift, |s|);
  }

  /** `np.roll(s, 0)` leaves the array as it is. */
  lemma RollZero(s: seq<real>)
    ensures Roll(s, 0) == s
  {
  }

  lemma ModShift(j: int, shift: int, n: int)
    requires 0 <= j < n
    ensures ((j + shift) % n - shift) % n == j
  {
    var q := (j + shift) / n;
    assert (j + shift) % n - shift == j + (-q) * n;
    ModAddMultiple(j, -q, n);
  }

  lemma ModAddMultiple(j: int, q: int, n: int)
    requires 0 <= j < n
    ensures (j + q * n) % n == j
  {
    var m := j + q * n;
    var d := m / n;
    var r := m % n;
    assert m == d * n + r;
    var e := q - d;
    assert e * n == q * n - d * n;
    assert e * n == r - j;
    if e >= 1 {
      MulAtLeast(e, n);
    } else if e <= -1 {
      MulAtLeast(-e, n);
    }
  }

  lemma {:induction false} MulAtLeast(e: int, n: int)
    requires e >= 1 && n >= 1
    ensures e * n >= n
  {
    if e > 1 {
      MulAtLeast(e - 1, n);
      assert e * n == (e - 1) * n + n;
    }
  }

  /** Rotating left by one: position `j` of `np.roll(s, -1)` holds `s[(j + 1) mod n]`. */
  lemma RollLeftOne(s: seq<real>, j: nat)
    requires j < |s|
    ensures Roll(s, -1)[j] == s[(j + 1) % |s|]
    ensures j + 1 < |s| ==> Roll(s, -1)[j] == s[j + 1]
    ensures j + 1 == |s| ==> Roll(s, -1)[j] == s[0]
  {
    var n := |s|;
    assert Roll(s, -1)[j] == s[(j + 1) % n];
    if j + 1 < n {
      ModAddMultiple(j + 1, 0, n);
    } else {
      ModAddMultiple(0, 1, n);
    }
  }

  /** Rolling commutes with scaling and keeps a non-negative signal non-negative. */
  lemma RollScale(c: real, s: seq<real>, shift: int)
    ensures Roll(Scale(c, s), shift) == Scale(c, Roll(s, shift))
  {
    forall j | 0 <= j < |s|
      ensures Roll(Scale(c, s), shift)[j] == Scale(c, Roll(s, shift))[j]
    {
      var i := (j - shift) % |s|;
      assert Roll(Scale(c, s), shift)[j] == Scale(c, s)[i];
    }
  }

  lemma RollNonNegative(s: seq<real>, shift: int)
    requires NonNegative(s)
    ensures NonNegative(Roll(s, shift))
  {
  }
}
