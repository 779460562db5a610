/**
 * Sums, extrema and means of real sequences, as numpy and pandas compute
 * them on exact reals. An empty mean is NaN in the original; callers decide
 * what that becomes.
 */
module Stats {

  /** Sum, accumulated left to right. */
  function Sum(xs: seq<real>): real
  {
    if xs == [] then 0.0 else Sum(xs[..|xs| - 1]) + xs[|xs| - 1]
  }

  /** Sum of integers, accumulated left to right. */
  function IntSum(ns: seq<int>): int
  {
    if ns == [] then 0 else IntSum(ns[..|ns| - 1]) + ns[|ns| - 1]
  }

  /** `vs * ws` on two aligned series: the element-wise products. */
  function Products(vs: seq<real>, ws: seq<real>): seq<real>
    requires |vs| == |ws|
  {
    seq(|vs|, k requires 0 <= k < |vs| => vs[k] * ws[k])
  }

  /** Every element multiplied by `c`. */
  function Scale(ws: seq<real>, c: real): (r: seq<real>)
    ensures |r| == |ws| && forall k :: 0 <= k < |r| ==> r[k] == c * ws[k]
  {
    seq(|ws|, k requires 0 <= k < |ws| => c * ws[k])
  }

  function Max(xs: seq<real>): (m: real)
    requires xs != []
    ensures forall i :: 0 <= i < |xs| ==> xs[i] <= m
    ensures exists i :: 0 <= i < |xs| && xs[i] == m
  {
    if |xs| == 1 then xs[0]
    else
      var m := Max(xs[..|xs| - 1]);
      assert forall i :: 0 <= i < |xs| - 1 ==> xs[..|xs| - 1][i] == xs[i];
      if xs[|xs| - 1] > m then xs[|xs| - 1] else m
  }

  function Min(xs: seq<real>): (m: real)
    requires xs != []
    ensures forall i :: 0 <= i < |xs| ==> m <= xs[i]
    ensures exists i :: 0 <= i < |xs| && xs[i] == m
  {
    if |xs| == 1 then xs[0]
    else
      var m := Min(xs[..|xs| - 1]);
      assert forall i :: 0 <= i < |xs| - 1 ==> xs[..|xs| - 1][i] == xs[i];
      if xs[|xs| - 1] < m then xs[|xs| - 1] else m
  }

  /** `np.mean` / `Series.mean` of a non-empty sequence. */
  function Mean(xs: seq<real>): real
    requires xs != []
  {
    Sum(xs) / |xs| as real
  }

  lemma {:induction false} SumAppend(a: seq<real>, b: seq<real>)
    ensures Sum(a + b) == Sum(a) + Sum(b)
  {
    if b != [] {
      assert (a + b)[..|a + b| - 1] == a + b[..|b| - 1];
      SumAppend(a, b[..|b| - 1]);
    } else {
      assert a + b == a;
    }
  }

  /** A sum of `n` terms lies between `n` times the least and `n` times the greatest term. */
  lemma {:induction false} SumBounds(xs: seq<real>, lo: real, hi: real)
    requires forall i :: 0 <= i < |xs| ==> lo <= xs[i] <= hi
    ensures |xs| as real * lo <= Sum(xs) <= |xs| as real * hi
  {
    if xs != [] {
      var init := xs[..|xs| - 1];
      assert forall i :: 0 <= i < |init| ==> init[i] == xs[i];
      SumBounds(init, lo, hi);
      assert |xs| as real * lo == |init| as real * lo + lo;
      assert |xs| as real * hi == |init| as real * hi + hi;
    }
  }

  /** A sum of non-negative terms is at least each of its terms. */
  lemma {:induction false} SumAtLeastTerm(xs: seq<real>, i: nat)
    requires forall j :: 0 <= j < |xs| ==> xs[j] >= 0.0
    requires i < |xs|
    ensures Sum(xs) >= xs[i]
  {
    var init := xs[..|xs| - 1];
    assert forall j :: 0 <= j < |init| ==> init[j] == xs[j];
    if i < |xs| - 1 {
      SumAtLeastTerm(init, i);
    } else {
      SumNonNegative(init);
    }
  }

  lemma {:induction false} SumNonNegative(xs: seq<real>)
    requires forall j :: 0 <= j < |xs| ==> xs[j] >= 0.0
    ensures Sum(xs) >= 0.0
  {
    if xs != [] {
      var init := xs[..|xs| - 1];
      assert forall j :: 0 <= j < |init| ==> init[j] == xs[j];
      SumNonNegative(init);
    }
  }

  /** The mean lies between the least and the greatest element. */
  lemma {:induction false} MeanBounds(xs: seq<real>)
    requires xs != []
    ensures Min(xs) <= Mean(xs) <= Max(xs)
  {
    var lo, hi, n := Min(xs), Max(xs), |xs| as real;
    assert n * lo <= Sum(xs) <= n * hi by {
      SumBounds(xs, lo, hi);
    }
    ScaleBetween(lo, Sum(xs), hi, n);
  }

  lemma {:induction false} ScaleBetween(lo: real, s: real, hi: real, n: real)
    requires n > 0.0 && n * lo <= s <= n * hi
    ensures lo <= s / n <= hi
  {
    var q := s / n;
    assert s == n * q;
    assert n * (q - lo) >= 0.0;
    assert n * (hi - q) >= 0.0;
  }

  /** Scaling every term scales the sum. */
  lemma {:induction false} SumScale(ws: seq<real>, c: real)
    ensures Sum(Scale(ws, c)) == Sum(ws) * c
  {
    if ws != [] {
      var n := |ws|;
      var s, init := Scale(ws, c), ws[..n - 1];
      ScalePrefix(ws, c);
      SumScale(init, c);
      ScaleStep(c, Sum(init), ws[n - 1], Sum(ws), Sum(Scale(init, c)), Sum(s), s[n - 1]);
    }
  }

  lemma {:induction false} ScalePrefix(ws: seq<real>, c: real)
    requires ws != []
    ensures Scale(ws, c)[..|ws| - 1] == Scale(ws[..|ws| - 1], c)
  {
    var s, init := Scale(ws, c), ws[..|ws| - 1];
    forall k | 0 <= k < |init|
      ensures s[..|ws| - 1][k] == Scale(init, c)[k]
    {
      assert init[k] == ws[k];
    }
  }

  lemma {:induction false} ScaleStep(c: real, sInit: real, w: real, total: real, scaledInit: real, scaled: real, last: real)
    requires scaledInit == sInit * c && total == sInit + w && last == c * w && scaled == scaledInit + last
    ensures scaled == total * c
  {
  }

  /** A sum is monotone in its terms. */
  lemma {:induction false} SumMonotone(a: seq<real>, b: seq<real>)
    requires |a| == |b|
    requires forall k :: 0 <= k < |a| ==> a[k] <= b[k]
    ensures Sum(a) <= Sum(b)
  {
    if a != [] {
      var n := |a|;
      assert forall k :: 0 <= k < n - 1 ==> a[..n - 1][k] == a[k] && b[..n - 1][k] == b[k];
      SumMonotone(a[..n - 1], b[..n - 1]);
    }
  }

  lemma {:induction false} ProductBetween(v: real, w: real, lo: real, hi: real)
    requires lo <= v <= hi && w >= 0.0
    ensures lo * w <= v * w <= hi * w
  {
    assert (v - lo) * w >= 0.0;
    assert (hi - v) * w >= 0.0;
  }

  /** With a non-negative weight, each product lies between the weight times `lo` and times `hi`. */
  lemma {:induction false} TermsBetween(vs: seq<real>, ws: seq<real>, lo: real, hi: real)
    requires |vs| == |ws|
    requires forall k :: 0 <= k < |vs| ==> lo <= vs[k] <= hi
    requires forall k :: 0 <= k < |ws| ==> ws[k] >= 0.0
    ensures forall k :: 0 <= k < |ws| ==> Scale(ws, lo)[k] <= Products(vs, ws)[k] <= Scale(ws, hi)[k]
  {
    forall k | 0 <= k < |ws|
      ensures Scale(ws, lo)[k] <= Products(vs, ws)[k] <= Scale(ws, hi)[k]
    {
      ProductBetween(vs[k], ws[k], lo, hi);
    }
  }

  /**
   * With non-negative weights, a weighted sum lies between the total weight
   * times the least and times the greatest value.
   */
  lemma {:induction false} WeightedSumBounds(vs: seq<real>, ws: seq<real>, lo: real, hi: real)
    requires |vs| == |ws|
    requires forall k :: 0 <= k < |vs| ==> lo <= vs[k] <= hi
    requires forall k :: 0 <= k < |ws| ==> ws[k] >= 0.0
    ensures Sum(ws) * lo <= Sum(Products(vs, ws)) <= Sum(ws) * hi
  {
    TermsBetween(vs, ws, lo, hi);
    SumMonotone(Scale(ws, lo), Products(vs, ws));
    SumMonotone(Products(vs, ws), Scale(ws, hi));
    SumScale(ws, lo);
    SumScale(ws, hi);
  }

  /** A weighted mean with non-negative weights lies between the least and the greatest value. */
  lemma {:induction false} WeightedMeanBounds(vs: seq<real>, ws: seq<real>)
    requires |vs| == |ws| && vs != []
    requires forall k :: 0 <= k < |ws| ==> ws[k] >= 0.0
    requires Sum(ws) > 0.0
    ensures Min(vs) <= Sum(Products(vs, ws)) / Sum(ws) <= Max(vs)
  {
    WeightedMeanBetween(vs, ws, Min(vs), Max(vs));
  }

  lemma {:induction false} WeightedMeanBetween(vs: seq<real>, ws: seq<real>, lo: real, hi: real)
    requires |vs| == |ws|
    requires forall k :: 0 <= k < |vs| ==> lo <= vs[k] <= hi
    requires forall k :: 0 <= k < |ws| ==> ws[k] >= 0.0
    requires Sum(ws) > 0.0
    ensures lo <= Sum(Products(vs, ws)) / Sum(ws) <= hi
  {
    var s, n := Sum(Products(vs, ws)), Sum(ws);
    assert n * lo <= s <= n * hi by {
      WeightedSumBounds(vs, ws, lo, hi);
    }
    ScaleBetween(lo, s, hi, n);
  }

  /** A weighted sum with zero weights is zero. */
  lemma {:induction false} WeightedSumZeroWeights(vs: seq<real>, ws: seq<real>)
    requires |vs| == |ws|
    requires forall k :: 0 <= k < |ws| ==> ws[k] == 0.0
    ensures Sum(Products(vs, ws)) == 0.0
  {
    var ps := Products(vs, ws);
    assert forall k :: 0 <= k < |ps| ==> ps[k] == 0.0;
    SumBounds(ps, 0.0, 0.0);
  }
}
