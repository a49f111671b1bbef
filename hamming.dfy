/** Hamming similarity of two fingerprints (`calculateSimilarity`). */
module Hamming {

  /** A JavaScript number as far as this model needs one: the similarity
      of two empty fingerprints is 0/0, which is NaN. */
  datatype Num = Finite(value: real) | NaN

  /** JavaScript `x >= t`: false whenever `x` is NaN. */
  predicate AtLeast(x: Num, t: real) {
    x.Finite? && x.value >= t
  }

  /** Number of positions at which two equal-length strings differ; never
      more than their length. */
  function Mismatches(a: string, b: string): (d: nat)
    requires |a| == |b|
    ensures d <= |a|
    decreases |a|
  {
    if |a| == 0 then 0
    else Mismatches(a[..|a| - 1], b[..|b| - 1]) + (if a[|a| - 1] != b[|b| - 1] then 1 else 0)
  }

  /** The value `calculateSimilarity` returns, as an exact real: 0 for
      different lengths, otherwise one minus the fraction of differing
      positions. It is NaN only for two empty fingerprints, and a number in
      [0, 1] otherwise. */
  function Similarity(a: string, b: string): (r: Num)
    ensures r.NaN? <==> a == [] && b == []
    ensures r.Finite? ==> 0.0 <= r.value <= 1.0
  {
    if |a| != |b| then Finite(0.0)
    else if |a| == 0 then NaN
    else
      var d, n := Mismatches(a, b) as real, |a| as real;
      assert 0.0 <= d / n <= 1.0 by {
        assert d <= n;
      }
      Finite(1.0 - d / n)
  }

  lemma {:induction false} MismatchesSymmetric(a: string, b: string)
    requires |a| == |b|
    ensures Mismatches(a, b) == Mismatches(b, a)
    decreases |a|
  {
    if |a| > 0 {
      MismatchesSymmetric(a[..|a| - 1], b[..|b| - 1]);
    }
  }

  /** No mismatches exactly when the strings are equal. */
  lemma {:induction false} MismatchesZeroIff(a: string, b: string)
    requires |a| == |b|
    ensures Mismatches(a, b) == 0 <==> a == b
    decreases |a|
  {
    if |a| > 0 {
      var a', b' := a[..|a| - 1], b[..|b| - 1];
      MismatchesZeroIff(a', b');
      assert a == a' + [a[|a| - 1]] && b == b' + [b[|b| - 1]];
      if a == b {
        assert a' == b';
      }
    }
  }

  lemma SimilaritySymmetric(a: string, b: string)
    ensures Similarity(a, b) == Similarity(b, a)
  {
    if |a| == |b| {
      MismatchesSymmetric(a, b);
    }
  }

  /** Similarity is 1 exactly for two identical non-empty fingerprints. */
  lemma SimilarityOneIff(a: string, b: string)
    ensures Similarity(a, b) == Finite(1.0) <==> a == b && |a| > 0
  {
    if |a| == |b| && |a| > 0 {
      MismatchesZeroIff(a, b);
      var d, n := Mismatches(a, b) as real, |a| as real;
      assert d / n == 0.0 <==> d == 0.0;
    }
  }

  /** The fingerprints the perceptual pass compares have 32 * 32 = 1024
      positions; at the default threshold 0.85 two of them match exactly when
      at most 153 positions differ. */
  lemma DefaultThresholdOnFullFingerprints(a: string, b: string)
    requires |a| == |b| == 1024
    ensures AtLeast(Similarity(a, b), 0.85) <==> Mismatches(a, b) <= 153
  {
    var d := Mismatches(a, b);
    assert Similarity(a, b) == Finite(1.0 - (d as real) / 1024.0);
  }

  /** Among fingerprints of one common length, more differing positions
      never give a higher similarity, and strictly more give a strictly
      lower one. */
  lemma SimilarityFallsWithMismatches(a: string, b: string, x: string, y: string)
    requires |a| == |b| == |x| == |y| > 0
    requires Mismatches(a, b) <= Mismatches(x, y)
    ensures Similarity(a, b).Finite? && Similarity(x, y).Finite?
    ensures Similarity(x, y).value <= Similarity(a, b).value
    ensures Mismatches(a, b) < Mismatches(x, y) ==> Similarity(x, y).value < Similarity(a, b).value
  {
    ShareOrdered(Mismatches(a, b) as real, Mismatches(x, y) as real, |a| as real);
  }

  /** Dividing by a positive length keeps the order of two counts. */
  lemma ShareOrdered(p: real, q: real, n: real)
    requires 0.0 < n && p <= q
    ensures p / n <= q / n
    ensures p < q ==> p / n < q / n
  {
    assert (q - p) / n >= 0.0;
    assert q / n - p / n == (q - p) / n;
    if p < q {
      assert (q - p) / n > 0.0;
    }
  }
}
