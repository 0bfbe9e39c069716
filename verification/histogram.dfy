/**
 * `find_histogram`: counts the k-means label array into the bins whose edges
 * are `0, 1, ..., u`, where `u` is the number of distinct labels, then
 * divides the counts by their total.
 *
 * The bins follow the binning rule of `np.histogram`: every bin is the
 * half-open interval `[i, i + 1)` except the last, `[u - 1, u]`, which also
 * takes its right edge. A label outside `[0, u]` is counted nowhere.
 */
module Histogram {
  import opened Colors

  /** `len(np.unique(labels))`. */
  function Distinct(labels: seq<nat>): nat
  {
    |set l | l in labels|
  }

  /** An integer label lies in the bin `[lo, lo + 1)`, or `[lo, lo + 1]` when the bin is the last one. */
  predicate InBin(l: nat, lo: nat, closed: bool)
  {
    (lo <= l < lo + 1) || (closed && l == lo + 1)
  }

  function BinCount(labels: seq<nat>, lo: nat, closed: bool): nat
  {
    if labels == [] then 0
    else BinCount(labels[..|labels| - 1], lo, closed) + (if InBin(labels[|labels| - 1], lo, closed) then 1 else 0)
  }

  /** The counts of the `u` bins with edges `0..u`. */
  function Bins(labels: seq<nat>, u: nat): seq<nat>
  {
    seq<nat>(u, i requires 0 <= i < u => BinCount(labels, i, i == u - 1))
  }

  /** The counts `find_histogram` divides by their total. */
  function FindHistogram(labels: seq<nat>): (hist: seq<nat>)
    ensures |hist| == Distinct(labels)
  {
    Bins(labels, Distinct(labels))
  }

  function RealTotal(s: seq<real>): real
  {
    if s == [] then 0.0 else RealTotal(s[..|s| - 1]) + s[|s| - 1]
  }

  /**
   * `hist /= hist.sum()`, in exact arithmetic. `None` stands for the
   * division of zero by zero, which numpy answers with NaNs.
   */
  function Normalised(counts: seq<nat>): (fractions: Option<seq<real>>)
    ensures fractions.None? <==> Sum(counts) == 0
    ensures fractions.Some? ==>
      |fractions.value| == |counts|
      && forall i :: 0 <= i < |counts| ==> fractions.value[i] * (Sum(counts) as real) == counts[i] as real
  {
    var t := Sum(counts);
    if t == 0 then None
    else Some(seq(|counts|, i requires 0 <= i < |counts| => counts[i] as real / t as real))
  }

  /** The occurrence counts of the labels `0..u-1`, in order. */
  function Occurrences(labels: seq<nat>, u: nat): seq<nat>
  {
    seq<nat>(u, i requires 0 <= i < u => multiset(labels)[i])
  }

  /** The labels are exactly `0..u-1`: every label is below the number of distinct labels. */
  predicate ExactLabels(labels: seq<nat>)
  {
    forall l :: l in labels ==> l < Distinct(labels)
  }

  /** A bin counts the labels equal to its left edge, and the last bin also those equal to its right edge. */
  lemma {:induction false} BinCountOccurrences(labels: seq<nat>, lo: nat, closed: bool)
    ensures BinCount(labels, lo, closed) == multiset(labels)[lo] + (if closed then multiset(labels)[lo + 1] else 0)
  {
    if labels != [] {
      var init, x := labels[..|labels| - 1], labels[|labels| - 1];
      assert labels == init + [x];
      assert multiset(labels) == multiset(init) + multiset{x};
      BinCountOccurrences(init, lo, closed);
    }
  }

  /** What each bin of `find_histogram` holds, for any label array. */
  lemma HistogramBins(labels: seq<nat>)
    ensures var hist, u := FindHistogram(labels), Distinct(labels);
      (forall i: nat :: i + 1 < u ==> hist[i] == multiset(labels)[i])
      && (u > 0 ==> hist[u - 1] == multiset(labels)[u - 1] + multiset(labels)[u])
  {
    var hist, u := FindHistogram(labels), Distinct(labels);
    forall i: nat | i + 1 < u
      ensures hist[i] == multiset(labels)[i]
    {
      BinCountOccurrences(labels, i, false);
    }
    if u > 0 {
      BinCountOccurrences(labels, u - 1, true);
    }
  }

  /** Raising one entry by one raises the total by one. */
  lemma {:induction false} TotalBump(a: seq<nat>, b: seq<nat>, k: nat)
    requires |a| == |b| && k < |a|
    requires b[k] == a[k] + 1
    requires forall i :: 0 <= i < |a| && i != k ==> b[i] == a[i]
    ensures Sum(b) == Sum(a) + 1
  {
    var n := |a|;
    if k == n - 1 {
      assert a[..n - 1] == b[..n - 1];
    } else {
      TotalBump(a[..n - 1], b[..n - 1], k);
    }
  }

  /** When every label is below `u`, the occurrence counts of `0..u-1` add up to the number of labels. */
  lemma {:induction false} OccurrencesTotal(labels: seq<nat>, u: nat)
    requires forall l :: l in labels ==> l < u
    ensures Sum(Occurrences(labels, u)) == |labels|
  {
    var b := Occurrences(labels, u);
    if labels == [] {
      ZeroTotal(b);
    } else {
      var init, x := labels[..|labels| - 1], labels[|labels| - 1];
      assert labels == init + [x];
      assert multiset(labels) == multiset(init) + multiset{x};
      assert forall l :: l in init ==> l in labels;
      assert x in labels;
      var a := Occurrences(init, u);
      OccurrencesTotal(init, u);
      TotalBump(a, b, x);
    }
  }

  lemma {:induction false} ZeroTotal(s: seq<nat>)
    requires forall i :: 0 <= i < |s| ==> s[i] == 0
    ensures Sum(s) == 0
  {
    if s != [] {
      ZeroTotal(s[..|s| - 1]);
    }
  }

  /**
   * With labels exactly `0..u-1`: there are `u` bins, bin `i` holds the
   * number of occurrences of label `i`, and the bins add up to the number of
   * labels.
   */
  lemma HistogramOfExactLabels(labels: seq<nat>)
    requires ExactLabels(labels)
    ensures var hist, u := FindHistogram(labels), Distinct(labels);
      |hist| == u
      && (forall i :: 0 <= i < u ==> hist[i] == multiset(labels)[i])
      && Sum(hist) == |labels|
  {
    var hist, u := FindHistogram(labels), Distinct(labels);
    HistogramBins(labels);
    assert u !in labels;
    assert multiset(labels)[u] == 0;
    assert hist == Occurrences(labels, u);
    OccurrencesTotal(labels, u);
  }

  /** The fractions of a non-zero count vector add up to one. */
  lemma FractionsSumToOne(counts: seq<nat>)
    requires Sum(counts) > 0
    ensures Normalised(counts).Some? && RealTotal(Normalised(counts).value) == 1.0
  {
    var t := Sum(counts) as real;
    ScaledTotal(counts, t);
    assert Normalised(counts).value == seq(|counts|, i requires 0 <= i < |counts| => counts[i] as real / t);
  }

  lemma {:induction false} ScaledTotal(s: seq<nat>, t: real)
    requires t > 0.0
    ensures RealTotal(seq(|s|, i requires 0 <= i < |s| => s[i] as real / t)) == Sum(s) as real / t
  {
    var f := seq(|s|, i requires 0 <= i < |s| => s[i] as real / t);
    if s != [] {
      var init := s[..|s| - 1];
      ScaledTotal(init, t);
      assert f[..|s| - 1] == seq(|init|, i requires 0 <= i < |init| => init[i] as real / t);
      var a, b := Sum(init) as real, s[|s| - 1] as real;
      assert a / t + b / t == (a + b) / t;
    }
  }

  /** For the usual k-means output, the normalised histogram is a distribution. */
  lemma ExactLabelsNormalise(labels: seq<nat>)
    requires ExactLabels(labels) && labels != []
    ensures Normalised(FindHistogram(labels)).Some?
    ensures RealTotal(Normalised(FindHistogram(labels)).value) == 1.0
  {
    HistogramOfExactLabels(labels);
    FractionsSumToOne(FindHistogram(labels));
  }

  /**
   * Label arrays that miss a label in `0..u-1`: labels `[1, 2]` both land in
   * the last, closed bin; label 3 of `[0, 3]` lies beyond the last edge and is
   * lost; `[5]` leaves every bin empty, so the division is by zero.
   */
  lemma OffGridLabels()
    ensures FindHistogram([1, 2]) == [0, 2]
    ensures FindHistogram([0, 3]) == [1, 0]
    ensures FindHistogram([5]) == [0] && Normalised(FindHistogram([5])).None?
  {
    assert (set l | l in [1, 2]) == {1, 2};
    assert (set l | l in [0, 3]) == {0, 3};
    assert (set l | l in [5]) == {5};
    HistogramBins([1, 2]);
    HistogramBins([0, 3]);
    HistogramBins([5]);
  }
}
