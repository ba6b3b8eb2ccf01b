/** The pure statistics of the tester: the arithmetic mean of a list of
    durations and the spreadsheet-style trimmed mean built on it. */
module Samples {
  import opened Results

  /** Below this many samples the trimmed mean is the plain mean. */
  const TrimThreshold: nat := 10

  /** Sum of the samples, folded left to right as `reduce((a, b) => a + b)` does. */
  function Sum(s: seq<real>): real
  {
    if |s| == 0 then 0.0 else Sum(s[..|s| - 1]) + s[|s| - 1]
  }

  lemma SumAppend(s: seq<real>, x: real)
    ensures Sum(s + [x]) == Sum(s) + x
  {
    assert (s + [x])[..|s|] == s;
  }

  /** Largest sample. */
  function Max(s: seq<real>): (r: real)
    requires |s| > 0
    ensures forall i :: 0 <= i < |s| ==> s[i] <= r
    ensures exists i :: 0 <= i < |s| && s[i] == r
  {
    if |s| == 1 then s[0]
    else
      var m := Max(s[..|s| - 1]);
      if s[|s| - 1] > m then s[|s| - 1] else m
  }

  /** Smallest sample. */
  function Min(s: seq<real>): (r: real)
    requires |s| > 0
    ensures forall i :: 0 <= i < |s| ==> r <= s[i]
    ensures exists i :: 0 <= i < |s| && s[i] == r
  {
    if |s| == 1 then s[0]
    else
      var m := Min(s[..|s| - 1]);
      if s[|s| - 1] < m then s[|s| - 1] else m
  }

  /** The untrimmed mean of a non-empty list. */
  function Mean(values: seq<real>): real
    requires |values| > 0
  {
    Sum(values) / (|values| as real)
  }

  /** `average(values)`: the arithmetic mean, or the `reduce` failure on an
      empty list. */
  function Average(values: seq<real>): (r: Result<real>)
    ensures r.Failure? <==> |values| == 0
    ensures r.Failure? ==> r.error == EmptyAggregateSet
    ensures r.Success? ==> r.value * (|values| as real) == Sum(values)
  {
    if |values| == 0 then Failure(EmptyAggregateSet)
    else Success(Mean(values))
  }

  lemma {:induction false} SumBetween(s: seq<real>, lo: real, hi: real)
    requires forall i :: 0 <= i < |s| ==> lo <= s[i] <= hi
    ensures (|s| as real) * lo <= Sum(s) <= (|s| as real) * hi
  {
    if |s| > 0 {
      var p := s[..|s| - 1];
      SumBetween(p, lo, hi);
      assert (|s| as real) * lo == (|p| as real) * lo + lo;
      assert (|s| as real) * hi == (|p| as real) * hi + hi;
    }
  }

  lemma {:induction false} SumStrictlyBetween(s: seq<real>, lo: real, hi: real)
    requires |s| > 0
    requires forall i :: 0 <= i < |s| ==> lo < s[i] < hi
    ensures (|s| as real) * lo < Sum(s) < (|s| as real) * hi
  {
    var p := s[..|s| - 1];
    if |p| > 0 {
      SumStrictlyBetween(p, lo, hi);
    }
    assert (|s| as real) * lo == (|p| as real) * lo + lo;
    assert (|s| as real) * hi == (|p| as real) * hi + hi;
  }

  /** Dividing `n * lo <= a * n <= n * hi` by a positive `n`. */
  lemma DivideBounds(n: real, a: real, lo: real, hi: real)
    requires n > 0.0
    requires n * lo <= a * n <= n * hi
    ensures lo <= a <= hi
  {
  }

  /** Dividing `n * lo < a * n < n * hi` by a positive `n`. */
  lemma DivideStrictBounds(n: real, a: real, lo: real, hi: real)
    requires n > 0.0
    requires n * lo < a * n < n * hi
    ensures lo < a < hi
  {
  }

  /** The mean of samples that all lie in [lo, hi] lies in [lo, hi]. */
  lemma MeanBetween(s: seq<real>, lo: real, hi: real)
    requires |s| > 0
    requires forall i :: 0 <= i < |s| ==> lo <= s[i] <= hi
    ensures lo <= Mean(s) <= hi
  {
    SumBetween(s, lo, hi);
    DivideBounds(|s| as real, Mean(s), lo, hi);
  }

  /** The mean of samples that all lie in (lo, hi) lies in (lo, hi). */
  lemma MeanStrictlyBetween(s: seq<real>, lo: real, hi: real)
    requires |s| > 0
    requires forall i :: 0 <= i < |s| ==> lo < s[i] < hi
    ensures lo < Mean(s) < hi
  {
    SumStrictlyBetween(s, lo, hi);
    DivideStrictBounds(|s| as real, Mean(s), lo, hi);
  }

  /** The mean of a non-empty list lies between its smallest and largest sample. */
  lemma AverageWithinExtremes(values: seq<real>)
    requires |values| > 0
    ensures Average(values).Success?
    ensures Min(values) <= Average(values).value <= Max(values)
  {
    MeanBetween(values, Min(values), Max(values));
  }

  /** The samples strictly inside the open band (lo, hi), in their original order. */
  function Band(values: seq<real>, lo: real, hi: real): (r: seq<real>)
    ensures |r| <= |values|
    ensures forall i :: 0 <= i < |r| ==> lo < r[i] < hi
  {
    if |values| == 0 then []
    else
      var last := values[|values| - 1];
      Band(values[..|values| - 1], lo, hi) + (if lo < last < hi then [last] else [])
  }

  /** A value strictly inside (lo, hi) is kept as often as it occurs; a value
      outside is never kept. */
  lemma {:induction false} BandKeepsExactlyTheInside(values: seq<real>, lo: real, hi: real)
    ensures forall x :: multiset(Band(values, lo, hi))[x] == if lo < x < hi then multiset(values)[x] else 0
  {
    if |values| > 0 {
      var last := values[|values| - 1];
      BandKeepsExactlyTheInside(values[..|values| - 1], lo, hi);
      assert values == values[..|values| - 1] + [last];
    }
  }

  /** With no sample strictly inside (lo, hi), nothing is kept. */
  lemma {:induction false} BandEmptyWhenNothingInside(values: seq<real>, lo: real, hi: real)
    requires forall i :: 0 <= i < |values| ==> !(lo < values[i] < hi)
    ensures Band(values, lo, hi) == []
  {
    if |values| > 0 {
      BandEmptyWhenNothingInside(values[..|values| - 1], lo, hi);
    }
  }

  /** The `forEach`/`push` loop of `trimmedAverage`: keeps each `v` with
      `v < maxTrimmed && v > minTrimmed`, in order. */
  method FilterBand(values: seq<real>, minTrimmed: real, maxTrimmed: real) returns (kept: seq<real>)
    ensures kept == Band(values, minTrimmed, maxTrimmed)
  {
    kept := [];
    var i := 0;
    while i < |values|
      invariant 0 <= i <= |values|
      invariant kept == Band(values[..i], minTrimmed, maxTrimmed)
    {
      var v := values[i];
      if v < maxTrimmed && v > minTrimmed {
        kept := kept + [v];
      }
      assert values[..i + 1][..i] == values[..i];
      i := i + 1;
    }
    assert values[..|values|] == values;
  }

  /** The mean of the samples strictly inside (avg/3, avg*3): the second half of
      `trimmedAverage`, where `avg` is the untrimmed mean. */
  function TrimAround(values: seq<real>, avg: real): (r: Result<real>)
    ensures r.Failure? ==> r.error == EmptyAggregateSet
  {
    Average(Band(values, avg / 3.0, avg * 3.0))
  }

  /** `trimmedAverage(values)`: the plain mean below ten samples, otherwise the
      mean of the samples strictly inside (mean/3, mean*3). Fails when the list,
      or the band, is empty. */
  function TrimmedAverage(values: seq<real>): (r: Result<real>)
    ensures |values| == 0 ==> r == Failure(EmptyAggregateSet)
    ensures r.Failure? ==> r.error == EmptyAggregateSet
  {
    var avg :- Average(values);
    if |values| < TrimThreshold then Success(avg) else TrimAround(values, avg)
  }

  /** Below ten samples nothing is trimmed: the result is the plain mean. */
  lemma TrimmedAverageUntrimmed(values: seq<real>)
    requires 0 < |values| < TrimThreshold
    ensures TrimmedAverage(values) == Success(Mean(values))
    ensures TrimmedAverage(values).value * (|values| as real) == Sum(values)
  {
  }

  /** A successful trim lies strictly inside the band it trimmed to. */
  lemma TrimAroundInBand(values: seq<real>, avg: real)
    requires TrimAround(values, avg).Success?
    ensures avg / 3.0 < TrimAround(values, avg).value < avg * 3.0
  {
    MeanStrictlyBetween(Band(values, avg / 3.0, avg * 3.0), avg / 3.0, avg * 3.0);
  }

  /** A successful trim is the mean of exactly the samples kept in the band. */
  lemma TrimAroundIsBandMean(values: seq<real>, avg: real)
    requires TrimAround(values, avg).Success?
    ensures var kept := Band(values, avg / 3.0, avg * 3.0);
      |kept| > 0 && TrimAround(values, avg).value * (|kept| as real) == Sum(kept)
  {
  }

  /** From ten samples on, the trimmed mean is the trim around the plain mean. */
  lemma TrimmedAverageIsBandMean(values: seq<real>)
    requires |values| >= TrimThreshold
    ensures TrimmedAverage(values) == TrimAround(values, Mean(values))
  {
  }

  /** A sample strictly inside (lo, hi) is kept, so the band is not empty. */
  lemma BandKeepsAnInsideSample(values: seq<real>, lo: real, hi: real, i: nat)
    requires i < |values| && lo < values[i] < hi
    ensures |Band(values, lo, hi)| > 0
  {
    BandKeepsExactlyTheInside(values, lo, hi);
    assert values[i] in multiset(values);
    assert multiset(Band(values, lo, hi))[values[i]] > 0;
  }

  /** A trim fails exactly when no sample lies strictly inside the band. */
  lemma TrimAroundFailsIffBandEmpty(values: seq<real>, avg: real)
    ensures TrimAround(values, avg).Failure? <==>
      forall i :: 0 <= i < |values| ==> !(avg / 3.0 < values[i] < avg * 3.0)
  {
    if i :| 0 <= i < |values| && avg / 3.0 < values[i] < avg * 3.0 {
      BandKeepsAnInsideSample(values, avg / 3.0, avg * 3.0, i);
    } else {
      BandEmptyWhenNothingInside(values, avg / 3.0, avg * 3.0);
    }
  }

  /** From ten samples on, a successful trimmed mean lies strictly inside
      (mean/3, mean*3). */
  lemma TrimmedAverageInBand(values: seq<real>)
    requires |values| >= TrimThreshold
    requires TrimmedAverage(values).Success?
    ensures Mean(values) / 3.0 < TrimmedAverage(values).value < Mean(values) * 3.0
  {
    TrimAroundInBand(values, Mean(values));
  }

  /** From ten samples on, the trimmed mean fails exactly when no sample lies
      strictly inside (mean/3, mean*3). */
  lemma TrimmedAverageFailsIffBandEmpty(values: seq<real>)
    requires |values| >= TrimThreshold
    ensures TrimmedAverage(values).Failure? <==>
      forall i :: 0 <= i < |values| ==> !(Mean(values) / 3.0 < values[i] < Mean(values) * 3.0)
  {
    TrimAroundFailsIffBandEmpty(values, Mean(values));
  }
}
