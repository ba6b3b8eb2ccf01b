/** Concrete runs of the statistics engine, worked out from the definitions. */
module Scenarios {
  import opened Results
  import opened Samples
  import opened ModeStatistics
  import opened TestCatalog
  import opened TestDriver

  /** `k` copies of one sample. */
  function Repeat(x: real, k: nat): (s: seq<real>)
    ensures |s| == k
    ensures forall i :: 0 <= i < k ==> s[i] == x
  {
    seq(k, _ => x)
  }

  lemma {:induction false} SumRepeat(x: real, k: nat)
    ensures Sum(Repeat(x, k)) == (k as real) * x
  {
    if k > 0 {
      assert Repeat(x, k) == Repeat(x, k - 1) + [x];
      SumAppend(Repeat(x, k - 1), x);
      SumRepeat(x, k - 1);
    }
  }

  /** Nine samples of 1 and one of 1000: the mean is 100.9, the band
      (33.63.., 302.7) holds no sample, and the trimmed mean throws. */
  lemma OutlierEmptiesTheBand()
    ensures TrimmedAverage(Repeat(1.0, 9) + [1000.0]) == Failure(EmptyAggregateSet)
  {
    var s := Repeat(1.0, 9) + [1000.0];
    SumRepeat(1.0, 9);
    SumAppend(Repeat(1.0, 9), 1000.0);
    assert Mean(s) == 100.9;
    TrimmedAverageFailsIffBandEmpty(s);
  }

  /** Ten samples of 0: the band (0, 0) is empty and the trimmed mean throws. */
  lemma TenZerosEmptyTheBand()
    ensures TrimmedAverage(Repeat(0.0, 10)) == Failure(EmptyAggregateSet)
  {
    SumRepeat(0.0, 10);
    TrimmedAverageFailsIffBandEmpty(Repeat(0.0, 10));
  }

  /** Strictly positive samples can empty the band too: nine 1s and a 21 have
      mean 3, and neither 1 nor 21 lies strictly inside (1, 9). */
  lemma PositiveSamplesCanEmptyTheBand()
    ensures TrimmedAverage(Repeat(1.0, 9) + [21.0]) == Failure(EmptyAggregateSet)
  {
    var s := Repeat(1.0, 9) + [21.0];
    SumRepeat(1.0, 9);
    SumAppend(Repeat(1.0, 9), 21.0);
    assert Mean(s) == 3.0;
    TrimmedAverageFailsIffBandEmpty(s);
  }

  /** Nine 1s into a fresh record complete, with `HighVal` 1. */
  lemma NineOnes()
    ensures RecordAll(Initial, Repeat(1.0, 9)).durations == Repeat(1.0, 9)
    ensures RecordAll(Initial, Repeat(1.0, 9)).highVal == 1.0
  {
    ShortRunsNeverAbort(Initial, Repeat(1.0, 9));
    RecordAllTracksExtremes(Repeat(1.0, 9));
    RecordAllAppends(Initial, Repeat(1.0, 9));
  }

  /** A 21 after nine 1s aborts, leaving `HighVal` as it was. */
  lemma TwentyOneAfterNineOnesAborts(m: ModeStats)
    requires m.durations == Repeat(1.0, 9)
    ensures Record(m, 21.0).Aborted?
    ensures Record(m, 21.0).stats.highVal == m.highVal
  {
    PositiveSamplesCanEmptyTheBand();
  }

  /** When the tenth sample aborts, `HighVal` misses it: after nine 1s and a
      21 the record still says 1, although the largest sample is 21. */
  lemma AbortedStepMissesTheMaximum()
    ensures RecordAll(Initial, Repeat(1.0, 9) + [21.0]).highVal == 1.0
    ensures Max(Repeat(1.0, 9) + [21.0]) == 21.0
  {
    var p := Repeat(1.0, 9);
    var ds := p + [21.0];
    assert ds[..|ds| - 1] == p;
    NineOnes();
    TwentyOneAfterNineOnesAborts(RecordAll(Initial, p));
  }

  /** Samples 10, 20, 30 into a fresh record: counter 3, total 60, average
      20, high 30, low 10. */
  lemma ThreeSamples()
    ensures var m := RecordAll(Initial, [10.0, 20.0, 30.0]);
      && m.counter == 3 && m.totalDuration == 60.0 && m.average == 20.0
      && m.highVal == 30.0 && m.lowVal == 10.0
  {
    var ds := [10.0, 20.0, 30.0];
    assert ds[..2] == [10.0, 20.0];
    assert ds[..2][..1] == [10.0];
    assert [10.0, 20.0][..1] == [10.0];
    var m1 := RecordAll(Initial, [10.0]);
    assert m1 == Record(Initial, 10.0).stats;
    assert m1.durations == [10.0];
    assert Sum([10.0]) == 10.0;
    var m2 := RecordAll(Initial, [10.0, 20.0]);
    assert m2 == Record(m1, 20.0).stats;
    assert m2.durations == [10.0, 20.0];
    SumAppend([10.0], 20.0);
    var m3 := RecordAll(Initial, ds);
    assert m3 == Record(m2, 30.0).stats;
    assert m3.durations == [10.0, 20.0, 30.0];
    SumAppend([10.0, 20.0], 30.0);
    assert Mean(m3.durations) == 20.0;
  }

  /** A zero sample resets the "unset" sentinel, so the next sample becomes
      `LowVal` even though it is not the smallest. */
  lemma ZeroSampleLosesTheMinimum()
    ensures RecordAll(Initial, [5.0, 0.0, 7.0]).lowVal == 7.0
    ensures Min([5.0, 0.0, 7.0]) == 0.0
  {
    var ds := [5.0, 0.0, 7.0];
    assert ds[..2] == [5.0, 0.0];
    assert [5.0, 0.0][..1] == [5.0];
    var m1 := RecordAll(Initial, [5.0]);
    assert m1 == Record(Initial, 5.0).stats;
    var m2 := RecordAll(Initial, [5.0, 0.0]);
    assert m2 == Record(m1, 0.0).stats;
    assert m2.lowVal == 0.0;
    assert RecordAll(Initial, ds) == Record(m2, 7.0).stats;
  }

  /** A catalog holding the single test `"Login"`, fresh in both modes. */
  const LoginCatalog: Catalog := [TestDef("Login", Initial, Initial)]

  /** Two samples arriving as 30 then 10 are kept in that order and total 40. */
  lemma DeliveryOrderIsKept()
    ensures var m := RecordAll(Initial, [30.0, 10.0]);
      m.durations == [30.0, 10.0] && m.counter == 2 && m.totalDuration == 40.0
  {
    RecordAllAppends(Initial, [30.0, 10.0]);
    SumAppend([30.0], 10.0);
  }

  /** A sample for a test the catalog does not hold fails and changes nothing. */
  lemma UnknownTestChangesNothing()
    ensures RecordTestResult(LoginCatalog, "X", "A", 100.0) == Failed(LoginCatalog, UnknownTest)
  {
  }

  /** Mode `"C"` is not rejected: it lands on `ModeB` and chart series 1. */
  lemma OtherModesGoToModeB()
    ensures var r := RecordTestResult(LoginCatalog, "Login", "C", 100.0);
      && r.Recorded?
      && r.catalog[0].modeB.durations == [100.0]
      && r.catalog[0].modeA == Initial
      && r.chart == ChartUpdate("Login", 100.0, 1)
  {
    RecordCompletesBelowThreshold(Initial, 100.0);
  }

  /** One cycle over the one-test catalog issues ("Login", "A") then
      ("Login", "B"); a response of 0 is dropped and a rejected call too. */
  lemma CycleDropsFalsyResponses()
    ensures IssueCycle(LoginCatalog) == [Request("Login", "A"), Request("Login", "B")]
    ensures AdmitAll([(Request("Login", "A"), Resolved(0.0)), (Request("Login", "B"), Rejected)]) == []
    ensures AdmitAll([(Request("Login", "B"), Resolved(12.5)), (Request("Login", "A"), ResolvedEmpty)])
      == [Completion("Login", "B", 12.5)]
  {
  }
}
