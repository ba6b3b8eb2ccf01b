/** The per-test, per-mode aggregate record (`ModeA` / `ModeB` of a test
    definition) and the update `recordTestResult` applies to it. */
module ModeStatistics {
  import opened Results
  import opened Samples

  /** `TotalDuration`, `Counter`, `Durations`, `Average`, `HighVal`, `LowVal`. */
  datatype ModeStats = ModeStats(
    totalDuration: real,
    counter: int,
    durations: seq<real>,
    average: real,
    highVal: real,
    lowVal: real)

  /** A mode record as the configuration delivers it before any sample:
      everything zero, `LowVal` at its "unset" value 0. */
  const Initial: ModeStats := ModeStats(0.0, 0, [], 0.0, 0.0, 0.0)

  /** The bookkeeping invariant: the counter and the total agree with the history. */
  predicate Consistent(m: ModeStats) {
    m.counter == |m.durations| && m.totalDuration == Sum(m.durations)
  }

  /** Outcome of folding one sample into a mode record. `Aborted` is the
      record as `trimmedAverage` leaves it when it throws: total, counter and
      history already updated, average and extremes not. */
  datatype Recording =
    | Completed(stats: ModeStats)
    | Aborted(stats: ModeStats, error: Error)

  /** The field updates of `recordTestResult` on the selected mode record. */
  function Record(m: ModeStats, duration: real): (r: Recording)
    ensures r.stats.totalDuration == m.totalDuration + duration
    ensures r.stats.counter == m.counter + 1
    ensures r.stats.durations == m.durations + [duration]
    ensures r.Completed? <==> TrimmedAverage(m.durations + [duration]).Success?
    ensures r.Completed? ==> r.stats.average == TrimmedAverage(r.stats.durations).value
    // HighVal is the larger of the old HighVal and the sample
    ensures r.Completed? ==>
      && m.highVal <= r.stats.highVal && duration <= r.stats.highVal
      && (r.stats.highVal == m.highVal || r.stats.highVal == duration)
    // LowVal is the smaller of the old LowVal and the sample, unless it was unset
    ensures r.Completed? && m.lowVal == 0.0 ==> r.stats.lowVal == duration
    ensures r.Completed? && m.lowVal != 0.0 ==>
      && r.stats.lowVal <= m.lowVal && r.stats.lowVal <= duration
      && (r.stats.lowVal == m.lowVal || r.stats.lowVal == duration)
    ensures r.Aborted? ==>
      && r.error == EmptyAggregateSet
      && r.stats.average == m.average
      && r.stats.highVal == m.highVal
      && r.stats.lowVal == m.lowVal
  {
    var durations := m.durations + [duration];
    var partial := m.(totalDuration := m.totalDuration + duration,
                      counter := m.counter + 1,
                      durations := durations);
    match TrimmedAverage(durations)
    case Failure(e) => Aborted(partial, e)
    case Success(avg) =>
      Completed(partial.(
        average := avg,
        highVal := if duration > m.highVal then duration else m.highVal,
        lowVal := if duration < m.lowVal || m.lowVal == 0.0 then duration else m.lowVal))
  }

  /** Recording a sample keeps the bookkeeping invariant, even when the
      trimmed mean throws. */
  lemma RecordKeepsConsistent(m: ModeStats, duration: real)
    requires Consistent(m)
    ensures Consistent(Record(m, duration).stats)
  {
    SumAppend(m.durations, duration);
  }

  /** A history shorter than ten samples is never trimmed, so recording into
      it always completes. */
  lemma RecordCompletesBelowThreshold(m: ModeStats, duration: real)
    requires |m.durations| + 1 < TrimThreshold
    ensures Record(m, duration).Completed?
  {
  }

  /** The record after a sequence of completions arriving in order. */
  function RecordAll(m: ModeStats, ds: seq<real>): ModeStats
  {
    if |ds| == 0 then m else Record(RecordAll(m, ds[..|ds| - 1]), ds[|ds| - 1]).stats
  }

  /** Folding a sequence: the history is extended by exactly that sequence in
      arrival order, the counter by its length, the total by its sum. */
  lemma {:induction false} RecordAllAppends(m: ModeStats, ds: seq<real>)
    ensures RecordAll(m, ds).durations == m.durations + ds
    ensures RecordAll(m, ds).counter == m.counter + |ds|
    ensures RecordAll(m, ds).totalDuration == m.totalDuration + Sum(ds)
  {
    if |ds| > 0 {
      var p, last := ds[..|ds| - 1], ds[|ds| - 1];
      RecordAllAppends(m, p);
      var step := Record(RecordAll(m, p), last).stats;
      assert RecordAll(m, ds) == step;
      assert m.durations + ds == (m.durations + p) + [last];
    }
  }

  /** Every step of folding `ds` into `m` computes its trimmed mean. */
  predicate NeverAborts(m: ModeStats, ds: seq<real>) {
    |ds| == 0 ||
    (NeverAborts(m, ds[..|ds| - 1]) && Record(RecordAll(m, ds[..|ds| - 1]), ds[|ds| - 1]).Completed?)
  }

  /** A run that keeps the history below ten samples never aborts. */
  lemma {:induction false} ShortRunsNeverAbort(m: ModeStats, ds: seq<real>)
    requires |m.durations| + |ds| < TrimThreshold
    ensures NeverAborts(m, ds)
  {
    if |ds| > 0 {
      var p := ds[..|ds| - 1];
      ShortRunsNeverAbort(m, p);
      RecordAllAppends(m, p);
      RecordCompletesBelowThreshold(RecordAll(m, p), ds[|ds| - 1]);
    }
  }

  /** `HighVal` and `LowVal` are the largest and smallest sample of the history,
      and both still 0 while the history is empty. */
  predicate TracksExtremes(m: ModeStats) {
    if |m.durations| == 0 then m.highVal == 0.0 && m.lowVal == 0.0
    else m.highVal == Max(m.durations) && m.lowVal == Min(m.durations)
  }

  /** A completed recording of a positive sample into a history of positive
      samples keeps `HighVal`/`LowVal` equal to the true extremes. */
  lemma RecordTracksExtremes(m: ModeStats, duration: real)
    requires TracksExtremes(m)
    requires forall i :: 0 <= i < |m.durations| ==> m.durations[i] > 0.0
    requires duration > 0.0
    requires Record(m, duration).Completed?
    ensures TracksExtremes(Record(m, duration).stats)
  {
    var s := m.durations + [duration];
    assert s[..|s| - 1] == m.durations;
  }

  /** Starting from a fresh record, with strictly positive samples and no
      aborted step, `HighVal` and `LowVal` are the largest and smallest sample. */
  lemma {:induction false} RecordAllTracksExtremes(ds: seq<real>)
    requires forall i :: 0 <= i < |ds| ==> ds[i] > 0.0
    requires NeverAborts(Initial, ds)
    ensures TracksExtremes(RecordAll(Initial, ds))
    ensures |ds| > 0 ==> RecordAll(Initial, ds).highVal == Max(ds)
    ensures |ds| > 0 ==> RecordAll(Initial, ds).lowVal == Min(ds)
  {
    RecordAllAppends(Initial, ds);
    assert RecordAll(Initial, ds).durations == ds;
    if |ds| > 0 {
      var n := |ds|;
      var p := ds[..n - 1];
      RecordAllTracksExtremes(p);
      RecordAllAppends(Initial, p);
      var m := RecordAll(Initial, p);
      assert m.durations == p;
      assert Record(m, ds[n - 1]).Completed?;
      RecordTracksExtremes(m, ds[n - 1]);
      assert RecordAll(Initial, ds) == Record(m, ds[n - 1]).stats;
    }
  }
}
