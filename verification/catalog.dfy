/** The test catalog (`testConfigMetadata`) and `recordTestResult`, which
    routes one completed sample to the mode record of its test. */
module TestCatalog {
  import opened Results
  import opened ModeStatistics

  /** One configured test: its `TestType` key and its two mode records. */
  datatype TestDef = TestDef(testType: string, modeA: ModeStats, modeB: ModeStats)

  /** The catalog in configuration order. Nothing makes `TestType` unique. */
  type Catalog = seq<TestDef>

  /** The value handed to the chart of a test: `updateChart(testType, value, series)`. */
  datatype ChartUpdate = ChartUpdate(testType: string, value: real, series: nat)

  /** What one call of `recordTestResult` leaves behind. A failure still
      carries the catalog because a trimmed-mean failure happens after the
      total, the counter and the history were updated. */
  datatype Outcome =
    | Recorded(catalog: Catalog, chart: ChartUpdate)
    | Failed(catalog: Catalog, error: Error)

  /** Index of the last entry whose `TestType` is `testType`: the entry the
      `forEach` in `recordTestResult` is left holding. */
  function FindLast(c: Catalog, testType: string): (r: Option<nat>)
    ensures r.None? <==> forall i :: 0 <= i < |c| ==> c[i].testType != testType
    ensures r.Some? ==> r.value < |c| && c[r.value].testType == testType
    ensures r.Some? ==> forall j :: r.value < j < |c| ==> c[j].testType != testType
  {
    if |c| == 0 then None
    else if c[|c| - 1].testType == testType then Some(|c| - 1)
    else FindLast(c[..|c| - 1], testType)
  }

  /** The lookup loop of `recordTestResult`: scan every entry front to back
      and keep the latest match. */
  method LookupTest(c: Catalog, testType: string) returns (found: Option<nat>)
    ensures found == FindLast(c, testType)
  {
    found := None;
    var i := 0;
    while i < |c|
      invariant 0 <= i <= |c|
      invariant found == FindLast(c[..i], testType)
    {
      assert c[..i + 1][..i] == c[..i];
      if c[i].testType == testType {
        found := Some(i);
      }
      i := i + 1;
    }
    assert c[..|c|] == c;
  }

  /** Two catalogs with the same keys in the same places resolve every key alike. */
  lemma {:induction false} FindLastDependsOnKeysOnly(c: Catalog, d: Catalog, testType: string)
    requires |c| == |d|
    requires forall i :: 0 <= i < |c| ==> c[i].testType == d[i].testType
    ensures FindLast(c, testType) == FindLast(d, testType)
  {
    if |c| > 0 {
      FindLastDependsOnKeysOnly(c[..|c| - 1], d[..|d| - 1], testType);
    }
  }

  /** Mode `"A"` selects `ModeA`; every other mode string selects `ModeB`. */
  function SelectMode(t: TestDef, mode: string): ModeStats {
    if mode == "A" then t.modeA else t.modeB
  }

  function WithMode(t: TestDef, mode: string, m: ModeStats): TestDef {
    if mode == "A" then t.(modeA := m) else t.(modeB := m)
  }

  /** Chart series: 0 for mode `"A"`, 1 for any other mode. */
  function SeriesIndex(mode: string): nat {
    if mode == "A" then 0 else 1
  }

  /** `recordTestResult(testType, testMode, duration)`. */
  function RecordTestResult(c: Catalog, testType: string, mode: string, duration: real): (r: Outcome)
    // an unknown test fails before anything is touched
    ensures FindLast(c, testType).None? <==> r == Failed(c, UnknownTest)
    ensures |r.catalog| == |c|
    ensures forall j :: 0 <= j < |c| ==> r.catalog[j].testType == c[j].testType
    // only the last matching entry changes, and only in the selected mode
    ensures FindLast(c, testType).Some? ==>
      var i := FindLast(c, testType).value;
      var rec := Record(SelectMode(c[i], mode), duration);
      && (forall j :: 0 <= j < |c| && j != i ==> r.catalog[j] == c[j])
      && (mode == "A" ==> r.catalog[i].modeA == rec.stats && r.catalog[i].modeB == c[i].modeB)
      && (mode != "A" ==> r.catalog[i].modeB == rec.stats && r.catalog[i].modeA == c[i].modeA)
      && (r.Recorded? <==> rec.Completed?)
      && (r.Failed? ==> r.error == EmptyAggregateSet)
    // the chart receives the raw sample on series 0 for "A" and 1 otherwise
    ensures r.Recorded? ==>
      && r.chart.testType == testType
      && r.chart.value == duration
      && (r.chart.series == 0 <==> mode == "A")
      && (r.chart.series == 1 <==> mode != "A")
  {
    match FindLast(c, testType)
    case None => Failed(c, UnknownTest)
    case Some(i) =>
      var rec := Record(SelectMode(c[i], mode), duration);
      var updated := c[i := WithMode(c[i], mode, rec.stats)];
      match rec
      case Aborted(_, e) => Failed(updated, e)
      case Completed(_) => Recorded(updated, ChartUpdate(testType, duration, SeriesIndex(mode)))
  }

  /** Both mode records of every entry satisfy the bookkeeping invariant. */
  predicate CatalogConsistent(c: Catalog) {
    forall i :: 0 <= i < |c| ==> Consistent(c[i].modeA) && Consistent(c[i].modeB)
  }

  /** `recordTestResult` keeps every counter and total in step with its
      history, whatever the outcome. */
  lemma RecordTestResultKeepsConsistent(c: Catalog, testType: string, mode: string, duration: real)
    requires CatalogConsistent(c)
    ensures CatalogConsistent(RecordTestResult(c, testType, mode, duration).catalog)
  {
    var f := FindLast(c, testType);
    if f.Some? {
      RecordKeepsConsistent(SelectMode(c[f.value], mode), duration);
    }
  }
}
