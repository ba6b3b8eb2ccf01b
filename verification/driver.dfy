/** One invocation cycle of `makeApexCalls` and the in-order application of
    the completions that come back. */
module TestDriver {
  import opened Results
  import opened ModeStatistics
  import opened TestCatalog

  /** One `executeTest({testName, mode})` call. */
  datatype Request = Request(testType: string, mode: string)

  /** How an `executeTest` promise settles: with a number, with no value
      (`null`/`undefined`), or rejected. */
  datatype Response = Resolved(value: real) | ResolvedEmpty | Rejected

  /** JavaScript truthiness of the settled value; a rejected promise never
      reaches the `then` callback. */
  predicate Truthy(resp: Response) {
    resp.Resolved? && resp.value != 0.0
  }

  /** A completed sample on its way into `recordTestResult`. */
  datatype Completion = Completion(testType: string, mode: string, duration: real)

  /** The requests of one cycle, in issue order: for each catalog entry, mode
      `"A"` and then mode `"B"`. */
  function IssueCycle(c: Catalog): (reqs: seq<Request>)
    ensures |reqs| == 2 * |c|
    ensures forall i :: 0 <= i < |c| ==>
      reqs[2 * i] == Request(c[i].testType, "A") && reqs[2 * i + 1] == Request(c[i].testType, "B")
  {
    if |c| == 0 then []
    else
      var t := c[|c| - 1].testType;
      IssueCycle(c[..|c| - 1]) + [Request(t, "A"), Request(t, "B")]
  }

  /** The `if (response)` guard of a `then` callback: only a truthy value
      becomes a completion. */
  function Admit(req: Request, resp: Response): (r: Option<Completion>)
    ensures r.Some? <==> Truthy(resp)
    ensures r.Some? ==> r.value == Completion(req.testType, req.mode, resp.value)
  {
    match resp
    case Resolved(v) => if v != 0.0 then Some(Completion(req.testType, req.mode, v)) else None
    case ResolvedEmpty => None
    case Rejected => None
  }

  /** The completions a sequence of settled requests produces, in settling order. */
  function AdmitAll(arrivals: seq<(Request, Response)>): (cs: seq<Completion>)
    ensures |cs| <= |arrivals|
    ensures forall k :: 0 <= k < |cs| ==> cs[k].duration != 0.0
    ensures forall k :: 0 <= k < |cs| ==>
      exists j :: 0 <= j < |arrivals| && Admit(arrivals[j].0, arrivals[j].1) == Some(cs[k])
    ensures forall j :: 0 <= j < |arrivals| && Truthy(arrivals[j].1) ==>
      Completion(arrivals[j].0.testType, arrivals[j].0.mode, arrivals[j].1.value) in cs
  {
    if |arrivals| == 0 then []
    else
      var p := arrivals[..|arrivals| - 1];
      var last := arrivals[|arrivals| - 1];
      var rest := AdmitAll(p);
      assert forall j :: 0 <= j < |p| ==> p[j] == arrivals[j];
      match Admit(last.0, last.1)
      case Some(done) => rest + [done]
      case None => rest
  }

  /** The catalog after applying completions in order, and the chart updates
      emitted along the way. */
  datatype Trace = Trace(catalog: Catalog, charts: seq<ChartUpdate>)

  /** Completions applied one at a time through `recordTestResult`; a call
      that throws loses its sample's chart update but keeps whatever it had
      already written. */
  function Replay(c: Catalog, cs: seq<Completion>): (t: Trace)
    ensures |t.catalog| == |c|
    ensures forall j :: 0 <= j < |c| ==> t.catalog[j].testType == c[j].testType
    ensures |t.charts| <= |cs|
  {
    if |cs| == 0 then Trace(c, [])
    else
      var prev := Replay(c, cs[..|cs| - 1]);
      var done := cs[|cs| - 1];
      var o := RecordTestResult(prev.catalog, done.testType, done.mode, done.duration);
      Trace(o.catalog, prev.charts + if o.Recorded? then [o.chart] else [])
  }

  /** Applying any completions keeps every counter and total in step with
      its history. */
  lemma {:induction false} ReplayKeepsConsistent(c: Catalog, cs: seq<Completion>)
    requires CatalogConsistent(c)
    ensures CatalogConsistent(Replay(c, cs).catalog)
  {
    if |cs| > 0 {
      ReplayKeepsConsistent(c, cs[..|cs| - 1]);
      var done := cs[|cs| - 1];
      RecordTestResultKeepsConsistent(Replay(c, cs[..|cs| - 1]).catalog, done.testType, done.mode, done.duration);
    }
  }

  /** Whether a completion lands on the `ModeA` (isA) or `ModeB` record of `testType`. */
  predicate Targets(done: Completion, testType: string, isA: bool) {
    done.testType == testType && (done.mode == "A") == isA
  }

  /** The durations of the completions that land on one mode record, in order. */
  function KeyDurations(cs: seq<Completion>, testType: string, isA: bool): seq<real> {
    if |cs| == 0 then []
    else
      var done := cs[|cs| - 1];
      KeyDurations(cs[..|cs| - 1], testType, isA)
        + if Targets(done, testType, isA) then [done.duration] else []
  }

  function ModeOf(t: TestDef, isA: bool): ModeStats {
    if isA then t.modeA else t.modeB
  }

  /** One completion extends the history of the record it targets by its
      duration and leaves every other record's history as it was. */
  lemma RecordTestResultOnKey(c: Catalog, done: Completion, testType: string, isA: bool)
    requires FindLast(c, testType).Some?
    ensures var i := FindLast(c, testType).value;
      var after := RecordTestResult(c, done.testType, done.mode, done.duration).catalog[i];
      var extra := if Targets(done, testType, isA) then [done.duration] else [];
      && ModeOf(after, isA).durations == ModeOf(c[i], isA).durations + extra
      && ModeOf(after, isA).counter == ModeOf(c[i], isA).counter + |extra|
  {
  }

  /** Applying one more completion extends the history of the record it
      targets by its duration and leaves every other record's history as it was. */
  lemma ReplayStepOnKey(c: Catalog, cs: seq<Completion>, testType: string, isA: bool)
    requires |cs| > 0
    requires FindLast(c, testType).Some?
    ensures var i := FindLast(c, testType).value;
      var before := ModeOf(Replay(c, cs[..|cs| - 1]).catalog[i], isA);
      var after := ModeOf(Replay(c, cs).catalog[i], isA);
      var extra := if Targets(cs[|cs| - 1], testType, isA) then [cs[|cs| - 1].duration] else [];
      && after.durations == before.durations + extra
      && after.counter == before.counter + |extra|
  {
    var prev := Replay(c, cs[..|cs| - 1]).catalog;
    var done := cs[|cs| - 1];
    FindLastDependsOnKeysOnly(c, prev, testType);
    RecordTestResultOnKey(prev, done, testType, isA);
  }

  /** Per mode record, the history grows by exactly the durations routed to
      it, in delivery order, and its counter by their number. */
  lemma {:induction false} ReplayAppendsInDeliveryOrder(c: Catalog, cs: seq<Completion>, testType: string, isA: bool)
    requires FindLast(c, testType).Some?
    ensures var i := FindLast(c, testType).value;
      && ModeOf(Replay(c, cs).catalog[i], isA).durations
           == ModeOf(c[i], isA).durations + KeyDurations(cs, testType, isA)
      && ModeOf(Replay(c, cs).catalog[i], isA).counter
           == ModeOf(c[i], isA).counter + |KeyDurations(cs, testType, isA)|
  {
    if |cs| > 0 {
      var i := FindLast(c, testType).value;
      var p, done := cs[..|cs| - 1], cs[|cs| - 1];
      var extra := if Targets(done, testType, isA) then [done.duration] else [];
      ReplayAppendsInDeliveryOrder(c, p, testType, isA);
      ReplayStepOnKey(c, cs, testType, isA);
      assert KeyDurations(cs, testType, isA) == KeyDurations(p, testType, isA) + extra;
      assert ModeOf(c[i], isA).durations + KeyDurations(cs, testType, isA)
          == ModeOf(c[i], isA).durations + KeyDurations(p, testType, isA) + extra;
    }
  }

  /** An entry shadowed by a later entry with the same `TestType` is never
      updated: every completion for that key goes to the later one. */
  lemma {:induction false} ReplayLeavesShadowedEntries(c: Catalog, cs: seq<Completion>, j: nat)
    requires j < |c|
    requires FindLast(c, c[j].testType) != Some(j)
    ensures Replay(c, cs).catalog[j] == c[j]
  {
    if |cs| > 0 {
      var p := cs[..|cs| - 1];
      var done := cs[|cs| - 1];
      var prev := Replay(c, p).catalog;
      ReplayLeavesShadowedEntries(c, p, j);
      FindLastDependsOnKeysOnly(c, prev, done.testType);
    }
  }
}
