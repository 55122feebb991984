/**
  The totals and breakdowns of `build_parallel_group_report`
  (benchmarking/junit_compare/analyzer.py).  How a test label names its feature, and its
  publisher and subscriber, is a parameter: what is proved holds for any such naming.
 */
module GroupReport {
  import opened Bytes
  import opened Verdict
  import opened Results
  import opened Sums
  import opened Aggregate

  datatype FlakyTest = FlakyTest(passCount: nat, failCount: nat)

  datatype Report = Report(
    totalFail: nat,
    totalPass: nat,
    totalSkip: nat,
    uniqueTests: nat,
    richTotals: Counts,
    flakyTests: map<string, FlakyTest>,
    flakyPub: map<string, nat>,
    flakySub: map<string, nat>,
    flakyPubTests: map<string, nat>,
    flakySubTests: map<string, nat>,
    flakyFeat: map<string, nat>,
    featureFails: map<string, nat>,
    pubFails: map<string, nat>,
    subFails: map<string, nat>
  )

  function Passes(test: string, c: Counts): nat {
    PassedCount(c)
  }

  function Fails(test: string, c: Counts): nat {
    RealFailCount(c)
  }

  function Skips(test: string, c: Counts): nat {
    UnsupportedCount(c)
  }

  function Others(test: string, c: Counts): nat {
    Get(c, SkippedOther)
  }

  function One(test: string, c: Counts): nat {
    1
  }

  /** What the tests that `group` puts under `name` weigh. */
  function Under(group: string -> Option<string>, w: (string, Counts) -> nat, name: string): (string, Counts) -> nat {
    (test: string, c: Counts) => if group(test) == Some(name) then w(test, c) else 0
  }

  /** What the tests that `group` puts under any name at all weigh. */
  function Grouped(group: string -> Option<string>, w: (string, Counts) -> nat): (string, Counts) -> nat {
    (test: string, c: Counts) => if group(test).Some? then w(test, c) else 0
  }

  /** `sums` breaks the weight of `rows` down by group: per name, and altogether. */
  ghost predicate BreaksDown(sums: map<string, nat>, rows: Rows, group: string -> Option<string>,
                             w: (string, Counts) -> nat) {
    && (forall name :: Get(sums, name) == SumOf(rows, Under(group, w, name)))
    && Total(sums) == SumOf(rows, Grouped(group, w))
  }

  /** `sums[name] = sums.get(name, 0) + n`, where the row has a name. */
  function AddUnder(sums: map<string, nat>, name: Option<string>, n: nat): map<string, nat> {
    if name.Some? then sums[name.value := Get(sums, name.value) + n] else sums
  }

  lemma BreakDownNothing(group: string -> Option<string>, w: (string, Counts) -> nat)
    ensures BreaksDown(map[], map[], group, w)
  {}

  /** One more row adds its weight under its own name and nowhere else. */
  lemma OneMoreUnder(rows: Rows, group: string -> Option<string>, w: (string, Counts) -> nat, test: string, c: Counts,
                     name: string)
    requires test !in rows
    ensures SumOf(rows[test := c], Under(group, w, name))
            == SumOf(rows, Under(group, w, name)) + if group(test) == Some(name) then w(test, c) else 0
  {
    SumInsert(rows, Under(group, w, name), test, c);
  }

  lemma GetAddUnder(sums: map<string, nat>, name: Option<string>, n: nat, other: string)
    ensures Get(AddUnder(sums, name, n), other) == Get(sums, other) + if name == Some(other) then n else 0
  {}

  lemma OneMoreGrouped(rows: Rows, group: string -> Option<string>, w: (string, Counts) -> nat, test: string, c: Counts)
    requires test !in rows
    ensures SumOf(rows[test := c], Grouped(group, w))
            == SumOf(rows, Grouped(group, w)) + if group(test).Some? then w(test, c) else 0
  {
    SumInsert(rows, Grouped(group, w), test, c);
  }

  lemma BreakDownStep(sums: map<string, nat>, rows: Rows, group: string -> Option<string>, w: (string, Counts) -> nat,
                      test: string, c: Counts)
    requires BreaksDown(sums, rows, group, w) && test !in rows
    ensures BreaksDown(AddUnder(sums, group(test), w(test, c)), rows[test := c], group, w)
  {
    var after := AddUnder(sums, group(test), w(test, c));
    forall name ensures Get(after, name) == SumOf(rows[test := c], Under(group, w, name)) {
      OneMoreUnder(rows, group, w, test, c, name);
      GetAddUnder(sums, group(test), w(test, c), name);
    }
    OneMoreGrouped(rows, group, w, test, c);
    if group(test).Some? {
      TotalAfterAdding(sums, group(test).value, w(test, c));
    }
  }

  /** A row of no weight, which the report leaves out, would not have changed the breakdown. */
  lemma BreakDownSkip(sums: map<string, nat>, rows: Rows, group: string -> Option<string>, w: (string, Counts) -> nat,
                      test: string, c: Counts)
    requires BreaksDown(sums, rows, group, w) && test !in rows && w(test, c) == 0
    ensures BreaksDown(sums, rows[test := c], group, w)
  {
    forall name ensures Get(sums, name) == SumOf(rows[test := c], Under(group, w, name)) {
      OneMoreUnder(rows, group, w, test, c, name);
    }
    OneMoreGrouped(rows, group, w, test, c);
  }

  method BreakDown(rows: Rows, group: string -> Option<string>, w: (string, Counts) -> nat)
    returns (sums: map<string, nat>)
    ensures BreaksDown(sums, rows, group, w)
  {
    sums := map[];
    var todo := rows.Keys;
    ghost var done: Rows := map[];
    BreakDownNothing(group, w);
    while todo != {}
      invariant todo <= rows.Keys && done == rows - todo
      invariant BreaksDown(sums, done, group, w)
    {
      var test :| test in todo;
      var c := rows[test];
      if w(test, c) > 0 {
        BreakDownStep(sums, done, group, w, test, c);
        sums := AddUnder(sums, group(test), w(test, c));
      } else {
        BreakDownSkip(sums, done, group, w, test, c);
      }
      todo, done := todo - {test}, done[test := c];
    }
    assert done == rows;
  }

  // ----- flaky tests -----

  function FlakyRows(rows: Rows): Rows {
    map test | test in rows && Flaky(rows[test]) :: rows[test]
  }

  function FlakyTests(rows: Rows): map<string, FlakyTest> {
    map test | test in rows && Flaky(rows[test]) :: FlakyTest(PassedCount(rows[test]), RealFailCount(rows[test]))
  }

  /** A generator sum over the rows. */
  method SumRows(rows: Rows, weight: (string, Counts) -> nat) returns (total: nat)
    ensures total == SumOf(rows, weight)
  {
    total := 0;
    var todo := rows.Keys;
    ghost var done: Rows := map[];
    while todo != {}
      invariant todo <= rows.Keys && done == rows - todo
      invariant total == SumOf(done, weight)
    {
      var test :| test in todo;
      SumInsert(done, weight, test, rows[test]);
      total := total + weight(test, rows[test]);
      todo, done := todo - {test}, done[test := rows[test]];
    }
    assert done == rows;
  }

  ghost predicate CountsStatuses(totals: Counts, rows: Rows) {
    forall rs :: Get(totals, rs) == SumOf(rows, StatusOf(rs))
  }

  function AddCounts(a: Counts, b: Counts): Counts {
    map rs | rs in a.Keys + b.Keys :: Get(a, rs) + Get(b, rs)
  }

  /** `rich_status_totals` */
  method TotalStatuses(rows: Rows) returns (totals: Counts)
    ensures CountsStatuses(totals, rows)
  {
    totals := map[];
    var todo := rows.Keys;
    ghost var done: Rows := map[];
    while todo != {}
      invariant todo <= rows.Keys && done == rows - todo
      invariant CountsStatuses(totals, done)
    {
      var test :| test in todo;
      forall rs ensures Get(AddCounts(totals, rows[test]), rs) == SumOf(done[test := rows[test]], StatusOf(rs)) {
        SumInsert(done, StatusOf(rs), test, rows[test]);
      }
      totals := AddCounts(totals, rows[test]);
      todo, done := todo - {test}, done[test := rows[test]];
    }
    assert done == rows;
  }

  /** The totals and breakdowns of a report are those of `rows`. */
  ghost predicate Summarizes(r: Report, rows: Rows, feature: string -> string,
                             pubSub: string -> Option<(string, string)>) {
    && r.totalFail == SumOf(rows, Fails) && r.totalPass == SumOf(rows, Passes) && r.totalSkip == SumOf(rows, Skips)
    && r.uniqueTests == |rows| && CountsStatuses(r.richTotals, rows)
    && BreaksDown(r.featureFails, rows, FeatureGroup(feature), Fails)
    && BreaksDown(r.pubFails, rows, PubGroup(pubSub), Fails) && BreaksDown(r.subFails, rows, SubGroup(pubSub), Fails)
  }

  /** The flaky part of a report lists and breaks down the flaky rows. */
  ghost predicate SummarizesFlaky(r: Report, rows: Rows, feature: string -> string,
                                  pubSub: string -> Option<(string, string)>) {
    && r.flakyTests == FlakyTests(rows)
    && BreaksDown(r.flakyFeat, FlakyRows(rows), FeatureGroup(feature), Fails)
    && BreaksDown(r.flakyPub, FlakyRows(rows), PubGroup(pubSub), Fails)
    && BreaksDown(r.flakySub, FlakyRows(rows), SubGroup(pubSub), Fails)
    && BreaksDown(r.flakyPubTests, FlakyRows(rows), PubGroup(pubSub), One)
    && BreaksDown(r.flakySubTests, FlakyRows(rows), SubGroup(pubSub), One)
  }

  method Summarize(rows: Rows, feature: string -> string, pubSub: string -> Option<(string, string)>)
    returns (r: Report)
    ensures Summarizes(r, rows, feature, pubSub) && SummarizesFlaky(r, rows, feature, pubSub)
  {
    var richTotals := TotalStatuses(rows);
    var flaky := FlakyRows(rows);
    var flakyPub := BreakDown(flaky, PubGroup(pubSub), Fails);
    var flakySub := BreakDown(flaky, SubGroup(pubSub), Fails);
    var flakyPubTests := BreakDown(flaky, PubGroup(pubSub), One);
    var flakySubTests := BreakDown(flaky, SubGroup(pubSub), One);
    var flakyFeat := BreakDown(flaky, FeatureGroup(feature), Fails);
    var totalFail := SumRows(rows, Fails);
    var totalPass := SumRows(rows, Passes);
    var totalSkip := SumRows(rows, Skips);
    var featureFails := BreakDown(rows, FeatureGroup(feature), Fails);
    var pubFails := BreakDown(rows, PubGroup(pubSub), Fails);
    var subFails := BreakDown(rows, SubGroup(pubSub), Fails);
    r := Report(totalFail, totalPass, totalSkip, |rows|, richTotals, FlakyTests(rows), flakyPub, flakySub,
                flakyPubTests, flakySubTests, flakyFeat, featureFails, pubFails, subFails);
  }

  function FeatureGroup(feature: string -> string): string -> Option<string> {
    test => Some(feature(test))
  }

  function PubGroup(pubSub: string -> Option<(string, string)>): string -> Option<string> {
    test => if pubSub(test).Some? then Some(pubSub(test).value.0) else None
  }

  function SubGroup(pubSub: string -> Option<(string, string)>): string -> Option<string> {
    test => if pubSub(test).Some? then Some(pubSub(test).value.1) else None
  }

  // ----- conservation -----

  /** Every result is counted once, as a pass, a failure, an unsupported skip or another skip. */
  lemma RowsConserveResults(rows: Rows)
    ensures SumOf(rows, RowResults)
            == SumOf(rows, Passes) + SumOf(rows, Fails) + SumOf(rows, Skips) + SumOf(rows, Others)
  {
    var ps := (t: string, c: Counts) => Passes(t, c) + Fails(t, c);
    var so := (t: string, c: Counts) => Skips(t, c) + Others(t, c);
    SumPlus(rows, Passes, Fails, ps);
    SumPlus(rows, Skips, Others, so);
    SumPlus(rows, ps, so, RowResults);
  }

  lemma StatusesConserveResults(totals: Counts, rows: Rows)
    requires CountsStatuses(totals, rows)
    ensures PassedCount(totals) == SumOf(rows, Passes) && RealFailCount(totals) == SumOf(rows, Fails)
    ensures UnsupportedCount(totals) == SumOf(rows, Skips) && Get(totals, SkippedOther) == SumOf(rows, Others)
  {
    SumPlus(rows, StatusOf(Passed), StatusOf(PassedAsSkipped), Passes);
    SumPointwise(rows, StatusOf(SkippedUnsupported), Skips);
    SumPointwise(rows, StatusOf(SkippedOther), Others);
    FailsSplit(rows);
  }

  lemma FailsSplit(rows: Rows)
    ensures SumOf(rows, Fails) ==
            SumOf(rows, StatusOf(FailureQosUnexpected)) + SumOf(rows, StatusOf(FailureFalsePass))
            + SumOf(rows, StatusOf(FailureData)) + SumOf(rows, StatusOf(FailureOrdering))
            + SumOf(rows, StatusOf(FailureInfrastructure)) + SumOf(rows, StatusOf(FailureOther))
            + SumOf(rows, StatusOf(Error))
  {
    var a := (t: string, c: Counts) => Get(c, FailureQosUnexpected) + Get(c, FailureFalsePass);
    var b := (t: string, c: Counts) => a(t, c) + Get(c, FailureData);
    var d := (t: string, c: Counts) => b(t, c) + Get(c, FailureOrdering);
    var e := (t: string, c: Counts) => d(t, c) + Get(c, FailureInfrastructure);
    var f := (t: string, c: Counts) => e(t, c) + Get(c, FailureOther);
    SumPlus(rows, StatusOf(FailureQosUnexpected), StatusOf(FailureFalsePass), a);
    SumPlus(rows, a, StatusOf(FailureData), b);
    SumPlus(rows, b, StatusOf(FailureOrdering), d);
    SumPlus(rows, d, StatusOf(FailureInfrastructure), e);
    SumPlus(rows, e, StatusOf(FailureOther), f);
    SumPlus(rows, f, StatusOf(Error), Fails);
  }

  lemma {:induction false} SomeIsAtMostAll(rows: Rows, group: string -> Option<string>, w: (string, Counts) -> nat)
    ensures SumOf(rows, Grouped(group, w)) <= SumOf(rows, w)
    ensures (forall test :: group(test).Some?) ==> SumOf(rows, Grouped(group, w)) == SumOf(rows, w)
    decreases |rows|
  {
    if rows != map[] {
      var test :| test in rows;
      SumWithout(rows, Grouped(group, w), test);
      SumWithout(rows, w, test);
      SizeWithout(rows, test);
      SomeIsAtMostAll(rows - {test}, group, w);
    }
  }

  /** A part of the rows weighs at most what all of them weigh. */
  lemma {:induction false} PartIsAtMostAll(part: Rows, rows: Rows, w: (string, Counts) -> nat)
    requires forall test :: test in part ==> test in rows && rows[test] == part[test]
    ensures SumOf(part, w) <= SumOf(rows, w)
    decreases |part|
  {
    if part != map[] {
      var test :| test in part;
      SumWithout(part, w, test);
      SumWithout(rows, w, test);
      SizeWithout(part, test);
      PartIsAtMostAll(part - {test}, rows - {test}, w);
    }
  }

  lemma {:induction false} OnesCount(rows: Rows)
    ensures SumOf(rows, One) == |rows|
    decreases |rows|
  {
    if rows != map[] {
      var test :| test in rows;
      SumWithout(rows, One, test);
      SizeWithout(rows, test);
      OnesCount(rows - {test});
    }
  }

  /** Breakdowns by publisher and by subscriber add up to the same, and to no more than the whole. */
  lemma SidesAgree(pubs: map<string, nat>, subs: map<string, nat>, rows: Rows,
                   pubSub: string -> Option<(string, string)>,
                   w: (string, Counts) -> nat)
    requires BreaksDown(pubs, rows, PubGroup(pubSub), w) && BreaksDown(subs, rows, SubGroup(pubSub), w)
    ensures Total(pubs) == Total(subs) <= SumOf(rows, w)
  {
    SomeIsAtMostAll(rows, PubGroup(pubSub), w);
    SumPointwise(rows, Grouped(PubGroup(pubSub), w), Grouped(SubGroup(pubSub), w));
  }

  lemma FeaturesAddUp(features: map<string, nat>, rows: Rows, feature: string -> string, w: (string, Counts) -> nat)
    requires BreaksDown(features, rows, FeatureGroup(feature), w)
    ensures Total(features) == SumOf(rows, w)
  {
    SomeIsAtMostAll(rows, FeatureGroup(feature), w);
  }

  lemma ReportConserves(r: Report, rows: Rows, feature: string -> string, pubSub: string -> Option<(string, string)>)
    requires Summarizes(r, rows, feature, pubSub)
    ensures r.totalPass == PassedCount(r.richTotals) && r.totalFail == RealFailCount(r.richTotals)
            && r.totalSkip == UnsupportedCount(r.richTotals)
    ensures ResultCount(r.richTotals) == SumOf(rows, RowResults)
    ensures Total(r.featureFails) == r.totalFail && Total(r.pubFails) == Total(r.subFails) <= r.totalFail
  {
    RowsConserveResults(rows);
    StatusesConserveResults(r.richTotals, rows);
    FeaturesAddUp(r.featureFails, rows, feature, Fails);
    SidesAgree(r.pubFails, r.subFails, rows, pubSub, Fails);
  }

  /**
    Exactly the tests that both passed and really failed are listed as flaky; their failures are
    part of all failures and are all broken down by feature; the two sides agree, in failures
    and in tests, and name no more than there are.
   */
  lemma FlakyReportConserves(r: Report, rows: Rows, feature: string -> string,
                             pubSub: string -> Option<(string, string)>)
    requires Summarizes(r, rows, feature, pubSub) && SummarizesFlaky(r, rows, feature, pubSub)
    ensures forall test :: test in r.flakyTests <==>
                           test in rows && PassedCount(rows[test]) > 0 && RealFailCount(rows[test]) > 0
    ensures Total(r.flakyPub) == Total(r.flakySub) <= Total(r.flakyFeat) <= r.totalFail
    ensures Total(r.flakyPubTests) == Total(r.flakySubTests) <= |r.flakyTests|
  {
    FlakySums(r, FlakyRows(rows), feature, pubSub);
    FlakyIsPart(rows);
    FlakyTestsAre(rows);
  }

  lemma FlakySums(r: Report, flaky: Rows, feature: string -> string, pubSub: string -> Option<(string, string)>)
    requires BreaksDown(r.flakyFeat, flaky, FeatureGroup(feature), Fails)
    requires BreaksDown(r.flakyPub, flaky, PubGroup(pubSub), Fails)
    requires BreaksDown(r.flakySub, flaky, SubGroup(pubSub), Fails)
    requires BreaksDown(r.flakyPubTests, flaky, PubGroup(pubSub), One)
    requires BreaksDown(r.flakySubTests, flaky, SubGroup(pubSub), One)
    ensures Total(r.flakyPub) == Total(r.flakySub) <= Total(r.flakyFeat) == SumOf(flaky, Fails)
    ensures Total(r.flakyPubTests) == Total(r.flakySubTests) <= |flaky|
  {
    FeaturesAddUp(r.flakyFeat, flaky, feature, Fails);
    SidesAgree(r.flakyPub, r.flakySub, flaky, pubSub, Fails);
    SidesAgree(r.flakyPubTests, r.flakySubTests, flaky, pubSub, One);
    OnesCount(flaky);
  }

  lemma FlakyIsPart(rows: Rows)
    ensures SumOf(FlakyRows(rows), Fails) <= SumOf(rows, Fails)
  {
    PartIsAtMostAll(FlakyRows(rows), rows, Fails);
  }

  lemma FlakyTestsAre(rows: Rows)
    ensures |FlakyRows(rows)| == |FlakyTests(rows)|
    ensures forall test :: test in FlakyTests(rows) <==>
                           test in rows && PassedCount(rows[test]) > 0 && RealFailCount(rows[test]) > 0
  {
    assert FlakyRows(rows).Keys == FlakyTests(rows).Keys;
    assert |FlakyRows(rows)| == |FlakyRows(rows).Keys| && |FlakyTests(rows)| == |FlakyTests(rows).Keys|;
  }

  // ----- what the numbers of a report count -----

  function Any(): string -> bool {
    test => true
  }

  function OfFeature(feature: string -> string, name: string): string -> bool {
    test => feature(test) == name
  }

  function PublishedBy(pubSub: string -> Option<(string, string)>, name: string): string -> bool {
    test => pubSub(test).Some? && pubSub(test).value.0 == name
  }

  function SubscribedBy(pubSub: string -> Option<(string, string)>, name: string): string -> bool {
    test => pubSub(test).Some? && pubSub(test).value.1 == name
  }

  /** The labels among `labels` that both passed and really failed somewhere in the files. */
  ghost function Flakily(files: seq<Loaded>, labels: string -> bool): string -> bool {
    test => labels(test) && PassesSeen(files, test) > 0 && FailuresSeen(files, test) > 0
  }

  ghost function PassesSeen(files: seq<Loaded>, test: string): nat {
    SeenUpTo(files, |files|, test, Passed) + SeenUpTo(files, |files|, test, PassedAsSkipped)
  }

  ghost function FailuresSeen(files: seq<Loaded>, test: string): nat {
    SeenUpTo(files, |files|, test, FailureQosUnexpected) + SeenUpTo(files, |files|, test, FailureFalsePass)
    + SeenUpTo(files, |files|, test, FailureData) + SeenUpTo(files, |files|, test, FailureOrdering)
    + SeenUpTo(files, |files|, test, FailureInfrastructure) + SeenUpTo(files, |files|, test, FailureOther)
    + SeenUpTo(files, |files|, test, Error)
  }

  ghost function PassesUnder(files: seq<Loaded>, labels: string -> bool): nat {
    Counted(files, |files|, labels, Passed) + Counted(files, |files|, labels, PassedAsSkipped)
  }

  /** The results under these labels that are a failure of any kind or an error. */
  ghost function FailuresUnder(files: seq<Loaded>, labels: string -> bool): nat {
    Counted(files, |files|, labels, FailureQosUnexpected) + Counted(files, |files|, labels, FailureFalsePass)
    + Counted(files, |files|, labels, FailureData) + Counted(files, |files|, labels, FailureOrdering)
    + Counted(files, |files|, labels, FailureInfrastructure) + Counted(files, |files|, labels, FailureOther)
    + Counted(files, |files|, labels, Error)
  }

  /** Totals and breakdowns, number by number, as counts of the results in the files. */
  ghost predicate CountsResults(r: Report, files: seq<Loaded>, feature: string -> string,
                                pubSub: string -> Option<(string, string)>) {
    && r.totalPass == PassesUnder(files, Any()) && r.totalFail == FailuresUnder(files, Any())
    && r.totalSkip == Counted(files, |files|, Any(), SkippedUnsupported)
    && (forall rs :: Get(r.richTotals, rs) == Counted(files, |files|, Any(), rs))
    && (forall name :: Get(r.featureFails, name) == FailuresUnder(files, OfFeature(feature, name)))
    && (forall name :: Get(r.pubFails, name) == FailuresUnder(files, PublishedBy(pubSub, name)))
    && (forall name :: Get(r.subFails, name) == FailuresUnder(files, SubscribedBy(pubSub, name)))
  }

  /** The flaky tests with their passes and failures. */
  ghost predicate CountsFlakyTests(flaky: map<string, FlakyTest>, files: seq<Loaded>) {
    && (forall test :: test in flaky <==> PassesSeen(files, test) > 0 && FailuresSeen(files, test) > 0)
    && (forall test :: test in flaky ==> flaky[test] == FlakyTest(PassesSeen(files, test), FailuresSeen(files, test)))
  }

  /** The failures of flaky tests by feature, publisher and subscriber. */
  ghost predicate CountsFlakyFailures(r: Report, files: seq<Loaded>, feature: string -> string,
                                      pubSub: string -> Option<(string, string)>) {
    && (forall name :: Get(r.flakyFeat, name) == FailuresUnder(files, Flakily(files, OfFeature(feature, name))))
    && (forall name :: Get(r.flakyPub, name) == FailuresUnder(files, Flakily(files, PublishedBy(pubSub, name))))
    && (forall name :: Get(r.flakySub, name) == FailuresUnder(files, Flakily(files, SubscribedBy(pubSub, name))))
  }

  /** The numbers of flaky tests by publisher and by subscriber. */
  ghost predicate CountsFlakyPairs(r: Report, pubSub: string -> Option<(string, string)>) {
    && (forall name :: Get(r.flakyPubTests, name) == |Labelled(r.flakyTests, PublishedBy(pubSub, name))|)
    && (forall name :: Get(r.flakySubTests, name) == |Labelled(r.flakyTests, SubscribedBy(pubSub, name))|)
  }

  function Labelled<T>(tests: map<string, T>, labels: string -> bool): set<string> {
    set test | test in tests && labels(test)
  }

  /** A weight that is nothing outside a part of the rows sums up over the part. */
  lemma {:induction false} SumOverPart(part: Rows, rows: Rows, w: (string, Counts) -> nat, w': (string, Counts) -> nat)
    requires forall test :: test in part ==> test in rows && rows[test] == part[test]
    requires forall test :: test in rows ==>
                              w'(test, rows[test]) == if test in part then w(test, rows[test]) else 0
    ensures SumOf(part, w) == SumOf(rows, w')
    decreases |rows|
  {
    if rows == map[] {
      assert part == map[];
    } else {
      var test :| test in rows;
      SumWithout(rows, w', test);
      SizeWithout(rows, test);
      if test in part {
        SumWithout(part, w, test);
        SumOverPart(part - {test}, rows - {test}, w, w');
      } else {
        SumOverPart(part, rows - {test}, w, w');
      }
    }
  }

  lemma RowCounts(rows: Rows, files: seq<Loaded>, labels: string -> bool, rs: RichStatus)
    requires CountsChosen(rows, files, |files|, map[], {})
    ensures SumOf(rows, StatusUnder(labels, rs)) == Counted(files, |files|, labels, rs)
  {
    assert Chosen(map[], {}, labels, rs) == {};
  }

  lemma RowSees(rows: Rows, files: seq<Loaded>, test: string)
    requires CountsHits(rows, files, |files|, map[], {})
    ensures forall rs :: Get(Row(rows, test), rs) == SeenUpTo(files, |files|, test, rs)
    ensures PassedCount(Row(rows, test)) == PassesSeen(files, test)
    ensures RealFailCount(Row(rows, test)) == FailuresSeen(files, test)
  {
    forall rs ensures Get(Row(rows, test), rs) == SeenUpTo(files, |files|, test, rs) {
      assert Hits(map[], {}, test, rs) == {};
    }
  }

  /** The failures of the rows under these labels. */
  function FailsUnder(labels: string -> bool): (string, Counts) -> nat {
    (test: string, c: Counts) => if labels(test) then RealFailCount(c) else 0
  }

  lemma FailuresSplit(rows: Rows, labels: string -> bool)
    ensures SumOf(rows, FailsUnder(labels)) ==
            SumOf(rows, StatusUnder(labels, FailureQosUnexpected)) + SumOf(rows, StatusUnder(labels, FailureFalsePass))
            + SumOf(rows, StatusUnder(labels, FailureData)) + SumOf(rows, StatusUnder(labels, FailureOrdering))
            + SumOf(rows, StatusUnder(labels, FailureInfrastructure)) + SumOf(rows, StatusUnder(labels, FailureOther))
            + SumOf(rows, StatusUnder(labels, Error))
  {
    var of := rs => StatusUnder(labels, rs);
    var a := (t: string, c: Counts) => of(FailureQosUnexpected)(t, c) + of(FailureFalsePass)(t, c);
    var b := (t: string, c: Counts) => a(t, c) + of(FailureData)(t, c);
    var d := (t: string, c: Counts) => b(t, c) + of(FailureOrdering)(t, c);
    var e := (t: string, c: Counts) => d(t, c) + of(FailureInfrastructure)(t, c);
    var f := (t: string, c: Counts) => e(t, c) + of(FailureOther)(t, c);
    SumPlus(rows, of(FailureQosUnexpected), of(FailureFalsePass), a);
    SumPlus(rows, a, of(FailureData), b);
    SumPlus(rows, b, of(FailureOrdering), d);
    SumPlus(rows, d, of(FailureInfrastructure), e);
    SumPlus(rows, e, of(FailureOther), f);
    SumPlus(rows, f, of(Error), FailsUnder(labels));
  }

  lemma FailuresAdd(rows: Rows, files: seq<Loaded>, labels: string -> bool)
    requires CountsChosen(rows, files, |files|, map[], {})
    ensures SumOf(rows, FailsUnder(labels)) == FailuresUnder(files, labels)
  {
    FailuresSplit(rows, labels);
    RowCounts(rows, files, labels, FailureQosUnexpected);
    RowCounts(rows, files, labels, FailureFalsePass);
    RowCounts(rows, files, labels, FailureData);
    RowCounts(rows, files, labels, FailureOrdering);
    RowCounts(rows, files, labels, FailureInfrastructure);
    RowCounts(rows, files, labels, FailureOther);
    RowCounts(rows, files, labels, Error);
  }

  lemma AllAreCounted(r: Report, rows: Rows, files: seq<Loaded>, feature: string -> string,
                      pubSub: string -> Option<(string, string)>)
    requires CountsChosen(rows, files, |files|, map[], {}) && Summarizes(r, rows, feature, pubSub)
    ensures CountsResults(r, files, feature, pubSub)
  {
    TotalsAreCounted(r, rows, files, feature, pubSub);
    forall name ensures Get(r.featureFails, name) == FailuresUnder(files, OfFeature(feature, name)) {
      NamedFailures(r.featureFails, rows, files, FeatureGroup(feature), name, OfFeature(feature, name));
    }
    forall name ensures Get(r.pubFails, name) == FailuresUnder(files, PublishedBy(pubSub, name)) {
      NamedFailures(r.pubFails, rows, files, PubGroup(pubSub), name, PublishedBy(pubSub, name));
    }
    forall name ensures Get(r.subFails, name) == FailuresUnder(files, SubscribedBy(pubSub, name)) {
      NamedFailures(r.subFails, rows, files, SubGroup(pubSub), name, SubscribedBy(pubSub, name));
    }
  }

  lemma TotalsAreCounted(r: Report, rows: Rows, files: seq<Loaded>, feature: string -> string,
                         pubSub: string -> Option<(string, string)>)
    requires CountsChosen(rows, files, |files|, map[], {}) && Summarizes(r, rows, feature, pubSub)
    ensures r.totalPass == PassesUnder(files, Any()) && r.totalFail == FailuresUnder(files, Any())
    ensures r.totalSkip == Counted(files, |files|, Any(), SkippedUnsupported)
    ensures forall rs :: Get(r.richTotals, rs) == Counted(files, |files|, Any(), rs)
  {
    FailuresAdd(rows, files, Any());
    SumPointwise(rows, Fails, FailsUnder(Any()));
    PassesAndSkipsAdd(rows, files);
    forall rs ensures Get(r.richTotals, rs) == Counted(files, |files|, Any(), rs) {
      RowCounts(rows, files, Any(), rs);
      SumPointwise(rows, StatusOf(rs), StatusUnder(Any(), rs));
    }
  }

  lemma PassesAndSkipsAdd(rows: Rows, files: seq<Loaded>)
    requires CountsChosen(rows, files, |files|, map[], {})
    ensures SumOf(rows, Passes) == PassesUnder(files, Any())
    ensures SumOf(rows, Skips) == Counted(files, |files|, Any(), SkippedUnsupported)
  {
    SumPlus(rows, StatusUnder(Any(), Passed), StatusUnder(Any(), PassedAsSkipped), Passes);
    SumPointwise(rows, Skips, StatusUnder(Any(), SkippedUnsupported));
    RowCounts(rows, files, Any(), Passed);
    RowCounts(rows, files, Any(), PassedAsSkipped);
    RowCounts(rows, files, Any(), SkippedUnsupported);
  }

  lemma NamedFailures(sums: map<string, nat>, rows: Rows, files: seq<Loaded>, group: string -> Option<string>,
                      name: string, labels: string -> bool)
    requires CountsChosen(rows, files, |files|, map[], {}) && BreaksDown(sums, rows, group, Fails)
    requires forall test :: labels(test) <==> group(test) == Some(name)
    ensures Get(sums, name) == FailuresUnder(files, labels)
  {
    SumPointwise(rows, Under(group, Fails, name), FailsUnder(labels));
    FailuresAdd(rows, files, labels);
  }

  lemma FlakyNamedFailures(sums: map<string, nat>, rows: Rows, files: seq<Loaded>, group: string -> Option<string>,
                           name: string, labels: string -> bool)
    requires CountsChosen(rows, files, |files|, map[], {}) && CountsHits(rows, files, |files|, map[], {})
    requires BreaksDown(sums, FlakyRows(rows), group, Fails)
    requires forall test :: labels(test) <==> group(test) == Some(name)
    ensures Get(sums, name) == FailuresUnder(files, Flakily(files, labels))
  {
    forall test | test in rows
      ensures Flakily(files, labels)(test) <==> group(test) == Some(name) && test in FlakyRows(rows)
    {
      RowSees(rows, files, test);
    }
    SumOverPart(FlakyRows(rows), rows, Under(group, Fails, name), FailsUnder(Flakily(files, labels)));
    FailuresAdd(rows, files, Flakily(files, labels));
  }

  lemma FlakyNamedTests(sums: map<string, nat>, rows: Rows, group: string -> Option<string>, name: string,
                        labels: string -> bool)
    requires BreaksDown(sums, FlakyRows(rows), group, One)
    requires forall test :: labels(test) <==> group(test) == Some(name)
    ensures Get(sums, name) == |Labelled(FlakyTests(rows), labels)|
  {
    NamedTests(FlakyRows(rows), group, name, labels);
    assert Labelled(FlakyRows(rows), labels) == Labelled(FlakyTests(rows), labels);
  }

  lemma {:induction false} NamedTests(rows: Rows, group: string -> Option<string>, name: string, labels: string -> bool)
    requires forall test :: labels(test) <==> group(test) == Some(name)
    ensures SumOf(rows, Under(group, One, name)) == |Labelled(rows, labels)|
    decreases |rows|
  {
    if rows == map[] {
      assert Labelled(rows, labels) == {};
    } else {
      var test :| test in rows;
      SumWithout(rows, Under(group, One, name), test);
      SizeWithout(rows, test);
      WeighsOne(group, name, test, rows[test]);
      NamedTests(rows - {test}, group, name, labels);
      OneMoreLabelled(rows, labels, test);
    }
  }

  lemma WeighsOne(group: string -> Option<string>, name: string, test: string, c: Counts)
    ensures Under(group, One, name)(test, c) == if group(test) == Some(name) then 1 else 0
  {
    assert One(test, c) == 1;
  }

  lemma OneMoreLabelled(rows: Rows, labels: string -> bool, test: string)
    requires test in rows
    ensures |Labelled(rows, labels)| == |Labelled(rows - {test}, labels)| + if labels(test) then 1 else 0
  {
    var before, after := Labelled(rows - {test}, labels), Labelled(rows, labels);
    if labels(test) {
      assert after == before + {test};
    } else {
      assert after == before;
    }
  }

  lemma FlakyTestsCount(rows: Rows, files: seq<Loaded>)
    requires CountsHits(rows, files, |files|, map[], {})
    ensures CountsFlakyTests(FlakyTests(rows), files)
  {
    forall test
      ensures PassedCount(Row(rows, test)) == PassesSeen(files, test)
      ensures RealFailCount(Row(rows, test)) == FailuresSeen(files, test)
    {
      RowSees(rows, files, test);
    }
  }

  lemma FlakyFailuresCount(r: Report, rows: Rows, files: seq<Loaded>, feature: string -> string,
                           pubSub: string -> Option<(string, string)>)
    requires CountsChosen(rows, files, |files|, map[], {}) && CountsHits(rows, files, |files|, map[], {})
    requires SummarizesFlaky(r, rows, feature, pubSub)
    ensures CountsFlakyFailures(r, files, feature, pubSub)
  {
    forall name ensures Get(r.flakyFeat, name) == FailuresUnder(files, Flakily(files, OfFeature(feature, name))) {
      FlakyNamedFailures(r.flakyFeat, rows, files, FeatureGroup(feature), name, OfFeature(feature, name));
    }
    forall name ensures Get(r.flakyPub, name) == FailuresUnder(files, Flakily(files, PublishedBy(pubSub, name))) {
      FlakyNamedFailures(r.flakyPub, rows, files, PubGroup(pubSub), name, PublishedBy(pubSub, name));
    }
    forall name ensures Get(r.flakySub, name) == FailuresUnder(files, Flakily(files, SubscribedBy(pubSub, name))) {
      FlakyNamedFailures(r.flakySub, rows, files, SubGroup(pubSub), name, SubscribedBy(pubSub, name));
    }
  }

  lemma FlakyPairsCount(r: Report, rows: Rows, feature: string -> string, pubSub: string -> Option<(string, string)>)
    requires SummarizesFlaky(r, rows, feature, pubSub)
    ensures CountsFlakyPairs(r, pubSub)
  {
    forall name ensures Get(r.flakyPubTests, name) == |Labelled(r.flakyTests, PublishedBy(pubSub, name))| {
      FlakyNamedTests(r.flakyPubTests, rows, PubGroup(pubSub), name, PublishedBy(pubSub, name));
    }
    forall name ensures Get(r.flakySubTests, name) == |Labelled(r.flakyTests, SubscribedBy(pubSub, name))| {
      FlakyNamedTests(r.flakySubTests, rows, SubGroup(pubSub), name, SubscribedBy(pubSub, name));
    }
  }

  ghost predicate IsMet(files: seq<Loaded>, test: string) {
    exists rs :: SeenUpTo(files, |files|, test, rs) > 0
  }

  /** The rows are those of the labels that were met in the files. */
  ghost predicate RowsOfLabelsMet(rows: Rows, files: seq<Loaded>) {
    forall test :: test in rows <==> IsMet(files, test)
  }

  lemma SomeStatusIsCounted(c: Counts) returns (rs: RichStatus)
    requires ResultCount(c) > 0
    ensures Get(c, rs) > 0
  {
    rs :| Get(c, rs) > 0;
  }

  lemma RowsAreTheLabelsMet(rows: Rows, files: seq<Loaded>)
    requires CountsHits(rows, files, |files|, map[], {}) && NoEmptyRow(rows)
    ensures RowsOfLabelsMet(rows, files)
  {
    forall test ensures test in rows <==> IsMet(files, test) {
      RowSees(rows, files, test);
      if test in rows {
        var rs := SomeStatusIsCounted(rows[test]);
        assert SeenUpTo(files, |files|, test, rs) > 0;
      }
    }
  }

  /**
    `build_parallel_group_report`: every number counts results of the files.  The totals, the
    status totals and the failures by feature, publisher and subscriber are counts over all files;
    the flaky tests are those that passed and failed, with how often; nothing is lost or counted
    twice; the feature breakdown adds up to the failures, and the publisher and subscriber
    breakdowns to one common number not above it.  `rows` are the tallies the report was made
    from, one for every label met.
   */
  method BuildGroupReport(files: seq<Loaded>, feature: string -> string, pubSub: string -> Option<(string, string)>)
    returns (r: Report, ghost rows: Rows)
    ensures Tallies(rows, files, |files|, map[], {})
    ensures Summarizes(r, rows, feature, pubSub) && SummarizesFlaky(r, rows, feature, pubSub)
    ensures CountsResults(r, files, feature, pubSub) && CountsFlakyTests(r.flakyTests, files)
    ensures CountsFlakyFailures(r, files, feature, pubSub) && CountsFlakyPairs(r, pubSub)
    ensures r.uniqueTests == |rows| && RowsOfLabelsMet(rows, files)
    ensures ResultCount(r.richTotals) == LoadedCount(files, |files|)
    ensures r.totalPass == PassedCount(r.richTotals) && r.totalFail == RealFailCount(r.richTotals)
            && r.totalSkip == UnsupportedCount(r.richTotals)
    ensures Total(r.featureFails) == r.totalFail
    ensures Total(r.pubFails) == Total(r.subFails) <= r.totalFail
  {
    var totals := AggregateStatuses(files);
    var counted := View(totals);
    rows := counted;
    r := Summarize(counted, feature, pubSub);
    ReportConserves(r, rows, feature, pubSub);
    AllAreCounted(r, rows, files, feature, pubSub);
    FlakyTestsCount(rows, files);
    FlakyFailuresCount(r, rows, files, feature, pubSub);
    FlakyPairsCount(r, rows, feature, pubSub);
    RowsAreTheLabelsMet(rows, files);
  }
}
