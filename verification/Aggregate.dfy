/**
  Aggregation over the files of a group: `StatusSummaryRow` (report_data.py),
  `_aggregate_statuses` and the totals of `build_parallel_group_report` (analyzer.py), all in
  benchmarking/junit_compare.
 */
module Aggregate {
  import opened Verdict
  import opened Results
  import opened Sums

  /** How often each rich status occurred. */
  type Counts = map<RichStatus, nat>

  function Bump(counts: Counts, rs: RichStatus): Counts {
    counts[rs := Get(counts, rs) + 1]
  }

  function PassedCount(c: Counts): nat {
    Get(c, Passed) + Get(c, PassedAsSkipped)
  }

  function UnsupportedCount(c: Counts): nat {
    Get(c, SkippedUnsupported)
  }

  /** Everything but the two passes and the two skips. */
  function RealFailCount(c: Counts): nat {
    Get(c, FailureQosUnexpected) + Get(c, FailureFalsePass) + Get(c, FailureData) + Get(c, FailureOrdering)
    + Get(c, FailureInfrastructure) + Get(c, FailureOther) + Get(c, Error)
  }

  function ResultCount(c: Counts): nat {
    PassedCount(c) + UnsupportedCount(c) + RealFailCount(c) + Get(c, SkippedOther)
  }

  predicate Flaky(c: Counts) {
    PassedCount(c) > 0 && RealFailCount(c) > 0
  }

  class StatusSummaryRow {
    var richCounts: Counts

    constructor ()
      ensures richCounts == map[]
    {
      richCounts := map[];
    }

    method Add(rs: RichStatus)
      modifies this
      ensures richCounts == Bump(old(richCounts), rs)
    {
      richCounts := richCounts[rs := Get(richCounts, rs) + 1];
    }
  }

  type Rows = map<string, Counts>

  function Row(rows: Rows, test: string): Counts {
    if test in rows then rows[test] else map[]
  }

  function View(totals: map<string, StatusSummaryRow>): Rows
    reads set test | test in totals :: totals[test]
  {
    map test | test in totals :: totals[test].richCounts
  }

  /** Different labels have different row objects. */
  ghost predicate Separate(totals: map<string, StatusSummaryRow>) {
    forall a, b :: a in totals && b in totals && a != b ==> totals[a] != totals[b]
  }

  function Bumped(rows: Rows, test: string, rs: RichStatus): Rows {
    rows[test := Bump(Row(rows, test), rs)]
  }

  method Record(totals: map<string, StatusSummaryRow>, test: string, rs: RichStatus)
    returns (after: map<string, StatusSummaryRow>)
    requires Separate(totals)
    modifies set l | l in totals :: totals[l]
    ensures Separate(after) && after.Keys == totals.Keys + {test}
    ensures forall l :: l in after ==> if l in totals then after[l] == totals[l] else fresh(after[l])
    ensures View(after) == Bumped(old(View(totals)), test, rs)
  {
    after := totals;
    if test !in totals {
      var row := new StatusSummaryRow();
      after := after[test := row];
    }
    var row := after[test];
    row.Add(rs);
  }

  // ----- what is counted -----

  /** The results of this test label and status among the keys `done` of one file. */
  ghost function Hits(file: Loaded, done: set<Key>, test: string, rs: RichStatus): set<Key> {
    set key | key in done && key in file && KeyLabel(key) == test && file[key].rich == rs
  }

  ghost function SeenUpTo(files: seq<Loaded>, n: nat, test: string, rs: RichStatus): nat
    requires n <= |files|
  {
    if n == 0 then 0
    else SeenUpTo(files, n - 1, test, rs) + |Hits(files[n - 1], files[n - 1].Keys, test, rs)|
  }

  function LoadedCount(files: seq<Loaded>, n: nat): nat
    requires n <= |files|
  {
    if n == 0 then 0 else LoadedCount(files, n - 1) + |files[n - 1]|
  }

  function RowResults(test: string, c: Counts): nat {
    ResultCount(c)
  }

  ghost predicate CountsHits(rows: Rows, files: seq<Loaded>, n: nat, file: Loaded, done: set<Key>)
    requires n <= |files|
  {
    forall test, rs :: Get(Row(rows, test), rs) == SeenUpTo(files, n, test, rs) + |Hits(file, done, test, rs)|
  }

  function StatusOf(rs: RichStatus): (string, Counts) -> nat {
    (test: string, c: Counts) => Get(c, rs)
  }

  /** The results of one status under the test labels in `labels`. */
  function StatusUnder(labels: string -> bool, rs: RichStatus): (string, Counts) -> nat {
    (test: string, c: Counts) => if labels(test) then Get(c, rs) else 0
  }

  ghost function Chosen(file: Loaded, done: set<Key>, labels: string -> bool, rs: RichStatus): set<Key> {
    set key | key in done && key in file && labels(KeyLabel(key)) && file[key].rich == rs
  }

  /** How many results of the first `n` files have this status and a label in `labels`. */
  ghost function Counted(files: seq<Loaded>, n: nat, labels: string -> bool, rs: RichStatus): nat
    requires n <= |files|
  {
    if n == 0 then 0
    else Counted(files, n - 1, labels, rs) + |Chosen(files[n - 1], files[n - 1].Keys, labels, rs)|
  }

  /** Whichever labels are chosen, the rows count as many results under them as there are. */
  ghost predicate CountsChosen(rows: Rows, files: seq<Loaded>, n: nat, file: Loaded, done: set<Key>)
    requires n <= |files|
  {
    forall labels, rs ::
      SumOf(rows, StatusUnder(labels, rs)) == Counted(files, n, labels, rs) + |Chosen(file, done, labels, rs)|
  }

  /** A row is there only for a label that was met. */
  ghost predicate NoEmptyRow(rows: Rows) {
    forall test :: test in rows ==> ResultCount(rows[test]) > 0
  }

  /** Each row has and counts the results of its test label, and together the rows count every result once. */
  ghost predicate Tallies(rows: Rows, files: seq<Loaded>, n: nat, file: Loaded, done: set<Key>)
    requires n <= |files|
  {
    && CountsHits(rows, files, n, file, done)
    && CountsChosen(rows, files, n, file, done)
    && NoEmptyRow(rows)
    && SumOf(rows, RowResults) == LoadedCount(files, n) + |done|
  }

  lemma HitsAfter(file: Loaded, done: set<Key>, key: Key, test: string, rs: RichStatus)
    requires key in file && key !in done
    ensures |Hits(file, done + {key}, test, rs)| ==
            |Hits(file, done, test, rs)| + if KeyLabel(key) == test && file[key].rich == rs then 1 else 0
  {
    ChosenAfter(done, key, Hits(file, done, test, rs), Hits(file, done + {key}, test, rs),
                KeyLabel(key) == test && file[key].rich == rs);
  }

  lemma BumpedGet(c: Counts, rs: RichStatus, r: RichStatus)
    ensures Get(Bump(c, rs), r) == Get(c, r) + if r == rs then 1 else 0
  {}

  lemma BumpedRowCount(c: Counts, rs: RichStatus)
    ensures ResultCount(Bump(c, rs)) == ResultCount(c) + 1
  {
    BumpedGet(c, rs, Passed);
    BumpedGet(c, rs, PassedAsSkipped);
    BumpedGet(c, rs, SkippedUnsupported);
    BumpedGet(c, rs, SkippedOther);
    BumpedGet(c, rs, FailureQosUnexpected);
    BumpedGet(c, rs, FailureFalsePass);
    BumpedGet(c, rs, FailureData);
    BumpedGet(c, rs, FailureOrdering);
    BumpedGet(c, rs, FailureInfrastructure);
    BumpedGet(c, rs, FailureOther);
    BumpedGet(c, rs, Error);
  }

  lemma BumpedSum(rows: Rows, test: string, rs: RichStatus)
    ensures SumOf(Bumped(rows, test, rs), RowResults) == SumOf(rows, RowResults) + 1
  {
    var before := Row(rows, test);
    BumpedRowCount(before, rs);
    if test in rows {
      SumUpdate(rows, RowResults, test, Bump(before, rs));
    } else {
      SumInsert(rows, RowResults, test, Bump(before, rs));
    }
  }

  lemma BumpedChoice(rows: Rows, test: string, rs: RichStatus, labels: string -> bool, r: RichStatus)
    ensures SumOf(Bumped(rows, test, rs), StatusUnder(labels, r))
            == SumOf(rows, StatusUnder(labels, r)) + if labels(test) && r == rs then 1 else 0
  {
    var before := Row(rows, test);
    BumpedGet(before, rs, r);
    if test in rows {
      SumUpdate(rows, StatusUnder(labels, r), test, Bump(before, rs));
    } else {
      SumInsert(rows, StatusUnder(labels, r), test, Bump(before, rs));
    }
  }

  lemma BumpedIsNotEmpty(rows: Rows, test: string, rs: RichStatus)
    requires NoEmptyRow(rows)
    ensures NoEmptyRow(Bumped(rows, test, rs))
  {
    BumpedRowCount(Row(rows, test), rs);
  }

  /** One more element is chosen or not. */
  lemma ChosenAfter(done: set<Key>, key: Key, before: set<Key>, after: set<Key>, chosen: bool)
    requires key !in done && before <= done
    requires forall k :: k in after <==> k in before || (k == key && chosen)
    ensures |after| == |before| + if chosen then 1 else 0
  {
    if chosen {
      assert after == before + {key};
    } else {
      assert after == before;
    }
  }

  lemma ChosenStep(rows: Rows, files: seq<Loaded>, n: nat, file: Loaded, done: set<Key>, key: Key)
    requires n <= |files| && key in file && key !in done && CountsChosen(rows, files, n, file, done)
    ensures CountsChosen(Bumped(rows, KeyLabel(key), file[key].rich), files, n, file, done + {key})
  {
    var test, rs := KeyLabel(key), file[key].rich;
    forall labels, r
      ensures SumOf(Bumped(rows, test, rs), StatusUnder(labels, r))
              == Counted(files, n, labels, r) + |Chosen(file, done + {key}, labels, r)|
    {
      BumpedChoice(rows, test, rs, labels, r);
      ChosenAfter(done, key, Chosen(file, done, labels, r), Chosen(file, done + {key}, labels, r),
                  labels(test) && r == rs);
    }
  }

  lemma BumpedCounts(rows: Rows, test: string, rs: RichStatus)
    ensures forall t, r :: Get(Row(Bumped(rows, test, rs), t), r)
                           == Get(Row(rows, t), r) + if t == test && r == rs then 1 else 0
  {}

  lemma HitStep(rows: Rows, files: seq<Loaded>, n: nat, file: Loaded, done: set<Key>, key: Key)
    requires n <= |files| && key in file && key !in done && CountsHits(rows, files, n, file, done)
    ensures CountsHits(Bumped(rows, KeyLabel(key), file[key].rich), files, n, file, done + {key})
  {
    var after := Bumped(rows, KeyLabel(key), file[key].rich);
    BumpedCounts(rows, KeyLabel(key), file[key].rich);
    forall t, r ensures Get(Row(after, t), r) == SeenUpTo(files, n, t, r) + |Hits(file, done + {key}, t, r)| {
      HitsAfter(file, done, key, t, r);
      assert Get(Row(rows, t), r) == SeenUpTo(files, n, t, r) + |Hits(file, done, t, r)|;
    }
  }

  lemma TallyStep(rows: Rows, files: seq<Loaded>, n: nat, file: Loaded, done: set<Key>, key: Key)
    requires n <= |files| && key in file && key !in done && Tallies(rows, files, n, file, done)
    ensures Tallies(Bumped(rows, KeyLabel(key), file[key].rich), files, n, file, done + {key})
  {
    HitStep(rows, files, n, file, done, key);
    ChosenStep(rows, files, n, file, done, key);
    BumpedIsNotEmpty(rows, KeyLabel(key), file[key].rich);
    BumpedSum(rows, KeyLabel(key), file[key].rich);
  }

  lemma TallyFileDone(rows: Rows, files: seq<Loaded>, n: nat)
    requires n < |files| && Tallies(rows, files, n, files[n], files[n].Keys)
    ensures Tallies(rows, files, n + 1, map[], {})
  {
    assert |files[n]| == |files[n].Keys|;
    forall labels, rs ensures Chosen(map[], {}, labels, rs) == {} {}
    forall test, rs ensures Hits(map[], {}, test, rs) == {} {}
  }

  lemma TallyFileStart(rows: Rows, files: seq<Loaded>, n: nat, file: Loaded)
    requires n <= |files| && Tallies(rows, files, n, map[], {})
    ensures Tallies(rows, files, n, file, {})
  {
    forall test, rs ensures Hits(file, {}, test, rs) == Hits(map[], {}, test, rs) {}
    forall labels, rs ensures Chosen(file, {}, labels, rs) == Chosen(map[], {}, labels, rs) {}
  }

  /** Every row of `after` is one of `totals` or new. */
  twostate predicate GrewFrom(totals: map<string, StatusSummaryRow>, new after: map<string, StatusSummaryRow>) {
    forall test :: test in after ==> (test in totals && after[test] == totals[test]) || fresh(after[test])
  }

  method TallyKey(totals: map<string, StatusSummaryRow>, ghost files: seq<Loaded>, ghost n: nat, file: Loaded,
                  ghost done: set<Key>, key: Key)
    returns (after: map<string, StatusSummaryRow>)
    requires n <= |files| && key in file && key !in done && Separate(totals)
    requires Tallies(View(totals), files, n, file, done)
    modifies set test | test in totals :: totals[test]
    ensures Separate(after) && GrewFrom(totals, after)
    ensures Tallies(View(after), files, n, file, done + {key})
  {
    TallyStep(View(totals), files, n, file, done, key);
    after := Record(totals, KeyLabel(key), file[key].rich);
  }

  method TallyFile(totals: map<string, StatusSummaryRow>, ghost files: seq<Loaded>, ghost n: nat, file: Loaded)
    returns (after: map<string, StatusSummaryRow>)
    requires n < |files| && file == files[n] && Separate(totals)
    requires Tallies(View(totals), files, n, map[], {})
    modifies set test | test in totals :: totals[test]
    ensures Separate(after) && GrewFrom(totals, after)
    ensures Tallies(View(after), files, n + 1, map[], {})
  {
    after := totals;
    var todo := file.Keys;
    ghost var done: set<Key> := {};
    TallyFileStart(View(totals), files, n, file);
    while todo != {}
      invariant todo !! done && todo + done == file.Keys
      invariant Separate(after) && GrewFrom(totals, after)
      invariant Tallies(View(after), files, n, file, done)
    {
      var key :| key in todo;
      after := TallyKey(after, files, n, file, done, key);
      todo, done := todo - {key}, done + {key};
    }
    assert done == file.Keys;
    TallyFileDone(View(after), files, n);
  }

  /** `_aggregate_statuses` */
  method AggregateStatuses(files: seq<Loaded>) returns (totals: map<string, StatusSummaryRow>)
    ensures forall test :: test in totals ==> fresh(totals[test])
    ensures Tallies(View(totals), files, |files|, map[], {})
  {
    totals := map[];
    TallyNothing(files);
    for n := 0 to |files|
      invariant Separate(totals) && forall test :: test in totals ==> fresh(totals[test])
      invariant Tallies(View(totals), files, n, map[], {})
    {
      totals := TallyFile(totals, files, n, files[n]);
    }
  }

  lemma TallyNothing(files: seq<Loaded>)
    ensures Tallies(map[], files, 0, map[], {})
  {
    forall labels, rs ensures Chosen(map[], {}, labels, rs) == {} {}
    forall test, rs ensures Hits(map[], {}, test, rs) == {} {}
  }
}
