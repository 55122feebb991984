/**
  From the codes of a test, through the report that `run_test` writes (interoperability_report.py),
  to the result that `load_results` reads back (benchmarking/junit_compare/loader.py).
 */
module RoundTrip {
  import opened ReturnCodes
  import opened Table
  import opened Outputs
  import opened Verdict
  import opened Results

  /** A test case with the one result element that the harness gives it, or none. */
  predicate Carries(tc: TestCase, r: CaseResult) {
    && tc.error.None?
    && match r
       case NoResult => tc.failure.None? && tc.skipped.None?
       case SkippedResult(message) => tc.failure.None? && tc.skipped.Some? && tc.skipped.value.message == message
       case FailureResult(message) => tc.skipped.None? && tc.failure.Some? && tc.failure.value.message == message
  }

  /** For any outputs at all: the rows loaded are the printed rows and then the rows in each output. */
  lemma LoadedRows(r: TestResult, suite: string, tc: TestCase, labels: seq<string>, expected: seq<ReturnCode>,
                   produced: seq<ReturnCode>, outputs: seq<string>)
    requires |labels| == |expected| == |produced| == |outputs| && AreLabels(labels)
    requires Tells(r, suite, tc) && Carries(tc, CaseOutcome(labels, expected, produced, outputs))
    ensures if AllExpected(expected, produced) then
              r.status == TagPassed && r.rows == [] && r.rich == Passed
            else
              && r.status == (if SomeUnsupported(produced) then TagSkipped else TagFailure)
              && r.rows == ResultRows(labels, expected, produced) + RowsInAll(outputs)
              && r.rich == Classify(r.status, r.rows)
  {
    RowsSurviveTheReport(labels, expected, produced, outputs);
  }

  /** The verdict survives both programs, whatever the applications print. */
  lemma VerdictRoundTrip(r: TestResult, suite: string, tc: TestCase, labels: seq<string>, expected: seq<ReturnCode>,
                         produced: seq<ReturnCode>, outputs: seq<string>)
    requires |labels| == |expected| == |produced| == |outputs| && AreLabels(labels)
    requires Tells(r, suite, tc) && Carries(tc, CaseOutcome(labels, expected, produced, outputs))
    ensures Decides(labels, expected, produced, outputs, r.status, r.rich)
  {
    LoadedRows(r, suite, tc, labels, expected, produced, outputs);
    if !AllExpected(expected, produced) {
      if SomeUnsupported(produced) {
        SkipDecides(labels, expected, produced, outputs);
      } else {
        FailureDecides(labels, expected, produced, outputs);
      }
    }
  }

  /** In a loaded file: what stands under the key of a test is what became of it. */
  lemma LoadedTestIsDecided(results: Loaded, suites: seq<TestSuite>, i: nat, j: nat, labels: seq<string>,
                            expected: seq<ReturnCode>, produced: seq<ReturnCode>, outputs: seq<string>)
    requires |labels| == |expected| == |produced| == |outputs| && AreLabels(labels)
    requires Holds(results, suites) && i < |suites| && j < |suites[i].cases|
    requires Carries(suites[i].cases[j], CaseOutcome(labels, expected, produced, outputs))
    ensures var key := KeyOf(suites[i].name, suites[i].cases[j]);
            && key in results
            && Decides(labels, expected, produced, outputs, results[key].status, results[key].rich)
            && results[key].rows == (if AllExpected(expected, produced) then []
                                     else ResultRows(labels, expected, produced) + RowsInAll(outputs))
  {
    var suite, tc := suites[i].name, suites[i].cases[j];
    assert HoldsCase(results, suite, tc);
    LoadedRows(results[KeyOf(suite, tc)], suite, tc, labels, expected, produced, outputs);
    VerdictRoundTrip(results[KeyOf(suite, tc)], suite, tc, labels, expected, produced, outputs);
  }

  /**
    A failed test is classified as its codes alone would have it exactly if no output shows an
    unsupported code and the mismatches shown in outputs, counted in, leave the failure kind as it is.
   */
  lemma CodesAloneDecideExactlyWhen(r: TestResult, suite: string, tc: TestCase, labels: seq<string>,
                                    expected: seq<ReturnCode>, produced: seq<ReturnCode>, outputs: seq<string>)
    requires |labels| == |expected| == |produced| == |outputs| && AreLabels(labels)
    requires !AllExpected(expected, produced) && !SomeUnsupported(produced)
    requires Tells(r, suite, tc) && Carries(tc, CaseOutcome(labels, expected, produced, outputs))
    ensures var rows := ResultRows(labels, expected, produced);
            && Mismatches(rows) != []
            && (r.rich == Classify(TagFailure, rows) <==>
                && !SomeShowsUnsupported(outputs)
                && FailureKind(Dominant(Mismatches(rows) + Mismatches(RowsInAll(outputs))))
                   == FailureKind(Dominant(Mismatches(rows))))
  {
    LoadedRows(r, suite, tc, labels, expected, produced, outputs);
    FailedRows(labels, expected, produced, outputs);
    KindWithMoreRows(ResultRows(labels, expected, produced), RowsInAll(outputs));
  }

  /** One application that prints a table row of its own can turn a failure of the test into an unsupported feature. */
  lemma OutputsCanMislead(r: TestResult, suite: string, tc: TestCase, labels: seq<string>, expected: seq<ReturnCode>,
                          produced: seq<ReturnCode>, outputs: seq<string>, i: nat, row: Row)
    requires |labels| == |expected| == |produced| == |outputs| && AreLabels(labels)
    requires !AllExpected(expected, produced) && !SomeUnsupported(produced)
    requires Tells(r, suite, tc) && Carries(tc, CaseOutcome(labels, expected, produced, outputs))
    requires i < |outputs| && outputs[i] == PrintRow(row)
    requires Printable(row) && OnOneLine(row) && row.produced in UNSUPPORTED_CODES
    ensures r.status == TagFailure && r.rich == SkippedUnsupported
  {
    PrintedRowIsRead(row);
    assert ShowsUnsupported(outputs[i]) by {
      assert RowsIn(outputs[i])[0] == row;
    }
    VerdictRoundTrip(r, suite, tc, labels, expected, produced, outputs);
  }
}
