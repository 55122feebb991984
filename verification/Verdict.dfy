/**
  From return codes to a classified result: the verdict of `run_test`
  (interoperability_report.py) and `classify_outcome` (benchmarking/junit_compare/loader.py),
  which sees only what the verdict left in the report.
 */
module Verdict {
  import opened ReturnCodes
  import opened Sequences
  import opened Table
  import opened Outputs

  datatype RichStatus =
    | Passed | PassedAsSkipped | SkippedUnsupported | SkippedOther
    | FailureQosUnexpected | FailureFalsePass | FailureData | FailureOrdering
    | FailureInfrastructure | FailureOther | Error

  /** The raw JUnit tag of a test case. */
  datatype Tag = TagPassed | TagFailure | TagError | TagSkipped

  // ----- the verdict of a test -----

  /** What the test case holds afterwards; a passed one holds no result element. */
  datatype CaseResult = NoResult | SkippedResult(message: string) | FailureResult(message: string)

  predicate AllExpected(expected: seq<ReturnCode>, produced: seq<ReturnCode>)
    requires |expected| == |produced|
  {
    forall i :: 0 <= i < |expected| ==> expected[i] == produced[i]
  }

  predicate SomeUnsupported(produced: seq<ReturnCode>) {
    exists i :: 0 <= i < |produced| && Unsupported(produced[i])
  }

  function ResultRows(labels: seq<string>, expected: seq<ReturnCode>, produced: seq<ReturnCode>): (rows: seq<Row>)
    requires |labels| == |expected| == |produced|
    ensures |rows| == |labels|
  {
    seq(|labels|, i requires 0 <= i < |labels| => Row(labels[i], Name(expected[i]), Name(produced[i])))
  }

  function CaseOutcome(labels: seq<string>, expected: seq<ReturnCode>, produced: seq<ReturnCode>,
                       outputs: seq<string>): CaseResult
    requires |labels| == |expected| == |produced| == |outputs|
  {
    if AllExpected(expected, produced) then NoResult
    else
      var message := Message(ResultRows(labels, expected, produced), outputs);
      if SomeUnsupported(produced) then SkippedResult(message) else FailureResult(message)
  }

  method AllCodesExpected(expected: seq<ReturnCode>, produced: seq<ReturnCode>) returns (testResultCorrect: bool)
    requires |expected| == |produced|
    ensures testResultCorrect <==> AllExpected(expected, produced)
  {
    testResultCorrect := true;
    for i := 0 to |expected|
      invariant testResultCorrect <==> forall j :: 0 <= j < i ==> expected[j] == produced[j]
    {
      if expected[i] != produced[i] {
        testResultCorrect := false;
      }
    }
  }

  method AnyUnsupported(produced: seq<ReturnCode>) returns (isUnsupported: bool)
    ensures isUnsupported <==> SomeUnsupported(produced)
  {
    isUnsupported := false;
    for i := 0 to |produced|
      invariant isUnsupported <==> exists j :: 0 <= j < i && Unsupported(produced[j])
    {
      if Unsupported(produced[i]) {
        isUnsupported := true;
      }
    }
  }

  /** The verdict part of `run_test`. */
  method DecideTest(labels: seq<string>, expected: seq<ReturnCode>, produced: seq<ReturnCode>, outputs: seq<string>)
    returns (r: CaseResult)
    requires |labels| == |expected| == |produced| == |outputs|
    ensures r == CaseOutcome(labels, expected, produced, outputs)
  {
    var testResultCorrect := AllCodesExpected(expected, produced);
    var isUnsupported := AnyUnsupported(produced);
    if testResultCorrect {
      return NoResult;
    }
    var message := BuildMessage(ResultRows(labels, expected, produced), outputs);
    r := if isUnsupported then SkippedResult(message) else FailureResult(message);
  }

  // ----- the classifier -----

  const UNSUPPORTED_CODES := {"SUB_UNSUPPORTED_FEATURE", "PUB_UNSUPPORTED_FEATURE"}
  const DATA_CODES := {"DATA_NOT_CORRECT", "DATA_NOT_RECEIVED", "DATA_NOT_SENT"}
  const ORDERING_CODES := {
    "ORDERED_ACCESS_INSTANCE", "ORDERED_ACCESS_TOPIC",
    "RECEIVING_FROM_ONE", "RECEIVING_FROM_BOTH", "DEADLINE_MISSED"
  }
  const INFRA_CODES := {"READER_NOT_CREATED", "WRITER_NOT_CREATED", "TOPIC_NOT_CREATED", "READER_NOT_MATCHED"}

  predicate ProducesUnsupported(rows: seq<Row>) {
    exists i :: 0 <= i < |rows| && rows[i].produced in UNSUPPORTED_CODES
  }

  function Mismatches(rows: seq<Row>): seq<string> {
    if rows == [] then []
    else
      var n := |rows| - 1;
      Mismatches(rows[..n]) + if rows[n].expected != rows[n].produced then [rows[n].produced] else []
  }

  /** `Counter(codes).most_common(1)[0][0]`: the most frequent code, the earliest one on a tie. */
  function Dominant(codes: seq<string>): string
    requires codes != []
  {
    DominantAmong(codes, |codes|)
  }

  /** The most frequent (within all of `codes`) of the first `n`. */
  function DominantAmong(codes: seq<string>, n: nat): string
    requires 0 < n <= |codes|
  {
    if n == 1 then codes[0]
    else
      var best := DominantAmong(codes, n - 1);
      if multiset(codes)[codes[n - 1]] > multiset(codes)[best] then codes[n - 1] else best
  }

  function FailureKind(code: string): RichStatus {
    if code == "INCOMPATIBLE_QOS" then FailureQosUnexpected
    else if code == "OK" then FailureFalsePass
    else if code in DATA_CODES then FailureData
    else if code in ORDERING_CODES then FailureOrdering
    else if code in INFRA_CODES then FailureInfrastructure
    else FailureOther
  }

  /** `classify_outcome` */
  function Classify(tag: Tag, rows: seq<Row>): RichStatus {
    match tag
    case TagPassed => Passed
    case TagError => Error
    case TagSkipped =>
      if ProducesUnsupported(rows) then SkippedUnsupported
      else if forall i :: 0 <= i < |rows| ==> rows[i].expected == rows[i].produced then PassedAsSkipped
      else SkippedOther
    case TagFailure =>
      if ProducesUnsupported(rows) then SkippedUnsupported
      else if Mismatches(rows) == [] then FailureOther
      else FailureKind(Dominant(Mismatches(rows)))
  }

  lemma {:induction false} DominantAmongLeads(codes: seq<string>, n: nat)
    requires 0 < n <= |codes|
    ensures exists k :: 0 <= k < n && IsLeader(codes, n, k) && codes[k] == DominantAmong(codes, n)
  {
    if n == 1 {
      assert IsLeader(codes, 1, 0);
    } else {
      DominantAmongLeads(codes, n - 1);
      var k :| 0 <= k < n - 1 && IsLeader(codes, n - 1, k) && codes[k] == DominantAmong(codes, n - 1);
      if multiset(codes)[codes[n - 1]] > multiset(codes)[codes[k]] {
        assert IsLeader(codes, n, n - 1);
      } else {
        assert IsLeader(codes, n, k);
      }
    }
  }

  /** Position `k` holds a code more frequent than all before it and at least as frequent as all others. */
  ghost predicate IsLeader(codes: seq<string>, n: nat, k: nat)
    requires k < n <= |codes|
  {
    && (forall j :: 0 <= j < k ==> multiset(codes)[codes[j]] < multiset(codes)[codes[k]])
    && (forall j :: k <= j < n ==> multiset(codes)[codes[j]] <= multiset(codes)[codes[k]])
  }

  lemma {:induction false} MismatchesAre(rows: seq<Row>, code: string)
    ensures code in Mismatches(rows) <==>
            exists i :: 0 <= i < |rows| && rows[i].expected != rows[i].produced && rows[i].produced == code
  {
    if rows != [] {
      var n := |rows| - 1;
      MismatchesAre(rows[..n], code);
      if i :| 0 <= i < |rows| && rows[i].expected != rows[i].produced && rows[i].produced == code {
        assert i < n ==> rows[..n][i] == rows[i];
      }
      if i :| 0 <= i < n && rows[..n][i].expected != rows[..n][i].produced && rows[..n][i].produced == code {
        assert rows[i] == rows[..n][i];
      }
    }
  }

  // ----- across the two programs -----

  function NameLength(code: ReturnCode): nat {
    match code
    case Ok => 2
    case DataNotSent => 13
    case DeadlineMissed => 15
    case IncompatibleQos | DataNotCorrect => 16
    case TopicNotCreated | DataNotReceived => 17
    case ReaderNotCreated | WriterNotCreated | FilterNotCreated | ReaderNotMatched | ReceivingFromOne => 18
    case ReceivingFromBoth => 19
    case OrderedAccessTopic => 20
    case OrderedAccessInstance | PubUnsupportedFeature | SubUnsupportedFeature => 23
  }

  /** The length, the first and the twelfth character tell the names apart. */
  lemma NamesDiffer(code: ReturnCode)
    ensures var name := Name(code);
            && |name| == NameLength(code)
            && (code == Ok || name[0] == match code
                              case TopicNotCreated => 'T'
                              case ReaderNotCreated | ReaderNotMatched | ReceivingFromOne | ReceivingFromBoth => 'R'
                              case WriterNotCreated => 'W'
                              case FilterNotCreated => 'F'
                              case IncompatibleQos => 'I'
                              case OrderedAccessInstance | OrderedAccessTopic => 'O'
                              case PubUnsupportedFeature => 'P'
                              case SubUnsupportedFeature => 'S'
                              case _ => 'D')
            && (code == ReaderNotCreated ==> name[11] == 'C')
            && (code == ReaderNotMatched ==> name[11] == 'M')
            && (code == ReceivingFromOne ==> name[11] == 'R')
  {}

  lemma NameIsInjective(a: ReturnCode, b: ReturnCode)
    ensures Name(a) == Name(b) <==> a == b
  {
    NamesDiffer(a);
    NamesDiffer(b);
  }

  predicate NameChar(c: char) {
    'A' <= c <= 'Z' || c == '_'
  }

  lemma NameCharsMakeTokens(name: string)
    requires name != "" && forall i :: 0 <= i < |name| ==> NameChar(name[i])
    ensures Token(name)
  {}

  lemma SetUpNameIsToken(code: ReturnCode)
    requires code in {Ok, TopicNotCreated, ReaderNotCreated, WriterNotCreated, FilterNotCreated, IncompatibleQos}
    ensures Token(Name(code))
  {
    match code {
      case Ok => NameCharsMakeTokens("OK");
      case TopicNotCreated => NameCharsMakeTokens("TOPIC_NOT_CREATED");
      case ReaderNotCreated => NameCharsMakeTokens("READER_NOT_CREATED");
      case WriterNotCreated => NameCharsMakeTokens("WRITER_NOT_CREATED");
      case FilterNotCreated => NameCharsMakeTokens("FILTER_NOT_CREATED");
      case IncompatibleQos => NameCharsMakeTokens("INCOMPATIBLE_QOS");
    }
  }

  lemma DataNameIsToken(code: ReturnCode)
    requires code in {ReaderNotMatched, DataNotReceived, DataNotSent, DataNotCorrect, ReceivingFromOne,
                      ReceivingFromBoth}
    ensures Token(Name(code))
  {
    match code {
      case ReaderNotMatched => NameCharsMakeTokens("READER_NOT_MATCHED");
      case DataNotReceived => NameCharsMakeTokens("DATA_NOT_RECEIVED");
      case DataNotSent => NameCharsMakeTokens("DATA_NOT_SENT");
      case DataNotCorrect => NameCharsMakeTokens("DATA_NOT_CORRECT");
      case ReceivingFromOne => NameCharsMakeTokens("RECEIVING_FROM_ONE");
      case ReceivingFromBoth => NameCharsMakeTokens("RECEIVING_FROM_BOTH");
    }
  }

  lemma OtherNameIsToken(code: ReturnCode)
    requires code in {DeadlineMissed, OrderedAccessInstance, OrderedAccessTopic, PubUnsupportedFeature,
                      SubUnsupportedFeature}
    ensures Token(Name(code))
  {
    match code {
      case DeadlineMissed => NameCharsMakeTokens("DEADLINE_MISSED");
      case OrderedAccessInstance => NameCharsMakeTokens("ORDERED_ACCESS_INSTANCE");
      case OrderedAccessTopic => NameCharsMakeTokens("ORDERED_ACCESS_TOPIC");
      case PubUnsupportedFeature => NameCharsMakeTokens("PUB_UNSUPPORTED_FEATURE");
      case SubUnsupportedFeature => NameCharsMakeTokens("SUB_UNSUPPORTED_FEATURE");
    }
  }

  lemma NameIsToken(code: ReturnCode)
    ensures Token(Name(code))
  {
    if code in {Ok, TopicNotCreated, ReaderNotCreated, WriterNotCreated, FilterNotCreated, IncompatibleQos} {
      SetUpNameIsToken(code);
    } else if code in {ReaderNotMatched, DataNotReceived, DataNotSent, DataNotCorrect, ReceivingFromOne,
                       ReceivingFromBoth} {
      DataNameIsToken(code);
    } else {
      OtherNameIsToken(code);
    }
  }

  lemma UnsupportedByName(code: ReturnCode)
    ensures Name(code) in UNSUPPORTED_CODES <==> Unsupported(code)
  {
    NameIsInjective(code, PubUnsupportedFeature);
    NameIsInjective(code, SubUnsupportedFeature);
  }

  lemma ResultRowsArePrintable(labels: seq<string>, expected: seq<ReturnCode>, produced: seq<ReturnCode>)
    requires |labels| == |expected| == |produced| && AreLabels(labels)
    ensures forall i :: 0 <= i < |labels| ==> Printable(ResultRows(labels, expected, produced)[i])
  {
    forall i | 0 <= i < |labels| ensures Printable(ResultRows(labels, expected, produced)[i]) {
      NameIsToken(expected[i]);
      NameIsToken(produced[i]);
    }
  }

  ghost predicate AreLabels(labels: seq<string>) {
    forall i :: 0 <= i < |labels| ==> Token(labels[i]) && labels[i] != "Expected Code"
  }

  /**
    The reader recovers every (role, expected, produced) triple the harness printed, in order, and after them
    what each output on its own is read as.
   */
  lemma RowsSurviveTheReport(labels: seq<string>, expected: seq<ReturnCode>, produced: seq<ReturnCode>,
                             outputs: seq<string>)
    requires |labels| == |expected| == |produced| == |outputs| && AreLabels(labels)
    ensures var rows := ResultRows(labels, expected, produced);
            Keep(FindAll(Message(rows, outputs))) == rows + RowsInAll(outputs)
  {
    ResultRowsArePrintable(labels, expected, produced);
    TableReadsBack(ResultRows(labels, expected, produced), outputs);
    EachOutputIsReadAlone(ResultRows(labels, expected, produced), outputs);
  }

  lemma RowsShowUnsupported(labels: seq<string>, expected: seq<ReturnCode>, produced: seq<ReturnCode>)
    requires |labels| == |expected| == |produced|
    ensures ProducesUnsupported(ResultRows(labels, expected, produced)) <==> SomeUnsupported(produced)
  {
    var rows := ResultRows(labels, expected, produced);
    forall i | 0 <= i < |rows| ensures rows[i].produced in UNSUPPORTED_CODES <==> Unsupported(produced[i]) {
      UnsupportedByName(produced[i]);
    }
    if i :| 0 <= i < |produced| && Unsupported(produced[i]) {
      assert rows[i].produced in UNSUPPORTED_CODES;
    }
  }

  lemma RowsShowMismatches(labels: seq<string>, expected: seq<ReturnCode>, produced: seq<ReturnCode>)
    requires |labels| == |expected| == |produced|
    ensures Mismatches(ResultRows(labels, expected, produced)) == [] <==> AllExpected(expected, produced)
    ensures forall name :: name in Mismatches(ResultRows(labels, expected, produced)) ==>
              exists i :: 0 <= i < |produced| && expected[i] != produced[i] && name == Name(produced[i])
  {
    var rows := ResultRows(labels, expected, produced);
    forall i | 0 <= i < |rows| ensures rows[i].expected == rows[i].produced <==> expected[i] == produced[i] {
      NameIsInjective(expected[i], produced[i]);
    }
    forall name ensures name in Mismatches(rows) <==>
                        exists i :: 0 <= i < |produced| && expected[i] != produced[i] && name == Name(produced[i])
    {
      MismatchesAre(rows, name);
      if i :| 0 <= i < |produced| && expected[i] != produced[i] && name == Name(produced[i]) {
        assert rows[i].expected != rows[i].produced && rows[i].produced == name;
      }
    }
    if i :| 0 <= i < |produced| && expected[i] != produced[i] {
      assert Name(produced[i]) in Mismatches(rows);
    }
    if Mismatches(rows) != [] {
      assert Mismatches(rows)[0] in Mismatches(rows);
    }
  }

  predicate IsFailure(status: RichStatus) {
    status in {FailureQosUnexpected, FailureFalsePass, FailureData, FailureOrdering, FailureInfrastructure,
               FailureOther}
  }

  lemma FailureFollowsTheLeader(rows: seq<Row>)
    requires !ProducesUnsupported(rows) && Mismatches(rows) != []
    ensures IsFailure(Classify(TagFailure, rows))
    ensures exists k :: 0 <= k < |Mismatches(rows)| && IsLeader(Mismatches(rows), |Mismatches(rows)|, k)
                        && Classify(TagFailure, rows) == FailureKind(Mismatches(rows)[k])
  {
    DominantAmongLeads(Mismatches(rows), |Mismatches(rows)|);
  }

  /**
    A skipped case without unsupported codes counts as passed exactly when no row is a mismatch; a
    failure without a mismatch is of no kind.
   */
  lemma SkippedKinds(rows: seq<Row>)
    requires !ProducesUnsupported(rows)
    ensures Classify(TagSkipped, rows) == if Mismatches(rows) == [] then PassedAsSkipped else SkippedOther
    ensures Mismatches(rows) == [] ==> Classify(TagFailure, rows) == FailureOther
  {
    if i :| 0 <= i < |rows| && rows[i].expected != rows[i].produced {
      MismatchesAre(rows, rows[i].produced);
    } else if Mismatches(rows) != [] {
      MismatchesAre(rows, Mismatches(rows)[0]);
    }
  }

  lemma UnsupportedInEither(rows: seq<Row>, more: seq<Row>)
    ensures ProducesUnsupported(rows + more) <==> ProducesUnsupported(rows) || ProducesUnsupported(more)
  {
    if i :| 0 <= i < |rows| && rows[i].produced in UNSUPPORTED_CODES {
      assert (rows + more)[i] == rows[i];
    }
    if i :| 0 <= i < |more| && more[i].produced in UNSUPPORTED_CODES {
      assert (rows + more)[|rows| + i] == more[i];
    }
    if i :| 0 <= i < |rows + more| && (rows + more)[i].produced in UNSUPPORTED_CODES {
      assert (rows + more)[i] == if i < |rows| then rows[i] else more[i - |rows|];
    }
  }

  /** The output holds a table row with an unsupported code. */
  predicate ShowsUnsupported(output: string) {
    ProducesUnsupported(RowsIn(output))
  }

  ghost predicate SomeShowsUnsupported(outputs: seq<string>) {
    exists i :: 0 <= i < |outputs| && ShowsUnsupported(outputs[i])
  }

  lemma {:induction false} UnsupportedInOneOutput(outputs: seq<string>)
    ensures ProducesUnsupported(RowsInAll(outputs)) <==> SomeShowsUnsupported(outputs)
  {
    if outputs != [] {
      var most, last := outputs[..|outputs| - 1], outputs[|outputs| - 1];
      UnsupportedInOneOutput(most);
      UnsupportedInEither(RowsInAll(most), RowsIn(last));
      assert SomeShowsUnsupported(outputs) <==> SomeShowsUnsupported(most) || ShowsUnsupported(last) by {
        ShownByOneMore(most, last);
        InitAndLast(outputs);
      }
    }
  }

  lemma ShownByOneMore(most: seq<string>, last: string)
    ensures SomeShowsUnsupported(most + [last]) <==> SomeShowsUnsupported(most) || ShowsUnsupported(last)
  {
    var outputs := most + [last];
    assert outputs[|most|] == last;
    if i :| 0 <= i < |most| && ShowsUnsupported(most[i]) {
      assert outputs[i] == most[i];
    }
    if i :| 0 <= i < |outputs| && ShowsUnsupported(outputs[i]) {
      assert i < |most| ==> outputs[i] == most[i];
    }
  }

  lemma {:induction false} MismatchesInEither(rows: seq<Row>, more: seq<Row>)
    ensures Mismatches(rows + more) == Mismatches(rows) + Mismatches(more)
  {
    if more == [] {
      assert rows + more == rows;
    } else {
      MismatchesInEither(rows, more[..|more| - 1]);
      InitOfAppend(rows, more);
    }
  }

  /** The failure kind of a most frequent mismatching code, the earliest on a tie. */
  ghost predicate KindOfALeader(rows: seq<Row>, status: RichStatus) {
    var codes := Mismatches(rows);
    exists k :: 0 <= k < |codes| && IsLeader(codes, |codes|, k) && status == FailureKind(codes[k])
  }

  /**
    What becomes of a test.  Its raw tag is decided by the codes, it is loaded as passed exactly if
    they all agree, and as unsupported if a code says so.  Any other test is loaded as unsupported
    exactly if some application shows a row with an unsupported code, and otherwise as the failure
    kind of a most frequent mismatching code, the rows in the outputs counted in.
   */
  ghost predicate Decides(labels: seq<string>, expected: seq<ReturnCode>, produced: seq<ReturnCode>,
                          outputs: seq<string>, tag: Tag, status: RichStatus)
    requires |labels| == |expected| == |produced| == |outputs|
  {
    var rows := ResultRows(labels, expected, produced);
    && tag == (if AllExpected(expected, produced) then TagPassed
               else if SomeUnsupported(produced) then TagSkipped else TagFailure)
    && (status == Passed <==> tag == TagPassed)
    && (tag == TagSkipped ==> status == SkippedUnsupported)
    && (tag == TagFailure ==> (status == SkippedUnsupported <==> SomeShowsUnsupported(outputs)))
    && (tag == TagFailure && !SomeShowsUnsupported(outputs) ==>
          IsFailure(status) && KindOfALeader(rows + RowsInAll(outputs), status))
    && (tag == TagFailure && QuietOutputs(outputs) ==> IsFailure(status) && KindOfALeader(rows, status))
  }

  lemma FailureDecides(labels: seq<string>, expected: seq<ReturnCode>, produced: seq<ReturnCode>, outputs: seq<string>)
    requires |labels| == |expected| == |produced| == |outputs| && AreLabels(labels)
    requires !AllExpected(expected, produced) && !SomeUnsupported(produced)
    ensures Decides(labels, expected, produced, outputs, TagFailure,
                    Classify(TagFailure, ResultRows(labels, expected, produced) + RowsInAll(outputs)))
  {
    var rows, more := ResultRows(labels, expected, produced), RowsInAll(outputs);
    FailedRows(labels, expected, produced, outputs);
    if !SomeShowsUnsupported(outputs) {
      FailureFollowsTheLeader(rows + more);
    }
    if QuietOutputs(outputs) {
      QuietOutputsAddNoRows(outputs);
      UnsupportedInOneOutput(outputs);
      assert rows + more == rows;
    }
  }

  lemma SkipDecides(labels: seq<string>, expected: seq<ReturnCode>, produced: seq<ReturnCode>, outputs: seq<string>)
    requires |labels| == |expected| == |produced| == |outputs|
    requires !AllExpected(expected, produced) && SomeUnsupported(produced)
    ensures Decides(labels, expected, produced, outputs, TagSkipped,
                    Classify(TagSkipped, ResultRows(labels, expected, produced) + RowsInAll(outputs)))
  {
    var rows, more := ResultRows(labels, expected, produced), RowsInAll(outputs);
    RowsShowUnsupported(labels, expected, produced);
    UnsupportedInEither(rows, more);
    assert Classify(TagSkipped, rows + more) == SkippedUnsupported;
  }

  /** Of a test that failed, the printed rows hold a mismatch and no unsupported code. */
  lemma FailedRows(labels: seq<string>, expected: seq<ReturnCode>, produced: seq<ReturnCode>, outputs: seq<string>)
    requires |labels| == |expected| == |produced|
    requires !AllExpected(expected, produced) && !SomeUnsupported(produced)
    ensures var rows, more := ResultRows(labels, expected, produced), RowsInAll(outputs);
            && !ProducesUnsupported(rows) && Mismatches(rows) != []
            && Mismatches(rows + more) == Mismatches(rows) + Mismatches(more)
            && (ProducesUnsupported(rows + more) <==> SomeShowsUnsupported(outputs))
  {
    var rows, more := ResultRows(labels, expected, produced), RowsInAll(outputs);
    RowsShowUnsupported(labels, expected, produced);
    RowsShowMismatches(labels, expected, produced);
    UnsupportedInEither(rows, more);
    UnsupportedInOneOutput(outputs);
    MismatchesInEither(rows, more);
  }

  lemma KindWithMoreRows(rows: seq<Row>, more: seq<Row>)
    requires !ProducesUnsupported(rows) && Mismatches(rows) != []
    requires Mismatches(rows + more) == Mismatches(rows) + Mismatches(more)
    ensures Classify(TagFailure, rows + more) == Classify(TagFailure, rows) <==>
            && !ProducesUnsupported(rows + more)
            && FailureKind(Dominant(Mismatches(rows) + Mismatches(more))) == FailureKind(Dominant(Mismatches(rows)))
  {
    assert Classify(TagFailure, rows) == FailureKind(Dominant(Mismatches(rows)));
  }

  /** Such a row can be printed. */
  lemma MisleadingRow() returns (r: Row)
    ensures Printable(r) && OnOneLine(r) && r.produced in UNSUPPORTED_CODES
  {
    NameIsToken(PubUnsupportedFeature);
    NameIsToken(Ok);
    r := Row(Name(Ok), Name(Ok), Name(PubUnsupportedFeature));
  }

  /** One infrastructure code among the mismatches. */
  ghost predicate SomeInfrastructure(rows: seq<Row>) {
    exists i :: 0 <= i < |rows| && rows[i].produced in INFRA_CODES
  }

  /**
    The documentation asks for *any* produced infrastructure code, the loader for the dominant
    mismatch: of failures without unsupported codes the two judge alike exactly when no
    infrastructure code was produced, or the dominant mismatch is one.
   */
  lemma InfrastructureAsDocumentedExactlyWhen(rows: seq<Row>)
    requires !ProducesUnsupported(rows)
    ensures (Classify(TagFailure, rows) == FailureInfrastructure <==> SomeInfrastructure(rows))
            <==> (SomeInfrastructure(rows) ==> Mismatches(rows) != [] && Dominant(Mismatches(rows)) in INFRA_CODES)
  {
    if Mismatches(rows) != [] {
      var code := Dominant(Mismatches(rows));
      DominantAmongLeads(Mismatches(rows), |Mismatches(rows)|);
      MismatchesAre(rows, code);
      InfrastructureKind(code);
    }
  }

  lemma InfrastructureKind(code: string)
    ensures FailureKind(code) == FailureInfrastructure <==> code in INFRA_CODES
  {
    FailureKinds(ReaderNotCreated);
    FailureKinds(WriterNotCreated);
    FailureKinds(TopicNotCreated);
    FailureKinds(ReaderNotMatched);
  }

  lemma TwoOutvoteOne(a: string, b: string)
    requires a != b
    ensures Dominant([a, b, b]) == b
  {
    var codes := [a, b, b];
    assert multiset(codes)[a] == 1 && multiset(codes)[b] == 2;
    assert DominantAmong(codes, 1) == a && DominantAmong(codes, 2) == b;
  }

  lemma {:induction false} AllMismatched(rows: seq<Row>)
    requires forall i :: 0 <= i < |rows| ==> rows[i].expected != rows[i].produced
    ensures Mismatches(rows) == seq(|rows|, i requires 0 <= i < |rows| => rows[i].produced)
  {
    if rows != [] {
      AllMismatched(rows[..|rows| - 1]);
    }
  }

  /** Two data failures outvote a reader that was not matched. */
  lemma InfrastructureCanBeOutvoted(labels: seq<string>)
    requires |labels| == 3
    ensures var rows := ResultRows(labels, [Ok, Ok, Ok], [ReaderNotMatched, DataNotReceived, DataNotReceived]);
            SomeInfrastructure(rows) && Classify(TagFailure, rows) == FailureData
  {
    var expected, produced := [Ok, Ok, Ok], [ReaderNotMatched, DataNotReceived, DataNotReceived];
    var rows := ResultRows(labels, expected, produced);
    NameIsInjective(ReaderNotMatched, DataNotReceived);
    NameIsInjective(Ok, ReaderNotMatched);
    NameIsInjective(Ok, DataNotReceived);
    OutvotedRows(rows, Name(Ok), Name(ReaderNotMatched), Name(DataNotReceived));
    RowsShowUnsupported(labels, expected, produced);
    LeaderDecides(rows);
    FailureKinds(DataNotReceived);
    assert rows[0].produced in INFRA_CODES;
  }

  lemma OutvotedRows(rows: seq<Row>, expected: string, a: string, b: string)
    requires expected != a && expected != b && a != b
    requires |rows| == 3 && forall i :: 0 <= i < 3 ==> rows[i].expected == expected
    requires rows[0].produced == a && rows[1].produced == b && rows[2].produced == b
    ensures Mismatches(rows) != [] && Dominant(Mismatches(rows)) == b
  {
    AllMismatched(rows);
    assert Mismatches(rows) == [a, b, b];
    TwoOutvoteOne(a, b);
  }

  lemma LeaderDecides(rows: seq<Row>)
    requires !ProducesUnsupported(rows) && Mismatches(rows) != []
    ensures Classify(TagFailure, rows) == FailureKind(Dominant(Mismatches(rows)))
  {}

  /** The kind says which group of codes dominated; a content filter that was not created has no group. */
  lemma FailureKinds(code: ReturnCode)
    requires !Unsupported(code)
    ensures var kind := FailureKind(Name(code));
            && (kind == FailureQosUnexpected <==> code == IncompatibleQos)
            && (kind == FailureFalsePass <==> code == Ok)
            && (kind == FailureData <==> code in {DataNotCorrect, DataNotReceived, DataNotSent})
            && (kind == FailureOrdering <==>
                code in {OrderedAccessInstance, OrderedAccessTopic, ReceivingFromOne, ReceivingFromBoth,
                         DeadlineMissed})
            && (kind == FailureInfrastructure <==>
                code in {ReaderNotCreated, WriterNotCreated, TopicNotCreated, ReaderNotMatched})
            && (kind == FailureOther <==> code == FilterNotCreated)
  {
    forall other: ReturnCode ensures Name(code) == Name(other) <==> code == other {
      NameIsInjective(code, other);
    }
  }

  // ----- entity labels -----

  function Digits(n: nat): string {
    if n < 10 then [('0' as int + n) as char] else Digits(n / 10) + [('0' as int + n % 10) as char]
  }

  function Label(publisher: bool, number: nat): string {
    (if publisher then "Publisher_" else "Subscriber_") + Digits(number)
  }

  lemma {:induction false} DigitsAreDigits(n: nat)
    ensures Digits(n) != "" && forall i :: 0 <= i < |Digits(n)| ==> '0' <= Digits(n)[i] <= '9'
  {
    if n >= 10 {
      DigitsAreDigits(n / 10);
    }
  }

  /** The labels `run_test` hands out are always readable. */
  lemma LabelIsReadable(publisher: bool, number: nat)
    ensures Token(Label(publisher, number)) && Label(publisher, number) != "Expected Code"
  {
    DigitsAreDigits(number);
    var text := Label(publisher, number);
    var heading := "Expected Code";
    assert heading[0] == 'E' && text[0] != 'E';
  }
}
