/**
  Loading a report (`load_results`, benchmarking/junit_compare/loader.py) and naming its
  tests (`key_label`, benchmarking/junit_compare/models.py).  The XML is taken as a tree
  already: attributes in document order, and the elements the loader asks for.
 */
module Results {
  import opened Bytes
  import opened Sequences
  import opened Sorting
  import opened Verdict
  import Table

  datatype Key = Key(suite: string, name: string, attributes: seq<(string, string)>)

  /** A result element: its `message` attribute and the pieces of text in it, at any depth. */
  datatype Element = Element(message: string, texts: seq<string>)

  datatype TestCase = TestCase(
    attrib: seq<(string, string)>,
    failure: Option<Element>,
    error: Option<Element>,
    skipped: Option<Element>
  )

  datatype TestSuite = TestSuite(name: string, cases: seq<TestCase>)

  datatype TestResult = TestResult(
    key: Key,
    status: Tag,
    rich: RichStatus,
    detail: string,
    time: string,
    rows: seq<Table.Row>
  )

  type Loaded = map<Key, TestResult>

  // ----- keys and labels -----

  /** `attrib.get(name, "")` */
  function Attribute(attrib: seq<(string, string)>, name: string): string {
    if attrib == [] then "" else if attrib[0].0 == name then attrib[0].1 else Attribute(attrib[1..], name)
  }

  /** The attributes other than `name` and `time`. */
  function Others(attrib: seq<(string, string)>): seq<(string, string)> {
    if attrib == [] then []
    else
      var last := attrib[|attrib| - 1];
      Others(attrib[..|attrib| - 1]) + if last.0 in {"name", "time"} then [] else [last]
  }

  function Itself(p: (string, string)): SortKey {
    p
  }

  function KeyOf(suite: string, tc: TestCase): Key {
    Key(suite, Attribute(tc.attrib, "name"), SortBy(Others(tc.attrib), Itself))
  }

  function JoinAttributes(attributes: seq<(string, string)>): string {
    if attributes == [] then ""
    else
      var n := |attributes| - 1;
      (if n == 0 then "" else JoinAttributes(attributes[..n]) + ", ") + Shown(attributes[n])
  }

  function Shown(attribute: (string, string)): string {
    attribute.0 + "=" + attribute.1
  }

  function KeyLabel(key: Key): string {
    var config := JoinAttributes(key.attributes);
    key.suite + " / " + key.name + if config != "" then " [" + config + "]" else ""
  }

  lemma JoinOne(attribute: (string, string))
    ensures JoinAttributes([attribute]) == attribute.0 + "=" + attribute.1
  {
    assert "" + Shown(attribute) == Shown(attribute);
  }

  /** Between any two attributes stand a comma and a blank. */
  lemma {:induction false} JoinBoth(a: seq<(string, string)>, b: seq<(string, string)>)
    requires a != [] && b != []
    ensures JoinAttributes(a + b) == JoinAttributes(a) + ", " + JoinAttributes(b)
    decreases |b|
  {
    var n := |b| - 1;
    var most, start := b[..n], JoinAttributes(a) + ", ";
    InitOfAppend(a, b);
    if n == 0 {
      assert a + most == a;
      assert "" + Shown(b[n]) == Shown(b[n]);
    } else {
      JoinBoth(a, most);
      Assoc(start, JoinAttributes(most), ", ");
      Assoc(start, JoinAttributes(most) + ", ", Shown(b[n]));
    }
  }

  /** A label: suite, name, and in brackets the attributes, if there are any. */
  lemma LabelTells(key: Key)
    ensures key.attributes == [] ==> KeyLabel(key) == key.suite + " / " + key.name
    ensures key.attributes != [] ==>
              KeyLabel(key) == key.suite + " / " + key.name + (" [" + JoinAttributes(key.attributes) + "]")
  {
    if key.attributes != [] {
      var n := |key.attributes| - 1;
      assert '=' in JoinAttributes(key.attributes);
    } else {
      assert key.suite + " / " + key.name + "" == key.suite + " / " + key.name;
    }
  }

  lemma {:induction false} OthersOnce(attrib: seq<(string, string)>, p: (string, string))
    ensures multiset(Others(attrib))[p] == if p.0 in {"name", "time"} then 0 else multiset(attrib)[p]
  {
    if attrib != [] {
      OthersOnce(attrib[..|attrib| - 1], p);
      InitAndLast(attrib);
    }
  }

  lemma {:induction false} AttributeIs(attrib: seq<(string, string)>, i: nat)
    requires i < |attrib| && NamedOnce(attrib)
    ensures Attribute(attrib, attrib[i].0) == attrib[i].1
  {
    if i > 0 {
      assert attrib[0].0 != attrib[i].0;
      AttributeIs(attrib[1..], i - 1);
    }
  }

  lemma {:induction false} NoAttribute(attrib: seq<(string, string)>, name: string)
    requires forall i :: 0 <= i < |attrib| ==> attrib[i].0 != name
    ensures Attribute(attrib, name) == ""
  {
    if attrib != [] {
      NoAttribute(attrib[1..], name);
    }
  }

  /** XML allows an attribute name only once in an element. */
  ghost predicate NamedOnce(attrib: seq<(string, string)>) {
    forall i, j :: 0 <= i < j < |attrib| ==> attrib[i].0 != attrib[j].0
  }

  lemma SameAttribute(a: seq<(string, string)>, b: seq<(string, string)>, name: string)
    requires NamedOnce(a) && NamedOnce(b) && multiset(a) == multiset(b)
    ensures Attribute(a, name) == Attribute(b, name)
  {
    if i :| 0 <= i < |a| && a[i].0 == name {
      assert a[i] in multiset(b);
      var j :| 0 <= j < |b| && b[j] == a[i];
      AttributeIs(a, i);
      AttributeIs(b, j);
    } else {
      forall j | 0 <= j < |b| ensures b[j].0 != name {
        assert b[j] in multiset(a);
      }
      NoAttribute(a, name);
      NoAttribute(b, name);
    }
  }

  /** The key of a case does not depend on the order in which its attributes are written. */
  lemma KeyIgnoresAttributeOrder(suite: string, tc: TestCase, attrib: seq<(string, string)>)
    requires NamedOnce(tc.attrib) && NamedOnce(attrib) && multiset(attrib) == multiset(tc.attrib)
    ensures KeyOf(suite, tc.(attrib := attrib)) == KeyOf(suite, tc)
  {
    var a, b := Others(attrib), Others(tc.attrib);
    forall p ensures multiset(a)[p] == multiset(b)[p] {
      OthersOnce(attrib, p);
      OthersOnce(tc.attrib, p);
    }
    assert multiset(a) == multiset(b);
    SortKeeps(a, Itself);
    SortKeeps(b, Itself);
    SortSorts(a, Itself);
    SortSorts(b, Itself);
    SortedIsUnique(SortBy(a, Itself), SortBy(b, Itself), Itself);
    SameAttribute(attrib, tc.attrib, "name");
  }

  // ----- loading -----

  function Joined(texts: seq<string>): string {
    if texts == [] then "" else Joined(texts[..|texts| - 1]) + texts[|texts| - 1]
  }

  /** `_node_detail` */
  function Detail(e: Element): string {
    var text, message := Table.Strip(Joined(e.texts)), Table.Strip(e.message);
    if message != "" && text != "" then Table.Strip(message + "\n" + text)
    else if message != "" then message
    else text
  }

  lemma {:induction false} StripLeftStrips(s: string)
    ensures Table.StripLeft(s) != "" ==> !Table.IsSpace(Table.StripLeft(s)[0])
    ensures Table.StripLeft(s) != "" ==> s != "" && Table.StripLeft(s)[|Table.StripLeft(s)| - 1] == s[|s| - 1]
  {
    if s != "" && Table.IsSpace(s[0]) {
      StripLeftStrips(s[1..]);
    }
  }

  lemma {:induction false} StripRightStrips(s: string)
    ensures Table.StripRight(s) != "" ==> !Table.IsSpace(Table.StripRight(s)[|Table.StripRight(s)| - 1])
    ensures Table.StripRight(s) != "" ==> s != "" && Table.StripRight(s)[0] == s[0]
  {
    if s != "" && Table.IsSpace(s[|s| - 1]) {
      StripRightStrips(s[..|s| - 1]);
    }
  }

  lemma StripLeavesNoEdge(s: string)
    ensures Table.Strip(s) != "" ==>
              !Table.IsSpace(Table.Strip(s)[0]) && !Table.IsSpace(Table.Strip(s)[|Table.Strip(s)| - 1])
  {
    StripLeftStrips(s);
    StripRightStrips(Table.StripLeft(s));
  }

  /** The detail is message and text, each stripped, with a line end between them if there are both. */
  lemma DetailIsBoth(e: Element)
    ensures var text, message := Table.Strip(Joined(e.texts)), Table.Strip(e.message);
            Detail(e) == message + (if message != "" && text != "" then "\n" else "") + text
  {
    var text, message := Table.Strip(Joined(e.texts)), Table.Strip(e.message);
    StripLeavesNoEdge(Joined(e.texts));
    StripLeavesNoEdge(e.message);
    if message != "" && text != "" {
      KeptWithoutEdges(message + "\n" + text);
    }
  }

  lemma KeptWithoutEdges(s: string)
    requires s != "" && !Table.IsSpace(s[0]) && !Table.IsSpace(s[|s| - 1])
    ensures Table.Strip(s) == s
  {}

  function RowsOf(e: Element): seq<Table.Row> {
    Table.Keep(Table.FindAll(e.message))
  }

  /** A failure element wins over an error, an error over a skip; none of them means passed. */
  function LoadTestCase(suite: string, tc: TestCase): TestResult {
    var (status, detail, rows) :=
      if tc.failure.Some? then (TagFailure, Detail(tc.failure.value), RowsOf(tc.failure.value))
      else if tc.error.Some? then (TagError, Detail(tc.error.value), [])
      else if tc.skipped.Some? then (TagSkipped, Detail(tc.skipped.value), RowsOf(tc.skipped.value))
      else (TagPassed, "", []);
    TestResult(KeyOf(suite, tc), status, Classify(status, rows), detail, Attribute(tc.attrib, "time"), rows)
  }

  function LoadSuite(suite: string, cases: seq<TestCase>): (results: seq<TestResult>)
    ensures |results| == |cases|
  {
    seq(|cases|, i requires 0 <= i < |cases| => LoadTestCase(suite, cases[i]))
  }

  function LoadSuites(suites: seq<TestSuite>): seq<TestResult> {
    if suites == [] then []
    else
      var last := suites[|suites| - 1];
      LoadSuites(suites[..|suites| - 1]) + LoadSuite(last.name, last.cases)
  }

  lemma {:induction false} LoadedFit(suites: seq<TestSuite>, i: nat)
    requires i < |LoadSuites(suites)|
    ensures Fits(LoadSuites(suites)[i].status, LoadSuites(suites)[i].rich)
  {
    var most, last := suites[..|suites| - 1], suites[|suites| - 1];
    var n := |LoadSuites(most)|;
    if i < n {
      LoadedFit(most, i);
    } else {
      StatusFitsTag(last.name, last.cases[i - n]);
    }
  }

  /** `results` holds exactly the first `n` results, each under its key. */
  ghost predicate Indexes(results: Loaded, all: seq<TestResult>, n: nat) {
    && n <= |all| && |results| == n
    && (forall j :: 0 <= j < n ==> all[j].key in results && results[all[j].key] == all[j])
    && (forall key :: key in results ==> HasKey(all, n, key))
  }

  predicate HasKey(all: seq<TestResult>, n: nat, key: Key) {
    n <= |all| && exists j :: 0 <= j < n && all[j].key == key
  }

  ghost predicate RepeatsKey(all: seq<TestResult>, n: nat) {
    exists j :: 0 <= j < n && j < |all| && HasKey(all, j, all[j].key)
  }

  lemma IndexStep(before: Loaded, all: seq<TestResult>, n: nat)
    requires n < |all| && Indexes(before, all, n) && all[n].key !in before
    ensures Indexes(before[all[n].key := all[n]], all, n + 1)
  {
    var after := before[all[n].key := all[n]];
    assert all[n].key == all[n].key;
    forall key | key in after ensures HasKey(all, n + 1, key) {
      if key in before {
        assert HasKey(all, n, key);
      }
    }
  }

  lemma NoRepeat(results: Loaded, all: seq<TestResult>, n: nat)
    requires n < |all| && Indexes(results, all, n) && !RepeatsKey(all, n) && all[n].key !in results
    ensures !RepeatsKey(all, n + 1)
  {
    forall j | 0 <= j < n ensures all[j].key != all[n].key {
      assert all[j].key in results;
    }
    assert !HasKey(all, n, all[n].key);
  }

  lemma Repeat(results: Loaded, all: seq<TestResult>, n: nat)
    requires n < |all| && Indexes(results, all, n) && all[n].key in results
    ensures RepeatsKey(all, |all|)
  {
    assert HasKey(all, n, all[n].key);
  }

  method IndexByKey(all: seq<TestResult>) returns (r: Option<Loaded>)
    ensures r.None? <==> RepeatsKey(all, |all|)
    ensures r.Some? ==> Indexes(r.value, all, |all|)
  {
    var results: Loaded := map[];
    for i := 0 to |all|
      invariant Indexes(results, all, i) && !RepeatsKey(all, i)
    {
      if all[i].key in results {
        Repeat(results, all, i);
        return None;
      }
      IndexStep(results, all, i);
      NoRepeat(results, all, i);
      results := results[all[i].key := all[i]];
    }
    r := Some(results);
  }

  // ----- what was loaded, case by case -----

  /** The result says what the case says: the element that counts, its detail, and its rows unless it is an error. */
  predicate Tells(r: TestResult, suite: string, tc: TestCase) {
    && r.key == KeyOf(suite, tc) && r.time == Attribute(tc.attrib, "time")
    && (tc.failure.Some? ==> r.status == TagFailure && Shows(r, tc.failure.value, true))
    && (tc.failure.None? && tc.error.Some? ==> r.status == TagError && Shows(r, tc.error.value, false))
    && (tc.failure.None? && tc.error.None? && tc.skipped.Some? ==>
          r.status == TagSkipped && Shows(r, tc.skipped.value, true))
    && (tc.failure.None? && tc.error.None? && tc.skipped.None? ==>
          r.status == TagPassed && r.detail == "" && r.rows == [])
    && r.rich == Classify(r.status, r.rows)
  }

  predicate Shows(r: TestResult, e: Element, table: bool) {
    r.detail == Detail(e) && r.rows == if table then Table.Keep(Table.FindAll(e.message)) else []
  }

  lemma CaseTells(suite: string, tc: TestCase)
    ensures Tells(LoadTestCase(suite, tc), suite, tc)
  {}

  /** The key of a case: suite, name, and every other attribute but the time, in text order. */
  lemma KeyTells(suite: string, tc: TestCase)
    ensures var key := KeyOf(suite, tc);
            && key.suite == suite && key.name == Attribute(tc.attrib, "name") && SortedBy(key.attributes, Itself)
            && forall p: (string, string) :: multiset(key.attributes)[p]
                           == if p.0 == "name" || p.0 == "time" then 0 else multiset(tc.attrib)[p]
  {
    var others := Others(tc.attrib);
    SortSorts(others, Itself);
    SortKeeps(others, Itself);
    forall p: (string, string)
      ensures multiset(others)[p] == if p.0 == "name" || p.0 == "time" then 0 else multiset(tc.attrib)[p]
    {
      OthersOnce(tc.attrib, p);
    }
  }

  function CaseCount(suites: seq<TestSuite>): nat {
    if suites == [] then 0 else CaseCount(suites[1..]) + |suites[0].cases|
  }

  ghost predicate HoldsCase(results: Loaded, suite: string, tc: TestCase) {
    KeyOf(suite, tc) in results && Tells(results[KeyOf(suite, tc)], suite, tc)
  }

  /** Every case of every suite is there under its own key, and nothing else is. */
  ghost predicate Holds(results: Loaded, suites: seq<TestSuite>) {
    && |results| == CaseCount(suites)
    && forall i, j :: 0 <= i < |suites| && 0 <= j < |suites[i].cases| ==>
                        HoldsCase(results, suites[i].name, suites[i].cases[j])
  }

  lemma LastCaseIsLoaded(before: seq<TestResult>, last: TestSuite, j: nat)
    requires j < |last.cases|
    ensures (before + LoadSuite(last.name, last.cases))[|before| + j] == LoadTestCase(last.name, last.cases[j])
  {}

  lemma {:induction false} EachCaseIsLoaded(suites: seq<TestSuite>, i: nat, j: nat) returns (k: nat)
    requires i < |suites| && j < |suites[i].cases|
    ensures k < |LoadSuites(suites)| && LoadSuites(suites)[k] == LoadTestCase(suites[i].name, suites[i].cases[j])
  {
    var most, last := suites[..|suites| - 1], suites[|suites| - 1];
    if i < |most| {
      k := EachCaseIsLoaded(most, i, j);
    } else {
      k := |LoadSuites(most)| + j;
      LastCaseIsLoaded(LoadSuites(most), last, j);
    }
  }

  lemma {:induction false} CountOneMore(most: seq<TestSuite>, last: TestSuite)
    ensures CaseCount(most + [last]) == CaseCount(most) + |last.cases|
  {
    if most == [] {
      assert most + [last] == [last] && [last][1..] == [];
    } else {
      CountOneMore(most[1..], last);
      assert (most + [last])[1..] == most[1..] + [last];
    }
  }

  lemma {:induction false} EachCaseOnce(suites: seq<TestSuite>)
    ensures |LoadSuites(suites)| == CaseCount(suites)
  {
    if suites != [] {
      EachCaseOnce(suites[..|suites| - 1]);
      CountOneMore(suites[..|suites| - 1], suites[|suites| - 1]);
      InitAndLast(suites);
    }
  }

  lemma IndexedHolds(results: Loaded, suites: seq<TestSuite>)
    requires Indexes(results, LoadSuites(suites), |LoadSuites(suites)|)
    ensures Holds(results, suites)
  {
    EachCaseOnce(suites);
    forall i, j | 0 <= i < |suites| && 0 <= j < |suites[i].cases|
      ensures HoldsCase(results, suites[i].name, suites[i].cases[j])
    {
      var k := EachCaseIsLoaded(suites, i, j);
      CaseTells(suites[i].name, suites[i].cases[j]);
      assert LoadSuites(suites)[k].key in results;
    }
  }

  /** `load_results`: a repeated key is an error. */
  method LoadResults(suites: seq<TestSuite>) returns (r: Option<Loaded>)
    ensures r.None? <==> RepeatsKey(LoadSuites(suites), |LoadSuites(suites)|)
    ensures r.Some? ==> Holds(r.value, suites) && WellLoaded(r.value)
  {
    var all := LoadAll(suites);
    r := IndexByKey(all);
    if r.Some? {
      IndexedHolds(r.value, suites);
      forall i | 0 <= i < |all| ensures Fits(all[i].status, all[i].rich) {
        LoadedFit(suites, i);
      }
      IndexedResultsFit(r.value, all);
    }
  }

  /** The two loops over suites and cases. */
  method LoadAll(suites: seq<TestSuite>) returns (all: seq<TestResult>)
    ensures all == LoadSuites(suites)
  {
    all := [];
    for i := 0 to |suites|
      invariant all == LoadSuites(suites[..i])
    {
      assert suites[..i + 1][..i] == suites[..i];
      all := all + LoadSuite(suites[i].name, suites[i].cases);
    }
    assert suites[..|suites|] == suites;
  }

  lemma IndexedResultsFit(results: Loaded, all: seq<TestResult>)
    requires Indexes(results, all, |all|) && forall j :: 0 <= j < |all| ==> Fits(all[j].status, all[j].rich)
    ensures WellLoaded(results)
  {}

  /** The rich status refines the raw tag. */
  predicate Fits(status: Tag, rich: RichStatus) {
    match rich
    case Passed => status == TagPassed
    case PassedAsSkipped => status == TagSkipped
    case SkippedOther => status == TagSkipped
    case SkippedUnsupported => status == TagSkipped || status == TagFailure
    case Error => status == TagError
    case _ => status == TagFailure
  }

  predicate WellLoaded(file: Loaded) {
    forall key :: key in file ==> file[key].key == key && Fits(file[key].status, file[key].rich)
  }

  lemma ClassifyFits(tag: Tag, rows: seq<Table.Row>)
    ensures Fits(tag, Classify(tag, rows))
  {}

  lemma StatusFitsTag(suite: string, tc: TestCase)
    ensures Fits(LoadTestCase(suite, tc).status, LoadTestCase(suite, tc).rich)
  {
    forall tag, rows ensures Fits(tag, Classify(tag, rows)) {
      ClassifyFits(tag, rows);
    }
  }
}
