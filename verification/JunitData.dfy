/**
  The tables that generate_xlsx_report.py (`JunitData.get_info`) builds from the suites of a
  JUnit file: every result filed once under its publisher and once under its subscriber, and
  totals per product and per pair of products.

  How a suite name gives the two readable product names, a case name its test name, and a message
  its upper-case form are parameters.  A case has passed when it holds no result element.
 */
module JunitData {
  import opened Sequences
  import opened Sums

  datatype Status = Passed | Failed | PubUnsupported | SubUnsupported | PubSubUnsupported

  /** A case and a suite as they stand in the file; `results` are the messages of the result elements. */
  datatype XmlCase = XmlCase(name: string, results: seq<string>)

  datatype XmlSuite = XmlSuite(name: string, cases: seq<XmlCase>, tests: nat, failures: nat, skipped: nat, errors: nat)

  datatype Reading = Reading(
    publisher: string -> string,
    subscriber: string -> string,
    test: string -> string,
    upper: string -> string
  )

  /** What is read off a case: its test name and, if it has a result, the markers in the first message. */
  datatype Case = Passing(test: string) | Marked(test: string, pubUnsupported: bool, subUnsupported: bool)

  datatype Suite = Suite(
    publisher: string,
    subscriber: string,
    cases: seq<Case>,
    tests: nat,
    failures: nat,
    skipped: nat,
    errors: nat
  )

  datatype Counts = Counts(passed: int, total: nat, unsupported: nat)

  /** `product` is the other product of the pair. */
  datatype Entry = Entry(product: string, test: string, status: Status)

  type Book = map<string, seq<Entry>>

  datatype Info = Info(
    publisher: Book,
    subscriber: Book,
    summary: map<string, Counts>,
    pairs: map<(string, string), Counts>
  )

  // ----- one suite -----

  function ReadCase(reading: Reading, c: XmlCase): Case {
    if c.results == [] then Passing(reading.test(c.name))
    else
      var message := reading.upper(c.results[0]);
      Marked(reading.test(c.name), Contains(message, "PUB_UNSUPPORTED_FEATURE"),
             Contains(message, "SUB_UNSUPPORTED_FEATURE"))
  }

  function ReadCases(reading: Reading, cases: seq<XmlCase>): (read: seq<Case>)
    ensures |read| == |cases|
  {
    seq(|cases|, i requires 0 <= i < |cases| => ReadCase(reading, cases[i]))
  }

  function ReadSuite(reading: Reading, s: XmlSuite): Suite {
    Suite(reading.publisher(s.name), reading.subscriber(s.name), ReadCases(reading, s.cases),
          s.tests, s.failures, s.skipped, s.errors)
  }

  function ReadSuites(reading: Reading, suites: seq<XmlSuite>): (read: seq<Suite>)
    ensures |read| == |suites|
  {
    seq(|suites|, i requires 0 <= i < |suites| => ReadSuite(reading, suites[i]))
  }

  predicate IsUnsupported(c: Case) {
    c.Marked? && (c.pubUnsupported || c.subUnsupported)
  }

  function StatusOf(c: Case): Status {
    if c.Passing? then Passed
    else if c.pubUnsupported && c.subUnsupported then PubSubUnsupported
    else if c.pubUnsupported then PubUnsupported
    else if c.subUnsupported then SubUnsupported
    else Failed
  }

  function UnsupportedIn(cases: seq<Case>): nat {
    if cases == [] then 0
    else UnsupportedIn(cases[..|cases| - 1]) + if IsUnsupported(cases[|cases| - 1]) then 1 else 0
  }

  function CountsOf(s: Suite): Counts {
    Counts(s.tests - s.failures - s.skipped - s.errors, s.tests, UnsupportedIn(s.cases))
  }

  function Plus(a: Counts, b: Counts): Counts {
    Counts(a.passed + b.passed, a.total + b.total, a.unsupported + b.unsupported)
  }

  /** `update_value_aggregated_data_dict` */
  function Count<K>(counts: map<K, Counts>, k: K, c: Counts): map<K, Counts> {
    counts[k := if k in counts then Plus(counts[k], c) else c]
  }

  /** `update_value_to_product_dict` */
  function File(book: Book, k: string, e: Entry): Book {
    book[k := if k in book then book[k] + [e] else [e]]
  }

  function FileCases(book: Book, k: string, other: string, cases: seq<Case>): Book {
    if cases == [] then book
    else
      var c := cases[|cases| - 1];
      File(FileCases(book, k, other, cases[..|cases| - 1]), k, Entry(other, c.test, StatusOf(c)))
  }

  function CountProducts(summary: map<string, Counts>, s: Suite): map<string, Counts> {
    var once := Count(summary, s.publisher, CountsOf(s));
    if s.publisher != s.subscriber then Count(once, s.subscriber, CountsOf(s)) else once
  }

  function Step(i: Info, s: Suite): Info {
    Info(
      FileCases(i.publisher, s.publisher, s.subscriber, s.cases),
      FileCases(i.subscriber, s.subscriber, s.publisher, s.cases),
      CountProducts(i.summary, s),
      Count(i.pairs, (s.publisher, s.subscriber), CountsOf(s)))
  }

  function Run(i: Info, suites: seq<Suite>): Info {
    if suites == [] then i else Step(Run(i, suites[..|suites| - 1]), suites[|suites| - 1])
  }

  const EMPTY := Info(map[], map[], map[], map[])

  // ----- the loops -----

  class JunitTables {
    var publisher: Book
    var subscriber: Book
    var summary: map<string, Counts>
    var pairs: map<(string, string), Counts>

    ghost function View(): Info
      reads this
    {
      Info(publisher, subscriber, summary, pairs)
    }

    constructor ()
      ensures View() == EMPTY
    {
      publisher, subscriber, summary, pairs := map[], map[], map[], map[];
    }

    /** The status of one case, and whether it counts as unsupported. */
    method Judge(reading: Reading, c: XmlCase) returns (status: Status, unsupported: bool)
      ensures status == StatusOf(ReadCase(reading, c)) && unsupported == IsUnsupported(ReadCase(reading, c))
    {
      var isPubUnsupported, isSubUnsupported := false, false;
      if c.results != [] {
        if Contains(reading.upper(c.results[0]), "PUB_UNSUPPORTED_FEATURE") {
          isPubUnsupported := true;
        }
        if Contains(reading.upper(c.results[0]), "SUB_UNSUPPORTED_FEATURE") {
          isSubUnsupported := true;
        }
      }
      unsupported := isPubUnsupported || isSubUnsupported;
      if c.results == [] {
        status := Passed;
      } else if isPubUnsupported && isSubUnsupported {
        status := PubSubUnsupported;
      } else if isPubUnsupported {
        status := PubUnsupported;
      } else if isSubUnsupported {
        status := SubUnsupported;
      } else {
        status := Failed;
      }
    }

    method AddCase(reading: Reading, p: string, s: string, c: XmlCase) returns (unsupported: bool)
      modifies this`publisher, this`subscriber
      ensures var read := ReadCase(reading, c);
              && publisher == File(old(publisher), p, Entry(s, read.test, StatusOf(read)))
              && subscriber == File(old(subscriber), s, Entry(p, read.test, StatusOf(read)))
              && unsupported == IsUnsupported(read)
    {
      var status;
      status, unsupported := Judge(reading, c);
      publisher := File(publisher, p, Entry(s, reading.test(c.name), status));
      subscriber := File(subscriber, s, Entry(p, reading.test(c.name), status));
    }

    method AddCases(reading: Reading, p: string, s: string, cases: seq<XmlCase>) returns (unsupported: nat)
      modifies this`publisher, this`subscriber
      ensures publisher == FileCases(old(publisher), p, s, ReadCases(reading, cases))
      ensures subscriber == FileCases(old(subscriber), s, p, ReadCases(reading, cases))
      ensures unsupported == UnsupportedIn(ReadCases(reading, cases))
    {
      unsupported := 0;
      ghost var all := ReadCases(reading, cases);
      for i := 0 to |cases|
        invariant publisher == FileCases(old(publisher), p, s, all[..i])
        invariant subscriber == FileCases(old(subscriber), s, p, all[..i])
        invariant unsupported == UnsupportedIn(all[..i])
      {
        FileNext(old(publisher), p, s, all, i);
        FileNext(old(subscriber), s, p, all, i);
        assert all[..i + 1][..i] == all[..i];
        var isUnsupported := AddCase(reading, p, s, cases[i]);
        if isUnsupported {
          unsupported := unsupported + 1;
        }
      }
      assert all[..|all|] == all;
    }

    method AddSuite(reading: Reading, s: XmlSuite)
      modifies this
      ensures View() == Step(old(View()), ReadSuite(reading, s))
    {
      var pub, sub := reading.publisher(s.name), reading.subscriber(s.name);
      var unsupported := AddCases(reading, pub, sub, s.cases);
      CountSuite(pub, sub, Counts(s.tests - s.failures - s.skipped - s.errors, s.tests, unsupported));
    }

    method CountSuite(pub: string, sub: string, element: Counts)
      modifies this`summary, this`pairs
      ensures var once := Count(old(summary), pub, element);
              summary == if pub != sub then Count(once, sub, element) else once
      ensures pairs == Count(old(pairs), (pub, sub), element)
    {
      summary := Count(summary, pub, element);
      if pub != sub {
        summary := Count(summary, sub, element);
      }
      pairs := Count(pairs, (pub, sub), element);
    }

    method GetInfo(reading: Reading, suites: seq<XmlSuite>)
      modifies this
      ensures View() == Run(old(View()), ReadSuites(reading, suites))
      ensures old(View()) == EMPTY ==> CountsTheFile(View(), reading, suites) && ListsTheFile(View(), reading, suites)
    {
      ghost var all := ReadSuites(reading, suites);
      for i := 0 to |suites|
        invariant View() == Run(old(View()), all[..i])
      {
        assert all[..i + 1][..i] == all[..i];
        AddSuite(reading, suites[i]);
      }
      assert all[..|all|] == all;
      FileIsCounted(reading, suites);
    }
  }

  // ----- the two books -----

  function Entries(other: string, cases: seq<Case>): seq<Entry> {
    seq(|cases|, i requires 0 <= i < |cases| => Entry(other, cases[i].test, StatusOf(cases[i])))
  }

  /** The page of product `p` in the publisher book, and in the subscriber book. */
  function AsPublisher(suites: seq<Suite>, p: string): seq<Entry> {
    if suites == [] then []
    else
      var s := suites[|suites| - 1];
      AsPublisher(suites[..|suites| - 1], p) + if s.publisher == p then Entries(s.subscriber, s.cases) else []
  }

  function AsSubscriber(suites: seq<Suite>, p: string): seq<Entry> {
    if suites == [] then []
    else
      var s := suites[|suites| - 1];
      AsSubscriber(suites[..|suites| - 1], p) + if s.subscriber == p then Entries(s.publisher, s.cases) else []
  }

  function Page(book: Book, k: string): seq<Entry> {
    if k in book then book[k] else []
  }

  lemma FileNext(book: Book, k: string, other: string, cases: seq<Case>, i: nat)
    requires i < |cases|
    ensures FileCases(book, k, other, cases[..i + 1])
            == File(FileCases(book, k, other, cases[..i]), k, Entry(other, cases[i].test, StatusOf(cases[i])))
  {
    assert cases[..i + 1][..i] == cases[..i];
  }

  lemma {:induction false} FileCasesAppends(book: Book, k: string, other: string, cases: seq<Case>, j: string)
    ensures Page(FileCases(book, k, other, cases), j) == Page(book, j) + if j == k then Entries(other, cases) else []
    ensures j in FileCases(book, k, other, cases) <==> j in book || (j == k && cases != [])
  {
    if cases == [] {
      assert Page(book, j) + [] == Page(book, j);
    } else {
      var most, c := cases[..|cases| - 1], cases[|cases| - 1];
      FileCasesAppends(book, k, other, most, j);
      InitAndLast(cases);
      EntriesNext(other, most, c);
      Assoc(Page(book, j), Entries(other, most), [Entry(other, c.test, StatusOf(c))]);
    }
  }

  /** Both books hold every case of every suite, under the right product and in order. */
  lemma {:induction false} BooksAreComplete(suites: seq<Suite>, p: string)
    ensures Page(Run(EMPTY, suites).publisher, p) == AsPublisher(suites, p)
    ensures Page(Run(EMPTY, suites).subscriber, p) == AsSubscriber(suites, p)
    ensures p in Run(EMPTY, suites).publisher <==> AsPublisher(suites, p) != []
    ensures p in Run(EMPTY, suites).subscriber <==> AsSubscriber(suites, p) != []
  {
    if suites != [] {
      var s, before := suites[|suites| - 1], Run(EMPTY, suites[..|suites| - 1]);
      BooksAreComplete(suites[..|suites| - 1], p);
      FileCasesAppends(before.publisher, s.publisher, s.subscriber, s.cases, p);
      FileCasesAppends(before.subscriber, s.subscriber, s.publisher, s.cases, p);
    }
  }

  /** The tests and statuses that a page holds against product `other`. */
  function Against(page: seq<Entry>, other: string): seq<(string, Status)> {
    if page == [] then [] else Against(page[..|page| - 1], other) + HitOf(page[|page| - 1], other)
  }

  function Results(cases: seq<Case>): seq<(string, Status)> {
    seq(|cases|, i requires 0 <= i < |cases| => (cases[i].test, StatusOf(cases[i])))
  }

  function HitOf(e: Entry, other: string): seq<(string, Status)> {
    if e.product == other then [(e.test, e.status)] else []
  }

  lemma AgainstNext(page: seq<Entry>, e: Entry, other: string)
    ensures Against(page + [e], other) == Against(page, other) + HitOf(e, other)
  {
    assert (page + [e])[..|page + [e]| - 1] == page;
  }

  lemma {:induction false} AgainstAppend(a: seq<Entry>, b: seq<Entry>, other: string)
    ensures Against(a + b, other) == Against(a, other) + Against(b, other)
  {
    if b == [] {
      assert a + b == a;
    } else {
      var most, last := b[..|b| - 1], b[|b| - 1];
      AgainstAppend(a, most, other);
      InitAndLast(b);
      Assoc(a, most, [last]);
      AgainstNext(a + most, last, other);
      AgainstNext(most, last, other);
      Assoc(Against(a, other), Against(most, other), HitOf(last, other));
    }
  }

  lemma EntriesNext(product: string, cases: seq<Case>, c: Case)
    ensures Entries(product, cases + [c]) == Entries(product, cases) + [Entry(product, c.test, StatusOf(c))]
    ensures Results(cases + [c]) == Results(cases) + [(c.test, StatusOf(c))]
  {}

  lemma {:induction false} AgainstEntries(product: string, cases: seq<Case>, other: string)
    ensures Against(Entries(product, cases), other) == if product == other then Results(cases) else []
  {
    if cases != [] {
      var most, last := cases[..|cases| - 1], cases[|cases| - 1];
      AgainstEntries(product, most, other);
      InitAndLast(cases);
      EntriesNext(product, most, last);
      AgainstNext(Entries(product, most), Entry(product, last.test, StatusOf(last)), other);
    }
  }

  /** What publisher `p` shows against subscriber `s` is what subscriber `s` shows against publisher `p`. */
  lemma {:induction false} TwoViewsAgree(suites: seq<Suite>, p: string, s: string)
    ensures Against(AsPublisher(suites, p), s) == Against(AsSubscriber(suites, s), p)
  {
    if suites != [] {
      var most, last := suites[..|suites| - 1], suites[|suites| - 1];
      TwoViewsAgree(most, p, s);
      var asPub := if last.publisher == p then Entries(last.subscriber, last.cases) else [];
      var asSub := if last.subscriber == s then Entries(last.publisher, last.cases) else [];
      AgainstAppend(AsPublisher(most, p), asPub, s);
      AgainstAppend(AsSubscriber(most, s), asSub, p);
      AgainstEntries(last.subscriber, last.cases, s);
      AgainstEntries(last.publisher, last.cases, p);
    }
  }

  lemma BooksAgree(suites: seq<Suite>, p: string, s: string)
    ensures Against(Page(Run(EMPTY, suites).publisher, p), s) == Against(Page(Run(EMPTY, suites).subscriber, s), p)
  {
    BooksAreComplete(suites, p);
    BooksAreComplete(suites, s);
    TwoViewsAgree(suites, p, s);
  }

  // ----- the totals -----

  predicate ShownUnsupported(s: Status) {
    s in {PubUnsupported, SubUnsupported, PubSubUnsupported}
  }

  function ShownIn(cases: seq<Case>): nat {
    if cases == [] then 0
    else ShownIn(cases[..|cases| - 1]) + if ShownUnsupported(StatusOf(cases[|cases| - 1])) then 1 else 0
  }

  /** The summary counts as unsupported exactly the cases that the tables show as unsupported. */
  lemma {:induction false} UnsupportedCountsAgree(cases: seq<Case>)
    ensures ShownIn(cases) == UnsupportedIn(cases)
  {
    if cases != [] {
      UnsupportedCountsAgree(cases[..|cases| - 1]);
    }
  }

  predicate Plays(s: Suite, p: string) {
    s.publisher == p || s.subscriber == p
  }

  function Involving(suites: seq<Suite>, p: string): Counts {
    if suites == [] then Counts(0, 0, 0)
    else
      var s := suites[|suites| - 1];
      var before := Involving(suites[..|suites| - 1], p);
      if Plays(s, p) then Plus(before, CountsOf(s)) else before
  }

  lemma CountProductsOf(summary: map<string, Counts>, s: Suite, p: string)
    ensures p in CountProducts(summary, s) <==> p in summary || Plays(s, p)
    ensures p in CountProducts(summary, s) ==>
              CountProducts(summary, s)[p] == if !Plays(s, p) then summary[p]
                                              else if p in summary then Plus(summary[p], CountsOf(s))
                                              else CountsOf(s)
  {}

  lemma {:induction false} ProductsThatPlay(suites: seq<Suite>, p: string)
    ensures p in Run(EMPTY, suites).summary <==> exists i :: 0 <= i < |suites| && Plays(suites[i], p)
  {
    if suites != [] {
      var most, n := suites[..|suites| - 1], |suites| - 1;
      ProductsThatPlay(most, p);
      CountProductsOf(Run(EMPTY, most).summary, suites[n], p);
      assert forall i :: 0 <= i < n ==> most[i] == suites[i];
    }
  }

  /** A product's row counts each suite it takes part in once, also when it is on both sides. */
  lemma {:induction false} SummaryCountsEachSuiteOnce(suites: seq<Suite>, p: string)
    ensures p in Run(EMPTY, suites).summary ==> Run(EMPTY, suites).summary[p] == Involving(suites, p)
    ensures p !in Run(EMPTY, suites).summary ==> Involving(suites, p) == Counts(0, 0, 0)
  {
    if suites != [] {
      var most, s := suites[..|suites| - 1], suites[|suites| - 1];
      SummaryCountsEachSuiteOnce(most, p);
      CountProductsOf(Run(EMPTY, most).summary, s, p);
    }
  }

  ghost function SumCounts<K>(counts: map<K, Counts>, f: Counts -> nat): nat {
    SumOf<K, Counts>(counts, (k, c) => f(c))
  }

  ghost predicate Additive(f: Counts -> nat) {
    forall a, b :: f(Plus(a, b)) == f(a) + f(b)
  }

  lemma SumAfterCount<K>(counts: map<K, Counts>, k: K, c: Counts, f: Counts -> nat)
    requires Additive(f)
    ensures SumCounts(Count(counts, k, c), f) == SumCounts(counts, f) + f(c)
  {
    if k in counts {
      SumUpdate<K, Counts>(counts, (k, c) => f(c), k, Plus(counts[k], c));
    } else {
      SumInsert<K, Counts>(counts, (k, c) => f(c), k, c);
    }
  }

  /** Over all suites: those within one product, and those across two. */
  ghost function Within(suites: seq<Suite>, f: Counts -> nat): nat {
    if suites == [] then 0
    else
      var s := suites[|suites| - 1];
      Within(suites[..|suites| - 1], f) + if s.publisher == s.subscriber then f(CountsOf(s)) else 0
  }

  ghost function Across(suites: seq<Suite>, f: Counts -> nat): nat {
    if suites == [] then 0
    else
      var s := suites[|suites| - 1];
      Across(suites[..|suites| - 1], f) + if s.publisher != s.subscriber then f(CountsOf(s)) else 0
  }

  /**
    Summed over the products, a suite across two products counts twice and one within a product
    once; summed over the pairs, every suite counts once.
   */
  lemma {:induction false} SummariesConserveSuites(suites: seq<Suite>, f: Counts -> nat)
    requires Additive(f)
    ensures SumCounts(Run(EMPTY, suites).summary, f) == Within(suites, f) + 2 * Across(suites, f)
    ensures SumCounts(Run(EMPTY, suites).pairs, f) == Within(suites, f) + Across(suites, f)
  {
    if suites != [] {
      var before, s := Run(EMPTY, suites[..|suites| - 1]), suites[|suites| - 1];
      SummariesConserveSuites(suites[..|suites| - 1], f);
      SumAfterCount(before.summary, s.publisher, CountsOf(s), f);
      SumAfterCount(Count(before.summary, s.publisher, CountsOf(s)), s.subscriber, CountsOf(s), f);
      SumAfterCount(before.pairs, (s.publisher, s.subscriber), CountsOf(s), f);
    }
  }

  lemma TestsAreConserved(suites: seq<Suite>)
    ensures SumCounts(Run(EMPTY, suites).summary, (c: Counts) => c.total)
            == Within(suites, (c: Counts) => c.total) + 2 * Across(suites, (c: Counts) => c.total)
    ensures SumCounts(Run(EMPTY, suites).summary, (c: Counts) => c.unsupported)
            == Within(suites, (c: Counts) => c.unsupported) + 2 * Across(suites, (c: Counts) => c.unsupported)
  {
    SummariesConserveSuites(suites, (c: Counts) => c.total);
    SummariesConserveSuites(suites, (c: Counts) => c.unsupported);
  }

  // ----- read off the file -----

  /** What a column of numbers in the file says of a suite. */
  datatype Column = AllTests | Failures | Skipped | Errors | Unsupported

  /** The suites a row of a summary is about: those of one product, or those of a publisher and a subscriber. */
  datatype Scope = Product(p: string) | Pairing(p: string, s: string)

  predicate InScope(reading: Reading, s: XmlSuite, scope: Scope) {
    match scope
    case Product(p) => reading.publisher(s.name) == p || reading.subscriber(s.name) == p
    case Pairing(p, q) => reading.publisher(s.name) == p && reading.subscriber(s.name) == q
  }

  predicate Says(reading: Reading, c: XmlCase, word: string) {
    c.results != [] && Contains(reading.upper(c.results[0]), word)
  }

  function UnsupportedCases(reading: Reading, cases: seq<XmlCase>): nat {
    if cases == [] then 0
    else
      UnsupportedCases(reading, cases[1..]) +
      if Says(reading, cases[0], "PUB_UNSUPPORTED_FEATURE") || Says(reading, cases[0], "SUB_UNSUPPORTED_FEATURE")
      then 1 else 0
  }

  function Number(reading: Reading, s: XmlSuite, column: Column): int {
    match column
    case AllTests => s.tests
    case Failures => s.failures
    case Skipped => s.skipped
    case Errors => s.errors
    case Unsupported => UnsupportedCases(reading, s.cases)
  }

  function AddUp(reading: Reading, suites: seq<XmlSuite>, scope: Scope, column: Column): int {
    if suites == [] then 0
    else
      AddUp(reading, suites[..|suites| - 1], scope, column) +
      if InScope(reading, suites[|suites| - 1], scope) then Number(reading, suites[|suites| - 1], column) else 0
  }

  /** Passed, failed, skipped and broken tests are all the tests of the suites in scope. */
  ghost predicate AddsUp(c: Counts, reading: Reading, suites: seq<XmlSuite>, scope: Scope) {
    && c.total == AddUp(reading, suites, scope, AllTests)
    && c.passed + AddUp(reading, suites, scope, Failures) + AddUp(reading, suites, scope, Skipped)
       + AddUp(reading, suites, scope, Errors) == AddUp(reading, suites, scope, AllTests)
    && c.unsupported == AddUp(reading, suites, scope, Unsupported)
  }

  lemma {:induction false} UnsupportedAreCounted(reading: Reading, cases: seq<XmlCase>)
    ensures UnsupportedIn(ReadCases(reading, cases)) == UnsupportedCases(reading, cases)
  {
    if cases != [] {
      UnsupportedAreCounted(reading, cases[1..]);
      assert ReadCases(reading, cases) == [ReadCase(reading, cases[0])] + ReadCases(reading, cases[1..]);
      CountedInFront(ReadCase(reading, cases[0]), ReadCases(reading, cases[1..]));
    }
  }

  lemma {:induction false} CountedInFront(c: Case, cases: seq<Case>)
    ensures UnsupportedIn([c] + cases) == UnsupportedIn(cases) + if IsUnsupported(c) then 1 else 0
  {
    if cases == [] {
      assert [c] + cases == [c] && [c][..0] == [];
    } else {
      CountedInFront(c, cases[..|cases| - 1]);
      InitOfAppend([c], cases);
    }
  }

  lemma ScopeAddsUp(c: Counts, reading: Reading, suites: seq<XmlSuite>, s: XmlSuite, scope: Scope)
    requires AddsUp(c, reading, suites, scope)
    ensures AddsUp(if InScope(reading, s, scope) then Plus(c, CountsOf(ReadSuite(reading, s))) else c,
                   reading, suites + [s], scope)
  {
    UnsupportedAreCounted(reading, s.cases);
    assert (suites + [s])[..|suites|] == suites;
  }

  /** What a summary holds under a key, counting nothing where it holds nothing. */
  function Row<K>(counts: map<K, Counts>, k: K): Counts {
    if k in counts then counts[k] else Counts(0, 0, 0)
  }

  lemma CountRow<K>(counts: map<K, Counts>, k: K, c: Counts, other: K)
    ensures Row(Count(counts, k, c), other) == if k == other then Plus(Row(counts, other), c) else Row(counts, other)
  {}

  /** Both summaries add up, for every product and every pair, from the numbers that stand in the file. */
  lemma {:induction false} SummariesAddUp(reading: Reading, suites: seq<XmlSuite>, p: string, q: string)
    ensures var info := Run(EMPTY, ReadSuites(reading, suites));
            && AddsUp(Row(info.summary, p), reading, suites, Product(p))
            && AddsUp(Row(info.pairs, (p, q)), reading, suites, Pairing(p, q))
  {
    if suites != [] {
      var most, s := suites[..|suites| - 1], suites[|suites| - 1];
      var before, read := Run(EMPTY, ReadSuites(reading, most)), ReadSuite(reading, s);
      assert ReadSuites(reading, suites)[..|most|] == ReadSuites(reading, most);
      SummariesAddUp(reading, most, p, q);
      InitAndLast(suites);
      CountRow(before.summary, read.publisher, CountsOf(read), p);
      CountRow(Count(before.summary, read.publisher, CountsOf(read)), read.subscriber, CountsOf(read), p);
      CountRow(before.pairs, (read.publisher, read.subscriber), CountsOf(read), (p, q));
      ScopeAddsUp(Row(before.summary, p), reading, most, s, Product(p));
      ScopeAddsUp(Row(before.pairs, (p, q)), reading, most, s, Pairing(p, q));
    }
  }

  /** A case as a page shows it: under the other product of its suite. */
  datatype Listed = Listed(other: string, c: XmlCase)

  function ListCases(other: string, cases: seq<XmlCase>): seq<Listed> {
    seq(|cases|, i requires 0 <= i < |cases| => Listed(other, cases[i]))
  }

  /** The cases of all suites in which `p` publishes, and of those in which it subscribes, in document order. */
  function Published(reading: Reading, suites: seq<XmlSuite>, p: string): seq<Listed> {
    if suites == [] then []
    else
      var s := suites[|suites| - 1];
      Published(reading, suites[..|suites| - 1], p) +
      if reading.publisher(s.name) == p then ListCases(reading.subscriber(s.name), s.cases) else []
  }

  function Subscribed(reading: Reading, suites: seq<XmlSuite>, p: string): seq<Listed> {
    if suites == [] then []
    else
      var s := suites[|suites| - 1];
      Subscribed(reading, suites[..|suites| - 1], p) +
      if reading.subscriber(s.name) == p then ListCases(reading.publisher(s.name), s.cases) else []
  }

  /** The status a case is shown with, from its result elements and the words in the first message. */
  predicate Deserves(reading: Reading, c: XmlCase, status: Status) {
    var pub, sub := Says(reading, c, "PUB_UNSUPPORTED_FEATURE"), Says(reading, c, "SUB_UNSUPPORTED_FEATURE");
    match status
    case Passed => c.results == []
    case Failed => c.results != [] && !pub && !sub
    case PubUnsupported => pub && !sub
    case SubUnsupported => !pub && sub
    case PubSubUnsupported => pub && sub
  }

  ghost predicate EntryShows(reading: Reading, l: Listed, e: Entry) {
    e.product == l.other && e.test == reading.test(l.c.name) && Deserves(reading, l.c, e.status)
  }

  ghost predicate PageShows(reading: Reading, listed: seq<Listed>, page: seq<Entry>) {
    |page| == |listed| && forall k :: 0 <= k < |page| ==> EntryShows(reading, listed[k], page[k])
  }

  lemma EntriesShow(reading: Reading, other: string, cases: seq<XmlCase>)
    ensures PageShows(reading, ListCases(other, cases), Entries(other, ReadCases(reading, cases)))
  {}

  lemma PageShowsMore(reading: Reading, a: seq<Listed>, b: seq<Listed>, pa: seq<Entry>, pb: seq<Entry>)
    requires PageShows(reading, a, pa) && PageShows(reading, b, pb)
    ensures PageShows(reading, a + b, pa + pb)
  {}

  lemma {:induction false} SidesShow(reading: Reading, suites: seq<XmlSuite>, p: string)
    ensures PageShows(reading, Published(reading, suites, p), AsPublisher(ReadSuites(reading, suites), p))
    ensures PageShows(reading, Subscribed(reading, suites, p), AsSubscriber(ReadSuites(reading, suites), p))
  {
    if suites != [] {
      var most, s := suites[..|suites| - 1], suites[|suites| - 1];
      var read, all := ReadSuite(reading, s), ReadSuites(reading, suites);
      assert all[..|most|] == ReadSuites(reading, most) && all[|most|] == read;
      SidesShow(reading, most, p);
      EntriesShow(reading, read.subscriber, s.cases);
      EntriesShow(reading, read.publisher, s.cases);
      PageShowsMore(reading, Published(reading, most, p),
                    if read.publisher == p then ListCases(read.subscriber, s.cases) else [],
                    AsPublisher(ReadSuites(reading, most), p),
                    if read.publisher == p then Entries(read.subscriber, read.cases) else []);
      PageShowsMore(reading, Subscribed(reading, most, p),
                    if read.subscriber == p then ListCases(read.publisher, s.cases) else [],
                    AsSubscriber(ReadSuites(reading, most), p),
                    if read.subscriber == p then Entries(read.publisher, read.cases) else []);
    }
  }

  /** Every page shows, one by one and in order, the cases that stand in the file. */
  lemma PagesShowTheCases(reading: Reading, suites: seq<XmlSuite>, p: string)
    ensures var info := Run(EMPTY, ReadSuites(reading, suites));
            && PageShows(reading, Published(reading, suites, p), Page(info.publisher, p))
            && PageShows(reading, Subscribed(reading, suites, p), Page(info.subscriber, p))
  {
    BooksAreComplete(ReadSuites(reading, suites), p);
    SidesShow(reading, suites, p);
  }

  /** Every row of both summaries adds up from the numbers in the file. */
  ghost predicate CountsTheFile(info: Info, reading: Reading, suites: seq<XmlSuite>) {
    && (forall p :: AddsUp(Row(info.summary, p), reading, suites, Product(p)))
    && (forall p, q :: AddsUp(Row(info.pairs, (p, q)), reading, suites, Pairing(p, q)))
  }

  /** Every page of both books shows the cases in the file. */
  ghost predicate ListsTheFile(info: Info, reading: Reading, suites: seq<XmlSuite>) {
    forall p ::
      && PageShows(reading, Published(reading, suites, p), Page(info.publisher, p))
      && PageShows(reading, Subscribed(reading, suites, p), Page(info.subscriber, p))
  }

  lemma FileIsCounted(reading: Reading, suites: seq<XmlSuite>)
    ensures CountsTheFile(Run(EMPTY, ReadSuites(reading, suites)), reading, suites)
    ensures ListsTheFile(Run(EMPTY, ReadSuites(reading, suites)), reading, suites)
  {
    var info := Run(EMPTY, ReadSuites(reading, suites));
    forall p ensures AddsUp(Row(info.summary, p), reading, suites, Product(p)) {
      SummariesAddUp(reading, suites, p, p);
    }
    forall p, q ensures AddsUp(Row(info.pairs, (p, q)), reading, suites, Pairing(p, q)) {
      SummariesAddUp(reading, suites, p, q);
    }
    forall p
      ensures PageShows(reading, Published(reading, suites, p), Page(info.publisher, p))
      ensures PageShows(reading, Subscribed(reading, suites, p), Page(info.subscriber, p))
    {
      PagesShowTheCases(reading, suites, p);
    }
  }

  // ----- the summaries against the books -----

  function HowMany(results: seq<(string, Status)>, statuses: set<Status>): nat {
    if results == [] then 0
    else HowMany(results[..|results| - 1], statuses) + if results[|results| - 1].1 in statuses then 1 else 0
  }

  lemma {:induction false} HowManyTogether(a: seq<(string, Status)>, b: seq<(string, Status)>, statuses: set<Status>)
    ensures HowMany(a + b, statuses) == HowMany(a, statuses) + HowMany(b, statuses)
  {
    if b == [] {
      assert a + b == a;
    } else {
      HowManyTogether(a, b[..|b| - 1], statuses);
      InitOfAppend(a, b);
    }
  }

  /** The numbers of the suite count its own cases, and of these only the ones without a result as passed. */
  predicate CountsItsCases(s: XmlSuite) {
    s.tests == |s.cases| && s.failures + s.skipped + s.errors == WithResult(s.cases)
  }

  function WithResult(cases: seq<XmlCase>): nat {
    if cases == [] then 0
    else WithResult(cases[..|cases| - 1]) + if cases[|cases| - 1].results != [] then 1 else 0
  }

  lemma {:induction false} StatusesOfCases(reading: Reading, cases: seq<XmlCase>)
    ensures var results := Results(ReadCases(reading, cases));
            && HowMany(results, {Passed}) + WithResult(cases) == |cases|
            && HowMany(results, {PubUnsupported, SubUnsupported, PubSubUnsupported})
               == UnsupportedIn(ReadCases(reading, cases))
  {
    if cases != [] {
      var most, c := cases[..|cases| - 1], ReadCase(reading, cases[|cases| - 1]);
      StatusesOfCases(reading, most);
      assert ReadCases(reading, cases) == ReadCases(reading, most) + [c];
      EntriesNext("", ReadCases(reading, most), c);
      var before := Results(ReadCases(reading, most));
      assert (before + [(c.test, StatusOf(c))])[..|before|] == before;
    }
  }

  ghost predicate PairIsShown(c: Counts, results: seq<(string, Status)>) {
    && c.passed == HowMany(results, {Passed})
    && c.unsupported == HowMany(results, {PubUnsupported, SubUnsupported, PubSubUnsupported})
    && c.total == |results|
  }

  lemma OneMoreSuiteShown(reading: Reading, s: XmlSuite, c: Counts, before: seq<(string, Status)>)
    requires PairIsShown(c, before) && CountsItsCases(s)
    ensures PairIsShown(Plus(c, CountsOf(ReadSuite(reading, s))), before + Results(ReadCases(reading, s.cases)))
  {
    StatusesOfCases(reading, s.cases);
    HowManyTogether(before, Results(ReadCases(reading, s.cases)), {Passed});
    HowManyTogether(before, Results(ReadCases(reading, s.cases)),
                    {PubUnsupported, SubUnsupported, PubSubUnsupported});
  }

  lemma {:induction false} PairsAreShown(reading: Reading, suites: seq<XmlSuite>, p: string, q: string)
    requires forall i :: 0 <= i < |suites| ==> CountsItsCases(suites[i])
    ensures var all := ReadSuites(reading, suites);
            PairIsShown(Row(Run(EMPTY, all).pairs, (p, q)), Against(AsPublisher(all, p), q))
  {
    if suites != [] {
      var most, s := suites[..|suites| - 1], suites[|suites| - 1];
      var read, all := ReadSuite(reading, s), ReadSuites(reading, suites);
      var early := ReadSuites(reading, most);
      assert all[..|most|] == early && all[|most|] == read;
      PairsAreShown(reading, most, p, q);
      CountRow(Run(EMPTY, early).pairs, (read.publisher, read.subscriber), CountsOf(read), (p, q));
      var here := if read.publisher == p then Entries(read.subscriber, read.cases) else [];
      AgainstAppend(AsPublisher(early, p), here, q);
      AgainstEntries(read.subscriber, read.cases, q);
      if read.publisher == p && read.subscriber == q {
        var row := Row(Run(EMPTY, early).pairs, (p, q));
        OneMoreSuiteShown(reading, s, row, Against(AsPublisher(early, p), q));
      } else {
        assert Against(AsPublisher(early, p), q) + [] == Against(AsPublisher(early, p), q);
      }
    }
  }

  /** If every suite counts its own cases, the row of a pair counts the statuses that the books show for it. */
  lemma PairsCountWhatIsShown(reading: Reading, suites: seq<XmlSuite>, p: string, q: string)
    requires forall i :: 0 <= i < |suites| ==> CountsItsCases(suites[i])
    ensures var info := Run(EMPTY, ReadSuites(reading, suites));
            PairIsShown(Row(info.pairs, (p, q)), Against(Page(info.publisher, p), q))
  {
    PairsAreShown(reading, suites, p, q);
    BooksAreComplete(ReadSuites(reading, suites), p);
  }
}
