/**
  Comparing consecutive report files (`compare` and `_repeated_change_tests`,
  benchmarking/junit_compare/analyzer.py), and what it has to do with flakiness.

  The text of a key, by which the source sorts keys, is a parameter.
 */
module Compare {
  import opened Bytes
  import opened Sequences
  import opened Sorting
  import opened Verdict
  import opened Results
  import opened Sums
  import opened Aggregate

  /** The first and the second value of a field. */
  datatype Pair<T> = Pair(first: T, second: T)

  /** An entry of `changed`: the test label and the compared fields that differ. */
  datatype Changed = Changed(
    test: string,
    status: Option<Pair<Tag>>,
    detail: Option<Pair<string>>,
    time: Option<Pair<string>>
  )

  datatype CompareReport = CompareReport(
    firstCount: nat,
    secondCount: nat,
    added: seq<string>,
    removed: seq<string>,
    changed: seq<Changed>
  )

  function Differing<T(==)>(compared: bool, a: T, b: T): Option<Pair<T>> {
    if compared && a != b then Some(Pair(a, b)) else None
  }

  function Difference(a: TestResult, b: TestResult, times: bool, details: bool): Changed {
    Changed(KeyLabel(b.key), Differing(true, a.status, b.status), Differing(details, a.detail, b.detail),
            Differing(times, a.time, b.time))
  }

  predicate IsChange(d: Changed) {
    d.status.Some? || d.detail.Some? || d.time.Some?
  }

  ghost predicate Enumerates(order: seq<Key>, keys: set<Key>) {
    && Distinct(order)
    && (forall i :: 0 <= i < |order| ==> order[i] in keys)
    && (forall key :: key in keys ==> key in order)
  }

  function Changes(first: Loaded, second: Loaded, order: seq<Key>, times: bool, details: bool): seq<Changed>
    requires forall i :: 0 <= i < |order| ==> order[i] in first && order[i] in second
  {
    if order == [] then []
    else
      var n := |order| - 1;
      var d := Difference(first[order[n]], second[order[n]], times, details);
      Changes(first, second, order[..n], times, details) + if IsChange(d) then [d] else []
  }

  function Labels(keys: seq<Key>): seq<string> {
    seq(|keys|, i requires 0 <= i < |keys| => KeyLabel(keys[i]))
  }

  function ByText(text: Key -> string): Key -> SortKey {
    key => (text(key), "")
  }

  /** `sorted(keys, key=str)` of a set. */
  method Sorted(keys: set<Key>, text: Key -> string) returns (order: seq<Key>)
    ensures Enumerates(order, keys) && SortedBy(order, ByText(text))
  {
    var listed := Listed(keys);
    order := SortBy(listed, ByText(text));
    SortSorts(listed, ByText(text));
    SortEnumerates(listed, keys, ByText(text));
  }

  method Listed(keys: set<Key>) returns (listed: seq<Key>)
    ensures Enumerates(listed, keys)
  {
    listed := [];
    var todo := keys;
    while todo != {}
      invariant todo <= keys && Enumerates(listed, keys - todo)
    {
      var key :| key in todo;
      ListOneMore(listed, keys - todo, key);
      assert keys - (todo - {key}) == keys - todo + {key};
      listed, todo := listed + [key], todo - {key};
    }
    assert keys - todo == keys;
  }

  lemma ListOneMore(listed: seq<Key>, keys: set<Key>, key: Key)
    requires Enumerates(listed, keys) && key !in keys
    ensures Enumerates(listed + [key], keys + {key})
  {
    forall k ensures k in listed + [key] <==> k in keys + {key} {
      InAppend(listed, [key], k);
    }
  }

  lemma SortEnumerates(listed: seq<Key>, keys: set<Key>, sortKey: Key -> SortKey)
    requires Enumerates(listed, keys)
    ensures Enumerates(SortBy(listed, sortKey), keys)
  {
    var order := SortBy(listed, sortKey);
    SortHasTheSame(listed, sortKey);
    SortDistinct(listed, sortKey);
    forall i | 0 <= i < |order| ensures order[i] in keys {
      assert order[i] in listed;
    }
  }

  // ----- what a report says -----

  /** A compared field differs between the two results. */
  predicate Differ(a: TestResult, b: TestResult, times: bool, details: bool) {
    a.status != b.status || (details && a.detail != b.detail) || (times && a.time != b.time)
  }

  predicate DiffersAt(first: Loaded, second: Loaded, key: Key, times: bool, details: bool) {
    key in first && key in second && Differ(first[key], second[key], times, details)
  }

  /** Present exactly if the values differ, and then the first value first. */
  predicate ShowsBoth<T(==)>(shown: Option<Pair<T>>, first: T, second: T) {
    match shown
    case None => first == second
    case Some(p) => first != second && p.first == first && p.second == second
  }

  /** The entry names the test and shows exactly the compared fields that differ. */
  predicate Reports(entry: Changed, a: TestResult, b: TestResult, times: bool, details: bool) {
    && entry.test == KeyLabel(b.key)
    && ShowsBoth(entry.status, a.status, b.status)
    && (if details then ShowsBoth(entry.detail, a.detail, b.detail) else entry.detail == None)
    && (if times then ShowsBoth(entry.time, a.time, b.time) else entry.time == None)
  }

  /** The entries stand, in order, for exactly the keys with a difference: entry `i` for key `at[i]`. */
  ghost predicate ReportsInOrder(changed: seq<Changed>, first: Loaded, second: Loaded, order: seq<Key>,
                                 times: bool, details: bool, at: seq<nat>) {
    && |at| == |changed|
    && (forall i, j :: 0 <= i < j < |at| ==> at[i] < at[j])
    && (forall i :: 0 <= i < |at| ==>
          && at[i] < |order| && order[at[i]] in first && order[at[i]] in second
          && Differ(first[order[at[i]]], second[order[at[i]]], times, details)
          && Reports(changed[i], first[order[at[i]]], second[order[at[i]]], times, details))
    && forall k :: 0 <= k < |order| && DiffersAt(first, second, order[k], times, details) ==> k in at
  }

  lemma DifferenceReports(a: TestResult, b: TestResult, times: bool, details: bool)
    ensures Reports(Difference(a, b, times, details), a, b, times, details)
    ensures IsChange(Difference(a, b, times, details)) <==> Differ(a, b, times, details)
  {}

  lemma ReportsOneMore(changed: seq<Changed>, first: Loaded, second: Loaded, order: seq<Key>, key: Key,
                       times: bool, details: bool, at: seq<nat>, entry: Changed)
    requires ReportsInOrder(changed, first, second, order, times, details, at) && key in first && key in second
    requires Reports(entry, first[key], second[key], times, details)
    ensures if Differ(first[key], second[key], times, details) then
              ReportsInOrder(changed + [entry], first, second, order + [key], times, details, at + [|order|])
            else
              ReportsInOrder(changed, first, second, order + [key], times, details, at)
  {
    var more := order + [key];
    assert forall i :: 0 <= i < |at| ==> more[at[i]] == order[at[i]];
    forall k | 0 <= k < |more| && DiffersAt(first, second, more[k], times, details)
      ensures k in at + [|order|] && (k < |order| ==> k in at)
    {
      if k < |order| {
        assert more[k] == order[k];
      }
      InAppend(at, [|order|], k);
    }
  }

  lemma {:induction false} ChangesReport(first: Loaded, second: Loaded, order: seq<Key>, times: bool, details: bool)
    returns (at: seq<nat>)
    requires forall i :: 0 <= i < |order| ==> order[i] in first && order[i] in second
    ensures ReportsInOrder(Changes(first, second, order, times, details), first, second, order, times, details, at)
  {
    if order == [] {
      at := [];
    } else {
      var most, key := order[..|order| - 1], order[|order| - 1];
      var changed := Changes(first, second, most, times, details);
      var d := Difference(first[key], second[key], times, details);
      var before := ChangesReport(first, second, most, times, details);
      DifferenceReports(first[key], second[key], times, details);
      ReportsOneMore(changed, first, second, most, key, times, details, before, d);
      InitAndLast(order);
      at := if IsChange(d) then before + [|most|] else before;
      assert changed + [] == changed;
    }
  }

  /** A common test whose label names no other has an entry exactly if a compared field differs, and only one. */
  lemma EntryOfTheTest(changed: seq<Changed>, first: Loaded, second: Loaded, order: seq<Key>,
                       times: bool, details: bool, at: seq<nat>, key: Key)
    requires ReportsInOrder(changed, first, second, order, times, details, at)
    requires Enumerates(order, first.Keys * second.Keys) && key in first && key in second
    requires WellLoaded(second) && forall k :: k in second && KeyLabel(k) == KeyLabel(key) ==> k == key
    ensures Differ(first[key], second[key], times, details) <==>
            exists i :: 0 <= i < |changed| && changed[i].test == KeyLabel(key)
    ensures forall i :: 0 <= i < |changed| && changed[i].test == KeyLabel(key) ==>
              Reports(changed[i], first[key], second[key], times, details)
    ensures forall i, j :: 0 <= i < j < |changed| ==>
              changed[i].test != KeyLabel(key) || changed[j].test != KeyLabel(key)
  {
    forall i | 0 <= i < |changed| ensures changed[i].test == KeyLabel(key) <==> order[at[i]] == key {
      assert second[order[at[i]]].key == order[at[i]];
      assert second[key].key == key;
    }
    assert key in order;
    var k :| 0 <= k < |order| && order[k] == key;
    if Differ(first[key], second[key], times, details) {
      assert k in at;
      var i :| 0 <= i < |at| && at[i] == k;
      assert changed[i].test == KeyLabel(key);
    }
  }

  /** `compare` */
  method CompareFiles(first: Loaded, second: Loaded, text: Key -> string, times: bool, details: bool)
    returns (r: CompareReport, ghost added: seq<Key>, ghost removed: seq<Key>, ghost common: seq<Key>,
             ghost at: seq<nat>)
    ensures Enumerates(added, second.Keys - first.Keys) && SortedBy(added, ByText(text)) && r.added == Labels(added)
    ensures Enumerates(removed, first.Keys - second.Keys) && SortedBy(removed, ByText(text))
    ensures r.removed == Labels(removed)
    ensures Enumerates(common, first.Keys * second.Keys) && SortedBy(common, ByText(text))
    ensures r.changed == Changes(first, second, common, times, details)
    ensures ReportsInOrder(r.changed, first, second, common, times, details, at)
    ensures r.firstCount == |first| && r.secondCount == |second|
  {
    var addedKeys := Sorted(second.Keys - first.Keys, text);
    var removedKeys := Sorted(first.Keys - second.Keys, text);
    var order := Sorted(first.Keys * second.Keys, text);
    var changed := ChangesInOrder(first, second, order, times, details);
    r := CompareReport(|first|, |second|, Labels(addedKeys), Labels(removedKeys), changed);
    added, removed, common := addedKeys, removedKeys, order;
    at := ChangesReport(first, second, order, times, details);
  }

  method ChangesInOrder(first: Loaded, second: Loaded, order: seq<Key>, times: bool, details: bool)
    returns (changed: seq<Changed>)
    requires forall i :: 0 <= i < |order| ==> order[i] in first && order[i] in second
    ensures changed == Changes(first, second, order, times, details)
  {
    changed := [];
    for i := 0 to |order|
      invariant changed == Changes(first, second, order[..i], times, details)
    {
      assert order[..i + 1][..i] == order[..i];
      var d := Difference(first[order[i]], second[order[i]], times, details);
      if IsChange(d) {
        changed := changed + [d];
      }
    }
    assert order[..|order|] == order;
  }

  /** Where different keys have different texts, the sorted order does not depend on how a set is walked. */
  lemma OrderIsDetermined(a: seq<Key>, b: seq<Key>, keys: set<Key>, text: Key -> string)
    requires Enumerates(a, keys) && Enumerates(b, keys) && SortedBy(a, ByText(text)) && SortedBy(b, ByText(text))
    requires forall j, k :: j in keys && k in keys && text(j) == text(k) ==> j == k
    ensures a == b
  {
    forall key ensures multiset(a)[key] == multiset(b)[key] {
      OnceEach(a, key);
      OnceEach(b, key);
      assert key in a <==> key in b;
    }
    assert multiset(a) == multiset(b);
    SortedIsUnique(a, b, ByText(text));
  }

  lemma {:induction false} EnumerationSize(order: seq<Key>, keys: set<Key>)
    requires Enumerates(order, keys)
    ensures |order| == |keys|
  {
    if order == [] {
      assert keys == {};
    } else {
      var n := |order| - 1;
      InitAndLast(order);
      EnumerationSize(order[..n], keys - {order[n]});
      assert keys == keys - {order[n]} + {order[n]};
    }
  }

  /** What was added and removed accounts for the difference in size. */
  lemma CountsBalance(first: Loaded, second: Loaded, added: seq<Key>, removed: seq<Key>)
    requires Enumerates(added, second.Keys - first.Keys) && Enumerates(removed, first.Keys - second.Keys)
    ensures |first| + |added| == |second| + |removed|
  {
    EnumerationSize(added, second.Keys - first.Keys);
    EnumerationSize(removed, first.Keys - second.Keys);
    SplitSize(first.Keys, second.Keys);
    SplitSize(second.Keys, first.Keys);
    assert first.Keys * second.Keys == second.Keys * first.Keys;
    assert |first| == |first.Keys| && |second| == |second.Keys|;
  }

  lemma SplitSize(a: set<Key>, b: set<Key>)
    ensures |a| == |a * b| + |a - b|
  {
    assert a == a * b + (a - b);
  }

  // ----- repeated changes -----

  /** How many entries report a changed status of this test. */
  function StatusEntries(changed: seq<Changed>, test: string): nat {
    if changed == [] then 0
    else
      var last := changed[|changed| - 1];
      StatusEntries(changed[..|changed| - 1], test) + if last.test == test && last.status.Some? then 1 else 0
  }

  /** The same over the first `n` comparisons. */
  function StatusEntriesIn(reports: seq<seq<Changed>>, test: string, n: nat): nat
    requires n <= |reports|
  {
    if n == 0 then 0 else StatusEntriesIn(reports, test, n - 1) + StatusEntries(reports[n - 1], test)
  }

  method CountEntries(counts: map<string, nat>, changed: seq<Changed>) returns (after: map<string, nat>)
    ensures forall test :: Get(after, test) == Get(counts, test) + StatusEntries(changed, test)
  {
    after := counts;
    for i := 0 to |changed|
      invariant forall test :: Get(after, test) == Get(counts, test) + StatusEntries(changed[..i], test)
    {
      assert changed[..i + 1][..i] == changed[..i];
      if changed[i].status.None? {
        continue;
      }
      after := after[changed[i].test := Get(after, changed[i].test) + 1];
    }
    assert changed[..|changed|] == changed;
  }

  /** `_repeated_change_tests`: the tests that changed status in more than one comparison, with how often. */
  method RepeatedChangeTests(reports: seq<seq<Changed>>) returns (repeated: map<string, nat>)
    ensures forall test :: test in repeated <==> StatusEntriesIn(reports, test, |reports|) > 1
    ensures forall test :: test in repeated ==> repeated[test] == StatusEntriesIn(reports, test, |reports|)
  {
    var counts: map<string, nat> := map[];
    for i := 0 to |reports|
      invariant forall test :: Get(counts, test) == StatusEntriesIn(reports, test, i)
    {
      counts := CountEntries(counts, reports[i]);
    }
    repeated := map test | test in counts && counts[test] > 1 :: counts[test];
    forall test ensures test in repeated <==> StatusEntriesIn(reports, test, |reports|) > 1 {
      assert Get(counts, test) == StatusEntriesIn(reports, test, |reports|);
    }
  }

  // ----- a series of files -----

  predicate InEvery(files: seq<Loaded>, key: Key) {
    forall i :: 0 <= i < |files| ==> key in files[i]
  }

  /** The label of `key` names no other test of the file. */
  ghost predicate NamesOne(file: Loaded, key: Key) {
    WellLoaded(file) && forall k :: k in file && KeyLabel(k) == KeyLabel(key) ==> k == key
  }

  /** The test is in every file, and its label names no other test in any of them. */
  ghost predicate Tracked(files: seq<Loaded>, key: Key) {
    InEvery(files, key) && forall i :: 0 <= i < |files| ==> NamesOne(files[i], key)
  }

  /** How often the raw status of `key` changes between neighbours among the first `n` files. */
  ghost function StatusFlips(files: seq<Loaded>, key: Key, n: nat): nat
    requires n <= |files| && InEvery(files, key)
  {
    if n <= 1 then 0
    else StatusFlips(files, key, n - 1) + if files[n - 2][key].status != files[n - 1][key].status then 1 else 0
  }

  ghost predicate Compares(report: seq<Changed>, first: Loaded, second: Loaded, order: seq<Key>,
                           times: bool, details: bool) {
    Enumerates(order, first.Keys * second.Keys) && report == Changes(first, second, order, times, details)
  }

  /** The comparisons of each file with the next. */
  ghost predicate ComparesSeries(reports: seq<seq<Changed>>, files: seq<Loaded>, orders: seq<seq<Key>>, times: bool,
                                 details: bool) {
    && |orders| == |reports| && |files| == |reports| + 1
    && forall i {:trigger reports[i]} :: 0 <= i < |reports| ==>
         Compares(reports[i], files[i], files[i + 1], orders[i], times, details)
  }

  lemma EntriesNext(changed: seq<Changed>, d: Changed, test: string)
    ensures StatusEntries(changed + [d], test)
            == StatusEntries(changed, test) + if d.test == test && d.status.Some? then 1 else 0
  {
    assert (changed + [d])[..|changed + [d]| - 1] == changed;
  }

  lemma ChangesNext(first: Loaded, second: Loaded, order: seq<Key>, times: bool, details: bool, test: string)
    requires order != [] && forall i :: 0 <= i < |order| ==> order[i] in first && order[i] in second
    ensures var n := |order| - 1;
            var d := Difference(first[order[n]], second[order[n]], times, details);
            StatusEntries(Changes(first, second, order, times, details), test)
            == StatusEntries(Changes(first, second, order[..n], times, details), test)
               + if d.test == test && d.status.Some? then 1 else 0
  {
    var n := |order| - 1;
    var d := Difference(first[order[n]], second[order[n]], times, details);
    var changed := Changes(first, second, order[..n], times, details);
    EntriesNext(changed, d, test);
    assert changed + [] == changed;
  }

  lemma {:induction false} OneEntryPerChange(first: Loaded, second: Loaded, order: seq<Key>, times: bool, details: bool,
                                             key: Key, test: string)
    requires forall i :: 0 <= i < |order| ==> order[i] in first && order[i] in second
    requires Distinct(order) && test == KeyLabel(key)
    requires WellLoaded(second) && forall k :: k in second && KeyLabel(k) == test ==> k == key
    ensures StatusEntries(Changes(first, second, order, times, details), test) ==
            if key in order && first[key].status != second[key].status then 1 else 0
  {
    if order != [] {
      var n := |order| - 1;
      OneEntryPerChange(first, second, order[..n], times, details, key, test);
      ChangesNext(first, second, order, times, details, test);
      InitAndLast(order);
      InAppend(order[..n], [order[n]], key);
      assert second[order[n]].key == order[n];
    }
  }

  lemma PairEntry(reports: seq<seq<Changed>>, files: seq<Loaded>, orders: seq<seq<Key>>, times: bool, details: bool,
                  key: Key, test: string, i: nat)
    requires ComparesSeries(reports, files, orders, times, details) && Tracked(files, key) && i < |reports|
    requires test == KeyLabel(key)
    ensures key in files[i] && key in files[i + 1]
    ensures EntryMatches(reports[i], test, files[i][key], files[i + 1][key])
  {
    var order := orders[i];
    assert Compares(reports[i], files[i], files[i + 1], order, times, details);
    assert key in files[i].Keys * files[i + 1].Keys && NamesOne(files[i + 1], key);
    OneEntryPerChange(files[i], files[i + 1], order, times, details, key, test);
  }

  /** A report has an entry under this label if the status changed from `a` to `b`, and none otherwise. */
  predicate EntryMatches(report: seq<Changed>, test: string, a: TestResult, b: TestResult) {
    StatusEntries(report, test) == if a.status != b.status then 1 else 0
  }

  ghost predicate EntriesMatch(reports: seq<seq<Changed>>, files: seq<Loaded>, key: Key, test: string)
    requires |files| == |reports| + 1 && InEvery(files, key)
  {
    forall i {:trigger reports[i]} :: 0 <= i < |reports| ==>
      EntryMatches(reports[i], test, files[i][key], files[i + 1][key])
  }

  lemma {:induction false} MatchesAddUp(reports: seq<seq<Changed>>, files: seq<Loaded>, key: Key, test: string, n: nat)
    requires |files| == |reports| + 1 && InEvery(files, key)
    requires EntriesMatch(reports, files, key, test) && n <= |reports|
    ensures StatusEntriesIn(reports, test, n) == StatusFlips(files, key, n + 1)
  {
    if n > 0 {
      MatchesAddUp(reports, files, key, test, n - 1);
      assert EntryMatches(reports[n - 1], test, files[n - 1][key], files[n][key]);
    }
  }

  lemma AllEntriesMatch(reports: seq<seq<Changed>>, files: seq<Loaded>, orders: seq<seq<Key>>,
                        times: bool, details: bool, key: Key, test: string)
    requires ComparesSeries(reports, files, orders, times, details) && Tracked(files, key) && test == KeyLabel(key)
    ensures EntriesMatch(reports, files, key, test)
  {
    forall i | 0 <= i < |reports| ensures EntryMatches(reports[i], test, files[i][key], files[i + 1][key]) {
      PairEntry(reports, files, orders, times, details, key, test, i);
    }
  }

  /** The entries of a tracked test are exactly its changes of raw status between neighbouring files. */
  lemma EntriesAreFlips(reports: seq<seq<Changed>>, files: seq<Loaded>, orders: seq<seq<Key>>,
                        times: bool, details: bool, key: Key)
    requires ComparesSeries(reports, files, orders, times, details) && Tracked(files, key)
    ensures StatusEntriesIn(reports, KeyLabel(key), |reports|) == StatusFlips(files, key, |files|)
  {
    FlipsOfLabel(reports, files, orders, times, details, key, KeyLabel(key));
  }

  lemma FlipsOfLabel(reports: seq<seq<Changed>>, files: seq<Loaded>, orders: seq<seq<Key>>,
                     times: bool, details: bool, key: Key, test: string)
    requires ComparesSeries(reports, files, orders, times, details) && Tracked(files, key) && test == KeyLabel(key)
    ensures StatusEntriesIn(reports, test, |reports|) == StatusFlips(files, key, |files|)
  {
    AllEntriesMatch(reports, files, orders, times, details, key, test);
    MatchesAddUp(reports, files, key, test, |reports|);
  }

  /** Two files that disagree have a flip between them; agreeing ends around a different file have two. */
  lemma {:induction false} DisagreementFlips(files: seq<Loaded>, key: Key, a: nat, n: nat)
    requires a < n <= |files| && InEvery(files, key)
    ensures files[a][key].status != files[n - 1][key].status ==>
              StatusFlips(files, key, n) > StatusFlips(files, key, a + 1)
    ensures StatusFlips(files, key, n) >= StatusFlips(files, key, a + 1)
  {
    if a + 1 < n {
      DisagreementFlips(files, key, a, n - 1);
    }
  }

  lemma FlipsAround(files: seq<Loaded>, key: Key, m: nat)
    requires m < |files| && InEvery(files, key)
    requires files[m][key].status != files[0][key].status
    ensures StatusFlips(files, key, |files|) >= 1
    ensures files[|files| - 1][key].status == files[0][key].status ==> StatusFlips(files, key, |files|) >= 2
  {
    DisagreementFlips(files, key, 0, m + 1);
    DisagreementFlips(files, key, m, |files|);
  }

  lemma {:induction false} SeenMeansPresent(files: seq<Loaded>, key: Key, n: nat, rs: RichStatus) returns (i: nat)
    requires Tracked(files, key) && n <= |files| && SeenUpTo(files, n, KeyLabel(key), rs) > 0
    ensures i < n && files[i][key].rich == rs
  {
    if |Hits(files[n - 1], files[n - 1].Keys, KeyLabel(key), rs)| > 0 {
      var k :| k in Hits(files[n - 1], files[n - 1].Keys, KeyLabel(key), rs);
      i := n - 1;
    } else {
      i := SeenMeansPresent(files, key, n - 1, rs);
    }
  }

  lemma SeenInRow(rows: Rows, files: seq<Loaded>, test: string, rs: RichStatus)
    requires Tallies(rows, files, |files|, map[], {})
    ensures Get(Row(rows, test), rs) == SeenUpTo(files, |files|, test, rs)
  {
    assert Hits(map[], {}, test, rs) == {};
  }

  predicate Passes(rs: RichStatus) {
    rs in {Passed, PassedAsSkipped}
  }

  predicate Fails(rs: RichStatus) {
    rs in {FailureQosUnexpected, FailureFalsePass, FailureData, FailureOrdering, FailureInfrastructure,
           FailureOther, Error}
  }

  lemma FlakyHasBoth(c: Counts) returns (pass: RichStatus, fail: RichStatus)
    requires Flaky(c)
    ensures Passes(pass) && Get(c, pass) > 0 && Fails(fail) && Get(c, fail) > 0
  {
    pass :| pass in {Passed, PassedAsSkipped} && Get(c, pass) > 0;
    fail :| fail in {FailureQosUnexpected, FailureFalsePass, FailureData, FailureOrdering, FailureInfrastructure,
                     FailureOther, Error} && Get(c, fail) > 0;
  }

  lemma PassAndFailDiffer(a: Tag, pass: RichStatus, b: Tag, fail: RichStatus)
    requires Fits(a, pass) && Passes(pass) && Fits(b, fail) && Fails(fail)
    ensures a != b
  {}

  /** A flaky row stems from two files whose raw statuses differ. */
  lemma FlakyRowsDisagree(rows: Rows, files: seq<Loaded>, key: Key) returns (i: nat, j: nat)
    requires Tallies(rows, files, |files|, map[], {}) && Tracked(files, key) && Flaky(Row(rows, KeyLabel(key)))
    ensures i < |files| && j < |files| && files[i][key].status != files[j][key].status
  {
    var pass, fail := FlakyHasBoth(Row(rows, KeyLabel(key)));
    SeenInRow(rows, files, KeyLabel(key), pass);
    SeenInRow(rows, files, KeyLabel(key), fail);
    i := SeenMeansPresent(files, key, |files|, pass);
    j := SeenMeansPresent(files, key, |files|, fail);
    PassAndFailDiffer(files[i][key].status, pass, files[j][key].status, fail);
  }

  /**
    Flakiness and run-to-run comparison agree: a tracked test with a flaky aggregate row is reported
    as changed by at least one comparison of neighbouring files, and is among the repeated changes
    (at least two) whenever the series ends with the raw status it began with.
   */
  lemma FlakyTestsAreReported(rows: Rows, reports: seq<seq<Changed>>, files: seq<Loaded>, orders: seq<seq<Key>>,
                              times: bool, details: bool, key: Key)
    requires ComparesSeries(reports, files, orders, times, details) && Tracked(files, key)
    requires Tallies(rows, files, |files|, map[], {}) && Flaky(Row(rows, KeyLabel(key)))
    ensures StatusEntriesIn(reports, KeyLabel(key), |reports|) >= 1
    ensures files[0][key].status == files[|files| - 1][key].status ==>
              StatusEntriesIn(reports, KeyLabel(key), |reports|) > 1
  {
    EntriesAreFlips(reports, files, orders, times, details, key);
    var i, j := FlakyRowsDisagree(rows, files, key);
    FlipsAround(files, key, if files[i][key].status != files[0][key].status then i else j);
  }
}
