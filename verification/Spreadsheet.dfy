/**
  The result tables of generate_xlsx_report.py: `add_product_table`, which gives every product a
  column and every test a row the first time it meets them, and the sheet of a product, which
  puts a labelled table and an unlabelled one side by side (`add_data_test_worksheet`).
 */
module Spreadsheet {
  import opened Bytes
  import opened JunitData
  import opened Sequences

  type Cells = map<(int, int), string>

  function Get(cells: Cells, r: int, c: int): Option<string> {
    if (r, c) in cells then Some(cells[(r, c)]) else None
  }

  function Text(s: Status): string {
    match s
    case Passed => "OK"
    case Failed => "ERROR"
    case PubUnsupported => "PUB UNSUPPORTED"
    case SubUnsupported => "SUB UNSUPPORTED"
    case PubSubUnsupported => "PUB/SUB UNSUPPORTED"
  }

  function OrElse<T>(o: Option<T>, other: Option<T>): Option<T> {
    if o.Some? then o else other
  }

  function OrNone(page: Option<seq<Entry>>): seq<Entry> {
    match page
    case Some(entries) => entries
    case None => []
  }

  // ----- order of first appearance -----

  function Products(entries: seq<Entry>): seq<string> {
    seq(|entries|, i requires 0 <= i < |entries| => entries[i].product)
  }

  function Tests(entries: seq<Entry>): seq<string> {
    seq(|entries|, i requires 0 <= i < |entries| => entries[i].test)
  }

  /** Where `n` stands in `names`. */
  function IndexOf(names: seq<string>, n: string): (i: nat)
    requires n in names
    ensures i < |names| && names[i] == n
  {
    if names[0] == n then 0 else 1 + IndexOf(names[1..], n)
  }

  // ----- what a table shows -----

  function LastStatus(entries: seq<Entry>, product: string, test: string): Option<Status> {
    if entries == [] then None
    else
      var e := entries[|entries| - 1];
      if e.product == product && e.test == test then Some(e.status)
      else LastStatus(entries[..|entries| - 1], product, test)
  }

  /** The cell `dr` rows below and `dc` columns right of the table's corner, over what was there before. */
  function TableCell(
    before: Option<string>, dr: int, dc: int,
    entries: seq<Entry>, products: seq<string>, tests: seq<string>, labelled: bool): Option<string>
  {
    if dr == 0 && dc == 0 then if labelled then Some("Test") else before
    else if dr == 0 && 0 < dc <= |products| then Some(products[dc - 1])
    else if dc == 0 && 0 < dr <= |tests| then if labelled then Some(tests[dr - 1]) else before
    else if 0 < dr <= |tests| && 0 < dc <= |products| then
      match LastStatus(entries, products[dc - 1], tests[dr - 1])
      case Some(s) => Some(Text(s))
      case None => before
    else before
  }

  ghost predicate Painted(
    before: Cells, after: Cells, row: int, column: int,
    entries: seq<Entry>, products: seq<string>, tests: seq<string>, labelled: bool)
  {
    forall r, c :: Get(after, r, c) ==
                   TableCell(Get(before, r, c), r - row, c - column, entries, products, tests, labelled)
  }

  lemma {:induction false} NothingListed(entries: seq<Entry>, product: string, test: string)
    requires product !in Products(entries) || test !in Tests(entries)
    ensures LastStatus(entries, product, test) == None
  {
    if entries != [] {
      var most, n := entries[..|entries| - 1], |entries| - 1;
      assert Products(entries)[n] == entries[n].product && Tests(entries)[n] == entries[n].test;
      assert Products(entries) == Products(most) + [entries[n].product];
      assert Tests(entries) == Tests(most) + [entries[n].test];
      NothingListed(most, product, test);
    }
  }

  lemma PaintColumn(
    before: Cells, after: Cells, row: int, column: int,
    entries: seq<Entry>, products: seq<string>, tests: seq<string>, labelled: bool, p: string)
    requires Painted(before, after, row, column, entries, products, tests, labelled)
    requires p !in Products(entries)
    ensures Painted(before, after[(row, column + |products| + 1) := p], row, column,
                    entries, products + [p], tests, labelled)
  {
    forall t ensures LastStatus(entries, p, t) == None {
      NothingListed(entries, p, t);
    }
  }

  lemma PaintRow(
    before: Cells, after: Cells, row: int, column: int,
    entries: seq<Entry>, products: seq<string>, tests: seq<string>, labelled: bool, t: string)
    requires Painted(before, after, row, column, entries, products, tests, labelled)
    requires t !in Tests(entries)
    ensures Painted(before, if labelled then after[(row + |tests| + 1, column) := t] else after,
                    row, column, entries, products, tests + [t], labelled)
  {
    forall p ensures LastStatus(entries, p, t) == None {
      NothingListed(entries, p, t);
    }
  }

  lemma LastStatusMore(entries: seq<Entry>, e: Entry, product: string, test: string)
    ensures LastStatus(entries + [e], product, test)
            == if e.product == product && e.test == test then Some(e.status) else LastStatus(entries, product, test)
  {
    assert (entries + [e])[..|entries|] == entries;
  }

  lemma PaintStatus(
    before: Cells, after: Cells, row: int, column: int,
    entries: seq<Entry>, products: seq<string>, tests: seq<string>, labelled: bool, e: Entry, i: nat, j: nat)
    requires Painted(before, after, row, column, entries, products, tests, labelled)
    requires Distinct(products) && Distinct(tests)
    requires i < |tests| && tests[i] == e.test && j < |products| && products[j] == e.product
    ensures Painted(before, after[(row + i + 1, column + j + 1) := Text(e.status)], row, column,
                    entries + [e], products, tests, labelled)
  {
    forall p, t
      ensures LastStatus(entries + [e], p, t)
              == if e.product == p && e.test == t then Some(e.status) else LastStatus(entries, p, t)
    {
      LastStatusMore(entries, e, p, t);
    }
  }

  ghost predicate Shows(before: Cells, after: Cells, row: int, column: int, entries: seq<Entry>, labelled: bool) {
    Painted(before, after, row, column, entries, Firsts(Products(entries)), Firsts(Tests(entries)), labelled)
  }

  /** The dictionary gives each name its place after `base`. */
  ghost predicate Numbers(dict: map<string, int>, names: seq<string>, base: int) {
    && (forall n :: n in dict <==> n in names)
    && forall j :: 0 <= j < |names| ==> dict[names[j]] == base + 1 + j
  }

  class Worksheet {
    var cells: Cells

    constructor ()
      ensures cells == map[]
    {
      cells := map[];
    }

    method Write(row: int, column: int, text: string)
      modifies this
      ensures cells == old(cells)[(row, column) := text]
    {
      cells := cells[(row, column) := text];
    }

    method AddProductTable(startingRow: int, startingColumn: int, value: seq<Entry>, labelled: bool)
      returns (row: int, column: int)
      modifies this
      ensures Shows(old(cells), cells, startingRow, startingColumn, value, labelled)
      ensures row == startingRow + |Firsts(Tests(value))| && column == startingColumn + |Firsts(Products(value))|
    {
      ghost var before := cells;
      row, column := startingRow, startingColumn;
      if labelled {
        Write(startingRow, startingColumn, "Test");
      }
      var columnDict: map<string, int> := map[];
      var rowDict: map<string, int> := map[];
      for k := 0 to |value|
        invariant Shows(before, cells, startingRow, startingColumn, value[..k], labelled)
        invariant Numbers(columnDict, Firsts(Products(value[..k])), startingColumn)
        invariant Numbers(rowDict, Firsts(Tests(value[..k])), startingRow)
        invariant row == startingRow + |Firsts(Tests(value[..k]))|
        invariant column == startingColumn + |Firsts(Products(value[..k]))|
      {
        ListMore(value[..k], value[k]);
        assert value[..k] + [value[k]] == value[..k + 1];
        row, column, columnDict, rowDict :=
          AddElement(before, startingRow, startingColumn, value[..k], Firsts(Products(value[..k])),
                     Firsts(Tests(value[..k])),
                     value[k], labelled, row, column, columnDict, rowDict);
      }
      assert value[..|value|] == value;
    }

    /** The two tables of a product, from its pages in the two books. */
    method AddProductTables(asPublisher: seq<Entry>, asSubscriber: Option<seq<Entry>>)
      requires cells == map[]
      modifies this
      ensures forall r, c :: Get(cells, r, c) == SheetCell(asPublisher, OrNone(asSubscriber), r, c)
    {
      var startingRow := 2;
      var row, column := AddProductTable(startingRow, 1, asPublisher, true);
      ghost var left := cells;
      if asSubscriber.Some? {
        row, column := AddProductTable(startingRow, column + 1, asSubscriber.value, false);
      }
    }

    /** `add_static_data_test`: the titles, placed by the numbers of products. */
    method AddStaticData(product: string, pubProductCount: nat, subProductCount: nat)
      requires pubProductCount > 0 ==> subProductCount > 0
      modifies this
      ensures forall r, c :: Get(cells, r, c) ==
                             OrElse(TitleCell(product, pubProductCount, subProductCount, r, c), Get(old(cells), r, c))
    {
      var lastColumnPublisher := 1 + subProductCount;
      if subProductCount > 0 {
        Write(0, 2, "Publisher: " + product);
        Write(1, 2, "Subscriber (next row): ");
      }
      if pubProductCount > 0 {
        Write(0, lastColumnPublisher + 2, "Subscriber: " + product);
        Write(1, lastColumnPublisher + 2, "Publisher (next row): ");
      }
    }

    /** The sheet of one product. */
    method AddProductSheet(product: string, asPublisher: seq<Entry>, asSubscriber: Option<seq<Entry>>,
                           pubProductCount: nat, subProductCount: nat)
      requires cells == map[] && (pubProductCount > 0 ==> subProductCount > 0)
      modifies this
      ensures forall r, c :: Get(cells, r, c) ==
                             if r < 2 then TitleCell(product, pubProductCount, subProductCount, r, c)
                             else SheetCell(asPublisher, OrNone(asSubscriber), r, c)
      ensures ReadsAs(cells, 2, 1, asPublisher, true)
      ensures ReadsAs(cells, 2, 2 + |Firsts(Products(asPublisher))|, OrNone(asSubscriber), false)
      ensures subProductCount > 0 ==> Get(cells, 0, 2) == Some("Publisher: " + product)
                                      && Get(cells, 1, 2) == Some("Subscriber (next row): ")
      ensures pubProductCount > 0 ==> Get(cells, 0, 3 + subProductCount) == Some("Subscriber: " + product)
                                      && Get(cells, 1, 3 + subProductCount) == Some("Publisher (next row): ")
    {
      AddProductTables(asPublisher, asSubscriber);
      AddStaticData(product, pubProductCount, subProductCount);
      forall r, c
        ensures Get(cells, r, c) == if r < 2 then TitleCell(product, pubProductCount, subProductCount, r, c)
                                    else SheetCell(asPublisher, OrNone(asSubscriber), r, c)
      {
        TitlesAreClear(asPublisher, OrNone(asSubscriber), product, pubProductCount, subProductCount, r, c);
      }
      BothTablesRead(cells, asPublisher, OrNone(asSubscriber));
    }

    /** The column of `product`, with its heading if it is new. */
    method ColumnFor(
      ghost before: Cells, startingRow: int, startingColumn: int,
      ghost done: seq<Entry>, ghost products: seq<string>, ghost tests: seq<string>, ghost labelled: bool,
      product: string, column0: int, dict0: map<string, int>)
      returns (column: int, dict: map<string, int>)
      requires Painted(before, cells, startingRow, startingColumn, done, products, tests, labelled)
      requires product in products || product !in Products(done)
      requires Numbers(dict0, products, startingColumn) && column0 == startingColumn + |products|
      modifies this
      ensures Painted(before, cells, startingRow, startingColumn, done, Extend(products, product), tests, labelled)
      ensures Numbers(dict, Extend(products, product), startingColumn)
      ensures column == startingColumn + |Extend(products, product)|
    {
      column, dict := column0, dict0;
      if product !in dict {
        column := column + 1;
        dict := dict[product := column];
        PaintColumn(before, cells, startingRow, startingColumn, done, products, tests, labelled, product);
        Write(startingRow, column, product);
      }
    }

    /** The row of `test`, with its label if it is new and labels are wanted. */
    method RowFor(
      ghost before: Cells, startingRow: int, startingColumn: int,
      ghost done: seq<Entry>, ghost products: seq<string>, ghost tests: seq<string>, labelled: bool,
      test: string, row0: int, dict0: map<string, int>)
      returns (row: int, dict: map<string, int>)
      requires Painted(before, cells, startingRow, startingColumn, done, products, tests, labelled)
      requires test in tests || test !in Tests(done)
      requires Numbers(dict0, tests, startingRow) && row0 == startingRow + |tests|
      modifies this
      ensures Painted(before, cells, startingRow, startingColumn, done, products, Extend(tests, test), labelled)
      ensures Numbers(dict, Extend(tests, test), startingRow) && row == startingRow + |Extend(tests, test)|
    {
      row, dict := row0, dict0;
      if test !in dict {
        row := row + 1;
        dict := dict[test := row];
        PaintRow(before, cells, startingRow, startingColumn, done, products, tests, labelled, test);
        if labelled {
          Write(row, startingColumn, test);
        }
      }
    }

    method PutStatus(
      ghost before: Cells, startingRow: int, startingColumn: int,
      ghost done: seq<Entry>, ghost products: seq<string>, ghost tests: seq<string>, ghost labelled: bool,
      element: Entry, columnDict: map<string, int>, rowDict: map<string, int>)
      requires Painted(before, cells, startingRow, startingColumn, done, products, tests, labelled)
      requires Distinct(products) && element.product in products && Numbers(columnDict, products, startingColumn)
      requires Distinct(tests) && element.test in tests && Numbers(rowDict, tests, startingRow)
      modifies this
      ensures Painted(before, cells, startingRow, startingColumn, done + [element], products, tests, labelled)
    {
      PaintStatus(before, cells, startingRow, startingColumn, done, products, tests, labelled, element,
                  IndexOf(tests, element.test), IndexOf(products, element.product));
      Write(rowDict[element.test], columnDict[element.product], Text(element.status));
    }

    /** One turn of the loop: `done` has been written, `element` comes next. */
    method AddElement(
      ghost before: Cells, startingRow: int, startingColumn: int,
      ghost done: seq<Entry>, ghost products: seq<string>, ghost tests: seq<string>, element: Entry, labelled: bool,
      row0: int, column0: int, columnDict0: map<string, int>, rowDict0: map<string, int>)
      returns (row: int, column: int, columnDict: map<string, int>, rowDict: map<string, int>)
      requires Painted(before, cells, startingRow, startingColumn, done, products, tests, labelled)
      requires Distinct(products) && (element.product in products || element.product !in Products(done))
      requires Distinct(tests) && (element.test in tests || element.test !in Tests(done))
      requires Numbers(columnDict0, products, startingColumn) && Numbers(rowDict0, tests, startingRow)
      requires row0 == startingRow + |tests| && column0 == startingColumn + |products|
      modifies this
      ensures Painted(before, cells, startingRow, startingColumn, done + [element],
                      Extend(products, element.product), Extend(tests, element.test), labelled)
      ensures Numbers(columnDict, Extend(products, element.product), startingColumn)
      ensures Numbers(rowDict, Extend(tests, element.test), startingRow)
      ensures row == startingRow + |Extend(tests, element.test)|
      ensures column == startingColumn + |Extend(products, element.product)|
    {
      column, columnDict := ColumnFor(before, startingRow, startingColumn, done, products, tests, labelled,
                                      element.product, column0, columnDict0);
      row, rowDict := RowFor(before, startingRow, startingColumn, done, Extend(products, element.product), tests,
                             labelled, element.test, row0, rowDict0);
      PutStatus(before, startingRow, startingColumn, done,
                Extend(products, element.product), Extend(tests, element.test),
                labelled, element, columnDict, rowDict);
    }
  }

  function Extend(names: seq<string>, n: string): seq<string> {
    if n in names then names else names + [n]
  }

  lemma ListMore(done: seq<Entry>, e: Entry)
    ensures Firsts(Products(done + [e])) == Extend(Firsts(Products(done)), e.product)
    ensures Firsts(Tests(done + [e])) == Extend(Firsts(Tests(done)), e.test)
    ensures Distinct(Firsts(Products(done))) && Distinct(Firsts(Tests(done)))
    ensures e.product in Firsts(Products(done)) <==> e.product in Products(done)
    ensures e.test in Firsts(Tests(done)) <==> e.test in Tests(done)
  {
    assert Products(done + [e]) == Products(done) + [e.product];
    assert Tests(done + [e]) == Tests(done) + [e.test];
    AddNewOne([], Products(done), e.product);
    AddNewOne([], Tests(done), e.test);
    AddNewKeeps([], Products(done));
    AddNewKeeps([], Tests(done));
  }

  // ----- one table -----

  function RowOf(entries: seq<Entry>, test: string): nat
    requires test in Firsts(Tests(entries))
  {
    1 + IndexOf(Firsts(Tests(entries)), test)
  }

  function ColumnOf(entries: seq<Entry>, product: string): nat
    requires product in Firsts(Products(entries))
  {
    1 + IndexOf(Firsts(Products(entries)), product)
  }

  /** A table on its own, `dr` and `dc` counted from its corner. */
  function Table(before: Option<string>, entries: seq<Entry>, labelled: bool, dr: int, dc: int): Option<string> {
    TableCell(before, dr, dc, entries, Firsts(Products(entries)), Firsts(Tests(entries)), labelled)
  }

  lemma EntriesAreListed(entries: seq<Entry>, k: nat)
    requires k < |entries|
    ensures entries[k].product in Firsts(Products(entries)) && entries[k].test in Firsts(Tests(entries))
  {
    AddNewKeeps([], Products(entries));
    AddNewKeeps([], Tests(entries));
    assert Products(entries)[k] == entries[k].product && Tests(entries)[k] == entries[k].test;
  }

  /** No later entry is about the same product and test. */
  ghost predicate IsLast(entries: seq<Entry>, k: nat)
    requires k < |entries|
  {
    forall l :: k < l < |entries| ==> entries[l].product != entries[k].product || entries[l].test != entries[k].test
  }

  lemma {:induction false} LastStatusOf(entries: seq<Entry>, k: nat)
    requires k < |entries|
    requires IsLast(entries, k)
    ensures LastStatus(entries, entries[k].product, entries[k].test) == Some(entries[k].status)
  {
    if k < |entries| - 1 {
      LastStatusOf(entries[..|entries| - 1], k);
    }
  }

  /**
    The last result for a product and a test can be read off under the product's heading and beside the test's
    label.
   */
  lemma LastResultIsShown(before: Option<string>, entries: seq<Entry>, k: nat)
    requires k < |entries|
    requires IsLast(entries, k)
    ensures entries[k].product in Firsts(Products(entries)) && entries[k].test in Firsts(Tests(entries))
    ensures Table(before, entries, true, RowOf(entries, entries[k].test), ColumnOf(entries, entries[k].product))
            == Some(Text(entries[k].status))
    ensures Table(before, entries, true, RowOf(entries, entries[k].test), 0) == Some(entries[k].test)
    ensures Table(before, entries, true, 0, ColumnOf(entries, entries[k].product)) == Some(entries[k].product)
  {
    EntriesAreListed(entries, k);
    LastStatusOf(entries, k);
  }

  /** Different pairs have different cells, and no cell of a pair is a heading or a label. */
  lemma PairsHaveTheirOwnCells(entries: seq<Entry>, k: nat, l: nat)
    requires k < |entries| && l < |entries|
    ensures entries[k].product in Firsts(Products(entries)) && entries[k].test in Firsts(Tests(entries))
    ensures entries[l].product in Firsts(Products(entries)) && entries[l].test in Firsts(Tests(entries))
    ensures RowOf(entries, entries[k].test) == RowOf(entries, entries[l].test) <==> entries[k].test == entries[l].test
    ensures ColumnOf(entries, entries[k].product) == ColumnOf(entries, entries[l].product) <==>
            entries[k].product == entries[l].product
    ensures RowOf(entries, entries[k].test) > 0 && ColumnOf(entries, entries[k].product) > 0
  {
    EntriesAreListed(entries, k);
    EntriesAreListed(entries, l);
  }

  // ----- two tables on a sheet -----

  /** A cell of the sheet with `pub` as the labelled table and `sub` as the unlabelled one. */
  function SheetCell(pub: seq<Entry>, sub: seq<Entry>, r: int, c: int): Option<string> {
    Table(Table(None, pub, true, r - 2, c - 1), sub, false, r - 2, c - 2 - |Firsts(Products(pub))|)
  }

  function SecondTitleColumn(subProductCount: nat): nat {
    3 + subProductCount
  }

  /** A title, in the upper left cell of the range it is merged over. */
  function TitleCell(product: string, pubProductCount: nat, subProductCount: nat, r: int, c: int): Option<string> {
    if subProductCount > 0 && c == 2 && r == 0 then Some("Publisher: " + product)
    else if subProductCount > 0 && c == 2 && r == 1 then Some("Subscriber (next row): ")
    else if pubProductCount > 0 && c == SecondTitleColumn(subProductCount) && r == 0 then Some("Subscriber: " + product)
    else if pubProductCount > 0 && c == SecondTitleColumn(subProductCount) && r == 1 then Some("Publisher (next row): ")
    else None
  }

  /** Titles and tables do not overlap. */
  lemma TitlesAreClear(pub: seq<Entry>, sub: seq<Entry>, product: string, pubProductCount: nat, subProductCount: nat,
                       r: int, c: int)
    ensures r < 2 ==> SheetCell(pub, sub, r, c) == None
    ensures r >= 2 ==> TitleCell(product, pubProductCount, subProductCount, r, c) == None
  {}

  /** The first column of the second table, in which its first heading stands. */
  function SecondTableColumn(pub: seq<Entry>): nat {
    3 + |Firsts(Products(pub))|
  }

  /** The first heading of the second table stands in its first column, and right of that in no other. */
  lemma SecondTableStartsThere(pub: seq<Entry>, sub: seq<Entry>, c: nat)
    requires SecondTableColumn(pub) <= c
    ensures SecondTableStartsIn(pub, sub, c) <==> sub != [] && c == SecondTableColumn(pub)
  {
    if sub != [] {
      EntriesAreListed(sub, 0);
      AddNewKeeps([], Products(sub));
      TablesAreApart(pub, sub, 2, c);
    }
  }

  /** The second table has its first heading in this column. */
  ghost predicate SecondTableStartsIn(pub: seq<Entry>, sub: seq<Entry>, c: nat) {
    Firsts(Products(sub)) != [] && SheetCell(pub, sub, 2, c) == Some(Firsts(Products(sub))[0])
  }

  lemma {:induction false} PartnersPlay(suites: seq<Suite>, p: string, k: nat)
    requires k < |AsPublisher(suites, p)|
    ensures AsSubscriber(suites, AsPublisher(suites, p)[k].product) != []
  {
    var most, s := suites[..|suites| - 1], suites[|suites| - 1];
    var n := |AsPublisher(most, p)|;
    if k < n {
      PartnersPlay(most, p, k);
    } else {
      assert AsPublisher(suites, p)[k] == Entries(s.subscriber, s.cases)[k - n];
      assert |Entries(s.publisher, s.cases)| > 0;
    }
  }

  /**
    On the sheet of a publishing product the title of the second table stands over its first
    heading exactly when the product subscribes too and was run as publisher against every product
    that subscribes.
   */
  lemma TitleStandsOverTheTableExactlyWhen(suites: seq<Suite>, p: string)
    requires p in Run(EMPTY, suites).publisher
    ensures var info := Run(EMPTY, suites);
            var column := SecondTitleColumn(|info.subscriber|);
            && TitleCell(p, |info.publisher|, |info.subscriber|, 0, column) == Some("Subscriber: " + p)
            && (SecondTableStartsIn(Page(info.publisher, p), Page(info.subscriber, p), column) <==>
                p in info.subscriber && forall s :: s in info.subscriber ==> s in Products(Page(info.publisher, p)))
  {
    var info := Run(EMPTY, suites);
    var pub, subs := AsPublisher(suites, p), info.subscriber.Keys;
    BooksAreComplete(suites, p);
    forall k | 0 <= k < |pub| ensures pub[k].product in subs {
      PartnersPlay(suites, p, k);
      BooksAreComplete(suites, pub[k].product);
    }
    PartnersAmong(pub, subs);
    assert |info.subscriber| == |subs|;
    SecondTableStartsThere(pub, AsSubscriber(suites, p), SecondTitleColumn(|subs|));
  }

  /** Two suites for which the title of a product's second table, in column 5, is right of the table, in column 4. */
  lemma TitleCanBeMisplaced(product: string, other: string, test: string)
    requires product != other
    ensures var info := Run(EMPTY, [Suite(other, product, [Passing(test)], 1, 0, 0, 0),
                                    Suite(product, other, [Passing(test)], 1, 0, 0, 0)]);
            var pub, sub := Page(info.publisher, product), Page(info.subscriber, product);
            && TitleCell(product, |info.publisher|, |info.subscriber|, 0, 5) == Some("Subscriber: " + product)
            && SheetCell(pub, sub, 2, 4) == Some(other) && SheetCell(pub, sub, 2, 5) == None
  {
    var first := Suite(other, product, [Passing(test)], 1, 0, 0, 0);
    var second := Suite(product, other, [Passing(test)], 1, 0, 0, 0);
    var suites := [first, second];
    assert suites[..1] == [first] && [first][..0] == [];
    var one := Step(EMPTY, first);
    assert Run(EMPTY, [first]) == one && Run(EMPTY, suites) == Step(one, second);
    OneCase(EMPTY.publisher, other, product, test);
    OneCase(EMPTY.subscriber, product, other, test);
    OneCase(one.publisher, product, other, test);
    OneCase(one.subscriber, other, product, test);
    var info := Step(one, second);
    assert info.publisher.Keys == {product, other} && info.subscriber.Keys == {product, other};
    assert |info.publisher| == |info.publisher.Keys| && |info.subscriber| == |info.subscriber.Keys|;
    assert |{product, other}| == 2;
    OneHeading(other, test);
  }

  lemma OneCase(book: Book, k: string, other: string, test: string)
    requires k !in book
    ensures FileCases(book, k, other, [Passing(test)]) == book[k := [Entry(other, test, Passed)]]
  {
    assert [Passing(test)][..0] == [];
  }

  lemma OneHeading(product: string, test: string)
    ensures Firsts(Products([Entry(product, test, Passed)])) == [product]
  {
    assert Products([Entry(product, test, Passed)]) == [] + [product];
    AddNewOne([], [], product);
  }

  lemma PartnersAmong(pub: seq<Entry>, subs: set<string>)
    requires forall k :: 0 <= k < |pub| ==> pub[k].product in subs
    ensures |Firsts(Products(pub))| <= |subs|
    ensures |Firsts(Products(pub))| == |subs| <==> forall s :: s in subs ==> s in Products(pub)
  {
    var names := set n | n in Firsts(Products(pub));
    AddNewKeeps([], Products(pub));
    DistinctSize(Firsts(Products(pub)), names);
    forall n | n in names ensures n in subs {
      var k :| 0 <= k < |pub| && Products(pub)[k] == n;
      assert pub[k].product == n;
    }
    SubsetSize(names, subs);
  }

  lemma SubsetSize(a: set<string>, b: set<string>)
    requires a <= b
    ensures |a| <= |b| && (|a| == |b| <==> a == b)
  {
    assert b == a + (b - a);
  }

  lemma {:induction false} DistinctSize(s: seq<string>, names: set<string>)
    requires Distinct(s) && forall n :: n in names <==> n in s
    ensures |s| == |names|
  {
    if s == [] {
      assert names == {};
    } else {
      var last := s[|s| - 1];
      InitAndLast(s);
      DistinctSize(s[..|s| - 1], names - {last});
      assert names == names - {last} + {last};
    }
  }

  /** The two tables share no cell: one keeps to its columns, one column stays free, and the other follows. */
  lemma TablesAreApart(pub: seq<Entry>, sub: seq<Entry>, r: int, c: int)
    ensures c <= 1 + |Firsts(Products(pub))| ==> SheetCell(pub, sub, r, c) == Table(None, pub, true, r - 2, c - 1)
    ensures c == 2 + |Firsts(Products(pub))| ==> SheetCell(pub, sub, r, c) == None
    ensures c > 2 + |Firsts(Products(pub))| ==>
              SheetCell(pub, sub, r, c) == Table(None, sub, false, r - 2, c - 2 - |Firsts(Products(pub))|)
  {}

  // ----- what can be read off a sheet -----

  /** What the text in a cell says of a result. */
  predicate Means(text: Option<string>, s: Status) {
    match s
    case Passed => text == Some("OK")
    case Failed => text == Some("ERROR")
    case PubUnsupported => text == Some("PUB UNSUPPORTED")
    case SubUnsupported => text == Some("SUB UNSUPPORTED")
    case PubSubUnsupported => text == Some("PUB/SUB UNSUPPORTED")
  }

  /** No text says two things. */
  lemma TextsTellApart(text: Option<string>, s: Status, t: Status)
    requires Means(text, s) && Means(text, t)
    ensures s == t
  {
    var pub, sub := "PUB UNSUPPORTED", "SUB UNSUPPORTED";
    assert text.Some? ==> |text.value| in {2, 5, 15, 19};
    assert pub[0] != sub[0];
  }

  /**
    A table from this cell on: the products right of it and, if labelled, the tests below it, both
    in order of first appearance, and where they cross the last result of the two, if there is one.
   */
  ghost predicate ReadsAs(cells: Cells, row: int, column: int, entries: seq<Entry>, labelled: bool) {
    var products, tests := Firsts(Products(entries)), Firsts(Tests(entries));
    && (labelled ==> Get(cells, row, column) == Some("Test"))
    && (forall j :: 0 <= j < |products| ==> Get(cells, row, column + 1 + j) == Some(products[j]))
    && (labelled ==> forall i :: 0 <= i < |tests| ==> Get(cells, row + 1 + i, column) == Some(tests[i]))
    && (forall i, j :: 0 <= i < |tests| && 0 <= j < |products| ==>
                         Crosses(Get(cells, row + 1 + i, column + 1 + j), entries, products[j], tests[i]))
  }

  predicate Crosses(text: Option<string>, entries: seq<Entry>, product: string, test: string) {
    match LastStatus(entries, product, test)
    case Some(s) => Means(text, s)
    case None => text == None
  }

  ghost predicate IsTable(cells: Cells, row: int, column: int, entries: seq<Entry>, labelled: bool) {
    && (labelled ==> forall r :: r >= row ==> Get(cells, r, column) == Table(None, entries, labelled, r - row, 0))
    && forall r, c :: r >= row && column < c <= column + |Firsts(Products(entries))| ==>
                        Get(cells, r, c) == Table(None, entries, labelled, r - row, c - column)
  }

  lemma TableReads(cells: Cells, row: int, column: int, entries: seq<Entry>, labelled: bool)
    requires IsTable(cells, row, column, entries, labelled)
    ensures ReadsAs(cells, row, column, entries, labelled)
  {
    var products, tests := Firsts(Products(entries)), Firsts(Tests(entries));
    forall i, j | 0 <= i < |tests| && 0 <= j < |products|
      ensures Crosses(Get(cells, row + 1 + i, column + 1 + j), entries, products[j], tests[i])
    {
      assert Get(cells, row + 1 + i, column + 1 + j) == Table(None, entries, labelled, i + 1, j + 1);
    }
  }

  /** The labelled table stands in the third row and the second column, the other after a free column. */
  lemma BothTablesRead(cells: Cells, pub: seq<Entry>, sub: seq<Entry>)
    requires forall r, c :: r >= 2 ==> Get(cells, r, c) == SheetCell(pub, sub, r, c)
    ensures ReadsAs(cells, 2, 1, pub, true) && ReadsAs(cells, 2, 2 + |Firsts(Products(pub))|, sub, false)
  {
    forall r, c
      ensures c <= 1 + |Firsts(Products(pub))| ==> SheetCell(pub, sub, r, c) == Table(None, pub, true, r - 2, c - 1)
      ensures c > 2 + |Firsts(Products(pub))| ==>
                SheetCell(pub, sub, r, c) == Table(None, sub, false, r - 2, c - 2 - |Firsts(Products(pub))|)
    {
      TablesAreApart(pub, sub, r, c);
    }
    TableReads(cells, 2, 1, pub, true);
    TableReads(cells, 2, 2 + |Firsts(Products(pub))|, sub, false);
  }

  /** Each row of the unlabelled table stands on the row whose label names its test. */
  ghost predicate LinesUp(pub: seq<Entry>, sub: seq<Entry>) {
    forall i :: 0 <= i < |Firsts(Tests(sub))| ==> SheetCell(pub, sub, 3 + i, 1) == Some(Firsts(Tests(sub))[i])
  }

  /** The rows line up exactly when the tests of one table, in order of appearance, begin the tests of the other. */
  lemma RowsLineUpExactlyWhen(pub: seq<Entry>, sub: seq<Entry>)
    ensures LinesUp(pub, sub) <==> Firsts(Tests(sub)) <= Firsts(Tests(pub))
  {
    var p, s := Firsts(Tests(pub)), Firsts(Tests(sub));
    forall i | 0 <= i < |s| ensures SheetCell(pub, sub, 3 + i, 1) == Some(s[i]) <==> i < |p| && p[i] == s[i] {
      TablesAreApart(pub, sub, 3 + i, 1);
    }
    if LinesUp(pub, sub) {
      forall i | 0 <= i < |s| ensures i < |p| && p[i] == s[i] {
        assert SheetCell(pub, sub, 3 + i, 1) == Some(s[i]);
      }
      if |s| > 0 {
        var last := |s| - 1;
        assert SheetCell(pub, sub, 3 + last, 1) == Some(s[last]);
        assert last < |p|;
      }
    }
  }

  // ----- when every suite lists the same tests -----

  function TestsOf(cases: seq<Case>): seq<string> {
    seq(|cases|, i requires 0 <= i < |cases| => cases[i].test)
  }

  ghost predicate InOneOrder(suites: seq<Suite>, tests: seq<string>) {
    forall i :: 0 <= i < |suites| ==> TestsOf(suites[i].cases) == tests
  }

  lemma OneMoreList(page: seq<Entry>, other: string, cases: seq<Case>)
    requires page == [] || Firsts(Tests(page)) == Firsts(TestsOf(cases))
    ensures Firsts(Tests(page + Entries(other, cases))) == Firsts(TestsOf(cases))
  {
    var tests := TestsOf(cases);
    assert Tests(page + Entries(other, cases)) == Tests(page) + tests;
    if page == [] {
      assert Tests(page) + tests == tests;
    } else {
      AddNewKeeps([], tests);
      AddNewKeeps([], Tests(page));
      AddNewAppend([], Tests(page), tests);
      NothingNew(Firsts(Tests(page)), tests);
    }
  }

  ghost predicate Lists(page: seq<Entry>, tests: seq<string>) {
    page == [] || Firsts(Tests(page)) == Firsts(tests)
  }

  lemma OneMoreSuite(page: seq<Entry>, takesPart: bool, other: string, cases: seq<Case>, tests: seq<string>)
    requires Lists(page, tests) && TestsOf(cases) == tests
    ensures Lists(page + if takesPart then Entries(other, cases) else [], tests)
  {
    if takesPart {
      OneMoreList(page, other, cases);
    } else {
      assert page + [] == page;
    }
  }

  lemma {:induction false} PagesListTheTests(suites: seq<Suite>, tests: seq<string>, p: string)
    requires InOneOrder(suites, tests)
    ensures Lists(AsPublisher(suites, p), tests) && Lists(AsSubscriber(suites, p), tests)
  {
    if suites != [] {
      var most, s := suites[..|suites| - 1], suites[|suites| - 1];
      assert forall i :: 0 <= i < |most| ==> most[i] == suites[i];
      PagesListTheTests(most, tests, p);
      OneMoreSuite(AsPublisher(most, p), s.publisher == p, s.subscriber, s.cases, tests);
      OneMoreSuite(AsSubscriber(most, p), s.subscriber == p, s.publisher, s.cases, tests);
    }
  }

  /**
    If every suite lists the same tests in the same order, the sheet of a product that both publishes and
    subscribes lines up.
   */
  lemma SuitesInOneOrderLineUp(suites: seq<Suite>, tests: seq<string>, p: string)
    requires InOneOrder(suites, tests)
    requires p in Run(EMPTY, suites).publisher
    ensures LinesUp(Page(Run(EMPTY, suites).publisher, p), Page(Run(EMPTY, suites).subscriber, p))
  {
    BooksAreComplete(suites, p);
    PagesListTheTests(suites, tests, p);
    RowsLineUpExactlyWhen(AsPublisher(suites, p), AsSubscriber(suites, p));
    if AsSubscriber(suites, p) == [] {
      assert Tests(AsSubscriber(suites, p)) == [];
    }
  }

  /** Otherwise a status can stand beside the label of another test: here that of the second beside the first. */
  lemma RowsCanBeMislabelled(product: string, other: string, first: string, second: string)
    requires product != other && first != second
    ensures var suites := [Suite(other, product, [Passing(second)], 1, 0, 0, 0),
                           Suite(product, product, [Passing(first)], 1, 0, 0, 0)];
            !LinesUp(Page(Run(EMPTY, suites).publisher, product), Page(Run(EMPTY, suites).subscriber, product))
  {
    var s := Suite(other, product, [Passing(second)], 1, 0, 0, 0);
    var t := Suite(product, product, [Passing(first)], 1, 0, 0, 0);
    var suites := [s, t];
    assert suites[..|suites| - 1] == [s];
    assert [s][..|[s]| - 1] == [];
    assert AsPublisher([s], product) == [];
    assert AsSubscriber([s], product) == Entries(other, s.cases);
    var pub, sub := AsPublisher(suites, product), AsSubscriber(suites, product);
    assert pub == Entries(product, t.cases) == [Entry(product, first, Passed)];
    assert sub == Entries(other, s.cases) + Entries(product, t.cases)
               == [Entry(other, second, Passed), Entry(product, first, Passed)];
    assert Tests(pub) == [] + [first] && Tests(sub) == [] + [second] + [first];
    AddNewOne([], [], first);
    AddNewOne([], [], second);
    AddNewOne([], [] + [second], first);
    BooksAreComplete(suites, product);
    RowsLineUpExactlyWhen(pub, sub);
    assert Firsts(Tests(pub))[0] == first && Firsts(Tests(sub))[0] == second;
  }
}
