/**
  The result table: printed by `run_test` (interoperability_report.py), read back by
  `parse_outcome_rows` (benchmarking/junit_compare/loader.py).
 */
module Table {
  import opened Sequences

  datatype Row = Row(role: string, expected: string, produced: string)

  // ----- the printer -----

  const ESC: char := '\U{1B}'

  /** Length of the escape sequence at the front of `s` that `remove_ansi_colors` deletes, 0 for none. */
  function AnsiLength(s: string): (n: nat)
    ensures n <= |s|
    ensures s != [] && s[0] != ESC ==> n == 0
  {
    if |s| < 2 || s[0] != ESC then 0
    else if s[1] == '[' then
      var a := 2 + RunLength(s[2..], 0x30, 0x3F);
      var b := a + RunLength(s[a..], 0x20, 0x2F);
      if b < |s| && 0x40 <= s[b] as int <= 0x7E then b + 1 else 0
    else if 0x40 <= s[1] as int <= 0x5F then 2
    else 0
  }

  /** How many characters at the front of `s` have a code in `lo..hi`. */
  function RunLength(s: string, lo: int, hi: int): (n: nat)
    ensures n <= |s|
  {
    if s != [] && lo <= s[0] as int <= hi then 1 + RunLength(s[1..], lo, hi) else 0
  }

  function StripAnsi(s: string): string
    decreases |s|
  {
    if s == [] then []
    else if AnsiLength(s) > 0 then StripAnsi(s[AnsiLength(s)..])
    else [s[0]] + StripAnsi(s[1..])
  }

  function Cell(t: string): string {
    "<th>" + t + "</th>"
  }

  function Pad(t: string): string {
    " " + t + " "
  }

  /** The heading row, and a row of the table, in front of `rest`. */
  function HeadingThen(rest: string): string {
    "<table> " + ("<tr> " + ("<th/> " +
      (Cell(Pad("Expected Code")) + (" " + (Cell(Pad("Code Produced")) + (" " + ("</tr> " + rest)))))))
  }

  function RowThen(r: Row, rest: string): string {
    "<tr> " + (Cell(Pad(r.role)) + (" " +
      (Cell(Pad(r.expected)) + (" " + (Cell(Pad(r.produced)) + (" " + ("</tr>" + rest)))))))
  }

  const HEADER := HeadingThen("")

  function PrintRow(r: Row): string {
    RowThen(r, "")
  }

  function PrintRows(rows: seq<Row>): string {
    if rows == [] then "" else PrintRows(rows[..|rows| - 1]) + PrintRow(rows[|rows| - 1])
  }

  /** `output.replace('\n', '<br>').replace(chr(3), '<br>')` */
  function Edited(output: string): string {
    if output == [] then ""
    else (if output[0] == '\n' || output[0] == '\U{3}' then "<br>" else [output[0]]) + Edited(output[1..])
  }

  function PrintInfo(role: string, output: string): string {
    "<strong> Information " + role + " </strong><br> " + Edited(output) + " <br>"
  }

  function PrintInfos(rows: seq<Row>, outputs: seq<string>): string
    requires |rows| == |outputs|
  {
    if rows == [] then ""
    else
      var n := |rows| - 1;
      PrintInfos(rows[..n], outputs[..n]) + PrintInfo(rows[n].role, outputs[n])
  }

  /** What follows the last row of the table in the message. */
  function Tail(rows: seq<Row>, outputs: seq<string>): string
    requires |rows| == |outputs|
  {
    "</table>" + PrintInfos(rows, outputs)
  }

  function Message(rows: seq<Row>, outputs: seq<string>): string
    requires |rows| == |outputs|
  {
    StripAnsi(HEADER + PrintRows(rows) + Tail(rows, outputs))
  }

  /** The message `run_test` builds step by step. */
  method BuildMessage(rows: seq<Row>, outputs: seq<string>) returns (message: string)
    requires |rows| == |outputs|
    ensures message == Message(rows, outputs)
  {
    message := AppendRows(HEADER, rows);
    message := AppendInfos(message + "</table>", rows, outputs);
    Assoc(HEADER + PrintRows(rows), "</table>", PrintInfos(rows, outputs));
    message := StripAnsi(message);
  }

  method AppendRows(header: string, rows: seq<Row>) returns (message: string)
    ensures message == header + PrintRows(rows)
  {
    message := header;
    for i := 0 to |rows|
      invariant message == header + PrintRows(rows[..i])
    {
      assert rows[..i + 1][..i] == rows[..i];
      Assoc(header, PrintRows(rows[..i]), PrintRow(rows[i]));
      message := message + PrintRow(rows[i]);
    }
    assert rows[..|rows|] == rows;
  }

  method AppendInfos(table: string, rows: seq<Row>, outputs: seq<string>) returns (message: string)
    requires |rows| == |outputs|
    ensures message == table + PrintInfos(rows, outputs)
  {
    message := table;
    for i := 0 to |rows|
      invariant message == table + PrintInfos(rows[..i], outputs[..i])
    {
      assert rows[..i + 1][..i] == rows[..i] && outputs[..i + 1][..i] == outputs[..i];
      Assoc(table, PrintInfos(rows[..i], outputs[..i]), PrintInfo(rows[i].role, outputs[i]));
      message := message + PrintInfo(rows[i].role, outputs[i]);
    }
    assert rows[..|rows|] == rows && outputs[..|rows|] == outputs;
  }

  // ----- the reader -----

  /** Python's `\s` and `str.strip`. */
  predicate IsSpace(c: char) {
    var n := c as int;
    || 0x09 <= n <= 0x0D || 0x1C <= n <= 0x20 || n == 0x85 || n == 0xA0 || n == 0x1680
    || 0x2000 <= n <= 0x200A || n == 0x2028 || n == 0x2029 || n == 0x202F || n == 0x205F || n == 0x3000
  }

  function StripLeft(s: string): string {
    if s != [] && IsSpace(s[0]) then StripLeft(s[1..]) else s
  }

  function StripRight(s: string): string {
    if s != [] && IsSpace(s[|s| - 1]) then StripRight(s[..|s| - 1]) else s
  }

  function Strip(s: string): string {
    StripRight(StripLeft(s))
  }

  /** Length of the text before the next '<'. */
  function TextLength(s: string): (n: nat)
    ensures n <= |s|
  {
    if s != [] && s[0] != '<' then 1 + TextLength(s[1..]) else 0
  }

  function SpaceLength(s: string): (n: nat)
    ensures n <= |s|
  {
    if s != [] && IsSpace(s[0]) then 1 + SpaceLength(s[1..]) else 0
  }

  datatype Match<T> = Match(value: T, rest: string) | NoMatch

  /** `<th>([^<]+)</th>` at the front of `s`; the text ends at the first '<', so the match is unique. */
  function CellAt(s: string): (m: Match<string>)
    ensures m.Match? ==> |m.rest| < |s|
  {
    if !("<th>" <= s) then NoMatch
    else
      var n := TextLength(s[4..]);
      var after := s[4 + n..];
      if n > 0 && "</th>" <= after then Match(s[4..4 + n], after[5..]) else NoMatch
  }

  /** The next cell behind blanks: `\s*` and a cell. */
  function NextCell(s: string): (m: Match<string>)
    ensures m.Match? ==> |m.rest| < |s|
  {
    CellAt(s[SpaceLength(s)..])
  }

  /** The whole row pattern at the front of `s`. */
  function RowAt(s: string): (m: Match<Row>)
    ensures m.Match? ==> |m.rest| < |s|
  {
    var a := CellAt(s);
    if a.NoMatch? then NoMatch
    else
      var b := NextCell(a.rest);
      if b.NoMatch? then NoMatch
      else
        var c := NextCell(b.rest);
        if c.NoMatch? then NoMatch
        else Match(Row(a.value, b.value, c.value), c.rest)
  }

  /** `findall`: leftmost matches that do not overlap. */
  function FindAll(s: string): seq<Row>
    decreases |s|
  {
    if s == [] then []
    else
      var m := RowAt(s);
      if m.Match? then [m.value] + FindAll(m.rest) else FindAll(s[1..])
  }

  /** What is kept of a match: nothing of a heading, otherwise the stripped texts. */
  function Kept(r: Row): seq<Row> {
    var role := Strip(r.role);
    if role == "" || role == "Expected Code" then [] else [Row(role, Strip(r.expected), Strip(r.produced))]
  }

  function Keep(found: seq<Row>): seq<Row> {
    if found == [] then [] else Keep(found[..|found| - 1]) + Kept(found[|found| - 1])
  }

  /** `parse_outcome_rows` */
  method ParseOutcomeRows(message: string) returns (rows: seq<Row>)
    ensures rows == Keep(FindAll(message))
  {
    rows := [];
    var found := FindAll(message);
    for i := 0 to |found|
      invariant rows == Keep(found[..i])
    {
      assert found[..i + 1][..i] == found[..i];
      var role := Strip(found[i].role);
      if role == "" || role == "Expected Code" {
        continue;
      }
      rows := rows + [Row(role, Strip(found[i].expected), Strip(found[i].produced))];
    }
    assert found[..|found|] == found;
  }

  // ----- reading back what was printed -----

  /** Text that survives printing and reading: visible at both ends, no '<', no escape character. */
  ghost predicate Token(t: string) {
    t != "" && '<' !in t && ESC !in t && !IsSpace(t[0]) && !IsSpace(t[|t| - 1])
  }

  ghost predicate Printable(r: Row) {
    Token(r.role) && Token(r.expected) && Token(r.produced) && r.role != "Expected Code"
  }

  lemma {:induction false} StripAnsiKeepsPlain(a: string, b: string)
    requires ESC !in a
    ensures StripAnsi(a + b) == a + StripAnsi(b)
  {
    if a == [] {
      assert a + b == b;
    } else {
      StripAnsiKeepsPlain(a[1..], b);
      assert (a + b)[1..] == a[1..] + b && (a + b)[0] == a[0];
      assert [a[0]] + (a[1..] + StripAnsi(b)) == a + StripAnsi(b);
    }
  }

  lemma NextWithoutCell(s: string)
    requires s != "" && !("<th>" <= s)
    ensures FindAll(s) == FindAll(s[1..])
  {}

  lemma DropFirst<T>(a: seq<T>, b: seq<T>)
    requires a != []
    ensures (a + b)[1..] == a[1..] + b && (a + b)[0] == a[0]
  {}

  lemma NotACellStart(s: string)
    requires s != "" && (s[0] != '<' || (|s| >= 4 && (s[1] != 't' || s[2] != 'h' || s[3] != '>')))
    ensures !("<th>" <= s)
  {
    var cell := "<th>";
    assert cell[0] == '<' && cell[1] == 't' && cell[2] == 'h' && cell[3] == '>';
  }

  /** Text without '<' cannot start a row. */
  lemma {:induction false} SkipText(a: string, b: string)
    requires '<' !in a
    ensures FindAll(a + b) == FindAll(b)
  {
    if a == [] {
      assert a + b == b;
    } else {
      SkipText(a[1..], b);
      DropFirst(a, b);
      NotACellStart(a + b);
      NextWithoutCell(a + b);
    }
  }

  /** A tag other than `<th>`, with the text after it, is skipped. */
  lemma SkipTag(a: string, b: string)
    requires |a| >= 4 && (a[1] != 't' || a[2] != 'h' || a[3] != '>') && '<' !in a[1..]
    ensures FindAll(a + b) == FindAll(b)
  {
    assert (a + b)[1] == a[1] && (a + b)[2] == a[2] && (a + b)[3] == a[3];
    DropFirst(a, b);
    NotACellStart(a + b);
    NextWithoutCell(a + b);
    SkipText(a[1..], b);
  }

  lemma {:induction false} TextLengthOf(t: string, b: string)
    requires '<' !in t && b != "" && b[0] == '<'
    ensures TextLength(t + b) == |t|
  {
    if t == [] {
      assert t + b == b;
    } else {
      TextLengthOf(t[1..], b);
      assert (t + b)[1..] == t[1..] + b;
    }
  }

  lemma CellReadsBack(t: string, b: string)
    requires t != "" && '<' !in t
    ensures CellAt(Cell(t) + b) == Match(t, b)
  {
    var s, close := Cell(t) + b, "</th>" + b;
    CellShape(t, b);
    TextLengthOf(t, close);
    assert s[4 + |t|..] == close && s[4..4 + |t|] == t;
    assert close[..5] == "</th>" && close[5..] == b;
  }

  lemma CellShape(t: string, b: string)
    ensures Cell(t) + b == "<th>" + (t + ("</th>" + b))
    ensures "<th>" <= Cell(t) + b && (Cell(t) + b)[4..] == t + ("</th>" + b)
  {}

  lemma OneSpace(b: string)
    requires b != "" && !IsSpace(b[0])
    ensures SpaceLength(" " + b) == 1 && (" " + b)[1..] == b
  {
    assert (" " + b)[1..] == b;
  }

  function Padded(r: Row): Row {
    Row(Pad(r.role), Pad(r.expected), Pad(r.produced))
  }

  lemma NotACell(b: string)
    requires |b| >= 2 && b[1] == '/'
    ensures CellAt(b).NoMatch?
  {
    var open := "<th>";
    assert open[1] == 't';
  }

  /** A printed row, without its `<tr>` tags, matches the row pattern. */
  lemma RowReadsBack(x: string, y: string, z: string, b: string)
    requires x != "" && y != "" && z != "" && '<' !in x && '<' !in y && '<' !in z
    ensures RowAt(Cell(x) + (" " + (Cell(y) + (" " + (Cell(z) + b))))) == Match(Row(x, y, z), b)
  {
    CellReadsBack(z, b);
    OneSpace(Cell(z) + b);
    CellReadsBack(y, " " + (Cell(z) + b));
    OneSpace(Cell(y) + (" " + (Cell(z) + b)));
    CellReadsBack(x, " " + (Cell(y) + (" " + (Cell(z) + b))));
  }

  /** One cell, or two, followed by another tag is no row; the reader moves on to that tag. */
  lemma ShortRowIsSkipped(x: string, b: string)
    requires x != "" && '<' !in x && |b| >= 2 && b[0] == '<' && b[1] == '/'
    ensures FindAll(Cell(x) + (" " + b)) == FindAll(b)
  {
    var s := Cell(x) + (" " + b);
    CellReadsBack(x, " " + b);
    OneSpace(b);
    NotACell(b);
    AfterCell(x, " " + b);
    SkipText(" ", b);
  }

  lemma HeadingIsSkipped(x: string, y: string, b: string)
    requires x != "" && y != "" && '<' !in x && '<' !in y && |b| >= 2 && b[0] == '<' && b[1] == '/'
    ensures FindAll(Cell(x) + (" " + (Cell(y) + (" " + b)))) == FindAll(b)
  {
    var second := Cell(y) + (" " + b);
    CellReadsBack(x, " " + second);
    OneSpace(second);
    CellReadsBack(y, " " + b);
    OneSpace(b);
    NotACell(b);
    AfterCell(x, " " + second);
    SkipText(" ", second);
    ShortRowIsSkipped(y, b);
  }

  /** Where no row starts at a cell, the reader goes on after it. */
  lemma AfterCell(x: string, b: string)
    requires '<' !in x && RowAt(Cell(x) + b).NoMatch?
    ensures FindAll(Cell(x) + b) == FindAll(b)
  {
    var s := Cell(x) + b;
    assert s == "<" + (("th>" + x) + ("</th>" + b));
    assert s[1..] == ("th>" + x) + ("</th>" + b);
    SkipText("th>" + x, "</th>" + b);
    SkipTag("</th>", b);
  }

  lemma HeaderHasNoEscape()
    ensures ESC !in HEADER
  {
    var expected, produced := Cell(Pad("Expected Code")), Cell(Pad("Code Produced"));
    assert ESC !in expected && ESC !in produced;
  }

  lemma HeaderShape(b: string)
    ensures HEADER + b == HeadingThen(b)
  {
    PushIn("<table> ", "<tr> ", b);
    var expected, produced := Cell(Pad("Expected Code")), Cell(Pad("Code Produced"));
    SixPieces("<tr> ", "<th/> ", expected, produced, "</tr> ", b);
  }

  lemma PushIn(a: string, s: string, b: string)
    ensures (a + s) + b == a + (s + b)
  {}

  lemma SixPieces(t: string, u: string, x: string, y: string, end: string, b: string)
    ensures (t + (u + (x + (" " + (y + (" " + (end + "")))))))+ b == t + (u + (x + (" " + (y + (" " + (end + b))))))
  {}

  lemma HeaderIsSkipped(b: string)
    ensures FindAll(HEADER + b) == FindAll(b)
  {
    var end := "</tr> " + b;
    var x, y := Pad("Expected Code"), Pad("Code Produced");
    var cells := Cell(x) + (" " + (Cell(y) + (" " + end)));
    HeaderShape(b);
    SkipTag("<table> ", "<tr> " + ("<th/> " + cells));
    SkipTag("<tr> ", "<th/> " + cells);
    SkipTag("<th/> ", cells);
    HeadingIsSkipped(x, y, end);
    SkipTag("</tr> ", b);
  }

  lemma RowShape(x: string, y: string, z: string, b: string)
    ensures ("<tr> " + (x + (" " + (y + (" " + (z + (" " + ("</tr>" + "")))))))) + b
            == "<tr> " + (x + (" " + (y + (" " + (z + (" " + ("</tr>" + b)))))))
  {}

  lemma CellsAreFound(x: string, y: string, z: string, b: string)
    requires x != "" && y != "" && z != "" && '<' !in x && '<' !in y && '<' !in z
    ensures FindAll("<tr> " + (Cell(x) + (" " + (Cell(y) + (" " + (Cell(z) + (" " + ("</tr>" + b))))))))
            == [Row(x, y, z)] + FindAll(b)
  {
    var end := "</tr>" + b;
    var cells := Cell(x) + (" " + (Cell(y) + (" " + (Cell(z) + (" " + end)))));
    SkipTag("<tr> ", cells);
    RowReadsBack(x, y, z, " " + end);
    SkipText(" ", end);
    SkipTag("</tr>", b);
  }

  lemma PrintedRowIsFound(r: Row, b: string)
    requires Printable(r)
    ensures FindAll(PrintRow(r) + b) == [Padded(r)] + FindAll(b)
  {
    RowShape(Cell(Pad(r.role)), Cell(Pad(r.expected)), Cell(Pad(r.produced)), b);
    CellsAreFound(Pad(r.role), Pad(r.expected), Pad(r.produced), b);
  }

  function PaddedRows(rows: seq<Row>): seq<Row> {
    if rows == [] then [] else PaddedRows(rows[..|rows| - 1]) + [Padded(rows[|rows| - 1])]
  }

  /** A reader that takes printed rows one at a time takes any number of them. */
  lemma {:induction false} RowByRow(read: string -> seq<Row>, rows: seq<Row>, b: string)
    requires forall r, x :: Printable(r) ==> read(PrintRow(r) + x) == [Padded(r)] + read(x)
    requires forall i :: 0 <= i < |rows| ==> Printable(rows[i])
    ensures read(PrintRows(rows) + b) == PaddedRows(rows) + read(b)
  {
    if rows == [] {
      assert PrintRows(rows) + b == b;
    } else {
      var n := |rows| - 1;
      RowByRow(read, rows[..n], PrintRow(rows[n]) + b);
      Assoc(PrintRows(rows[..n]), PrintRow(rows[n]), b);
      Assoc(PaddedRows(rows[..n]), [Padded(rows[n])], read(b));
    }
  }

  lemma PrintedRowsAreFound(rows: seq<Row>, b: string)
    requires forall i :: 0 <= i < |rows| ==> Printable(rows[i])
    ensures FindAll(PrintRows(rows) + b) == PaddedRows(rows) + FindAll(b)
  {
    forall r, x | Printable(r) ensures FindAll(PrintRow(r) + x) == [Padded(r)] + FindAll(x) {
      PrintedRowIsFound(r, x);
    }
    RowByRow(s => FindAll(s), rows, b);
  }

  lemma StripPad(t: string)
    requires Token(t)
    ensures Strip(Pad(t)) == t
  {
    var s := t + " ";
    assert Pad(t)[1..] == s && s[0] == t[0];
    assert StripLeft(Pad(t)) == StripLeft(s) == s;
    assert s[..|s| - 1] == t;
    assert StripRight(s) == StripRight(t) == t;
  }

  lemma {:induction false} KeepAppend(a: seq<Row>, b: seq<Row>)
    ensures Keep(a + b) == Keep(a) + Keep(b)
  {
    if b == [] {
      assert a + b == a;
    } else {
      KeepAppend(a, b[..|b| - 1]);
      InitOfAppend(a, b);
      Assoc(Keep(a), Keep(b[..|b| - 1]), Kept(b[|b| - 1]));
    }
  }

  lemma KeepPaddedRow(r: Row)
    requires Printable(r)
    ensures Kept(Padded(r)) == [r]
  {
    StripPad(r.role);
    StripPad(r.expected);
    StripPad(r.produced);
  }

  lemma {:induction false} KeepPadded(rows: seq<Row>)
    requires forall i :: 0 <= i < |rows| ==> Printable(rows[i])
    ensures Keep(PaddedRows(rows)) == rows
  {
    if rows != [] {
      var most, last := rows[..|rows| - 1], rows[|rows| - 1];
      KeepPadded(most);
      KeepPaddedRow(last);
      KeepOneMore(PaddedRows(most), Padded(last));
      InitAndLast(rows);
    }
  }

  lemma KeepOneMore(found: seq<Row>, r: Row)
    ensures Keep(found + [r]) == Keep(found) + Kept(r)
  {
    InitOfAppend(found, [r]);
    assert [r][..0] == [] && found + [] == found;
  }

  predicate MarkupChar(c: char) {
    c in {'<', '>', '/', ' ', 't', 'h', 'r'}
  }

  lemma CellLacks(t: string, b: string, c: char)
    requires !MarkupChar(c) && c !in t && c !in b
    ensures c !in Cell(Pad(t)) + (" " + b)
  {
    assert c !in Pad(t);
    assert c !in Cell(Pad(t));
    InAppend(Cell(Pad(t)), " " + b, c);
  }

  /** A printed row holds no character but those of its texts and its markup. */
  lemma RowLacks(r: Row, c: char)
    requires !MarkupChar(c) && c !in r.role && c !in r.expected && c !in r.produced
    ensures c !in PrintRow(r)
  {
    CellLacks(r.produced, "</tr>" + "", c);
    CellLacks(r.expected, Cell(Pad(r.produced)) + (" " + ("</tr>" + "")), c);
    var cells := Cell(Pad(r.expected)) + (" " + (Cell(Pad(r.produced)) + (" " + ("</tr>" + ""))));
    CellLacks(r.role, cells, c);
    InAppend("<tr> ", Cell(Pad(r.role)) + (" " + cells), c);
  }

  lemma {:induction false} PrintRowsHaveNoEscape(rows: seq<Row>)
    requires forall i :: 0 <= i < |rows| ==> Printable(rows[i])
    ensures ESC !in PrintRows(rows)
  {
    if rows != [] {
      var n := |rows| - 1;
      PrintRowsHaveNoEscape(rows[..n]);
      RowLacks(rows[n], ESC);
      InAppend(PrintRows(rows[..n]), PrintRow(rows[n]), ESC);
    }
  }

  /**
    Reading a printed message gives back exactly the printed rows, in order, followed by
    whatever rows the text after the table would be read as on its own.
   */
  lemma TableReadsBack(rows: seq<Row>, outputs: seq<string>)
    requires |rows| == |outputs|
    requires forall i :: 0 <= i < |rows| ==> Printable(rows[i])
    ensures Keep(FindAll(Message(rows, outputs))) == rows + Keep(FindAll(StripAnsi(Tail(rows, outputs))))
  {
    MessageStripped(rows, outputs);
    RowsReadBack(rows, StripAnsi(Tail(rows, outputs)));
  }

  lemma MessageStripped(rows: seq<Row>, outputs: seq<string>)
    requires |rows| == |outputs|
    requires forall i :: 0 <= i < |rows| ==> Printable(rows[i])
    ensures Message(rows, outputs) == HEADER + (PrintRows(rows) + StripAnsi(Tail(rows, outputs)))
  {
    PrintRowsHaveNoEscape(rows);
    HeaderHasNoEscape();
    StripAnsiKeepsPlain(HEADER + PrintRows(rows), Tail(rows, outputs));
    Assoc(HEADER, PrintRows(rows), StripAnsi(Tail(rows, outputs)));
  }

  lemma RowsReadBack(rows: seq<Row>, tail: string)
    requires forall i :: 0 <= i < |rows| ==> Printable(rows[i])
    ensures Keep(FindAll(HEADER + (PrintRows(rows) + tail))) == rows + Keep(FindAll(tail))
  {
    HeaderIsSkipped(PrintRows(rows) + tail);
    PrintedRowsAreFound(rows, tail);
    KeepAppend(PaddedRows(rows), FindAll(tail));
    KeepPadded(rows);
  }
}
