/**
  The application output that follows the table in a report (interoperability_report.py): which
  rows the reader of benchmarking/junit_compare/loader.py finds in it.  Each output is read on
  its own, as if the report held nothing else.
 */
module Outputs {
  import opened Sequences
  import opened Table

  /** No table cell opens anywhere in `s`. */
  ghost predicate NoCell(s: string) {
    forall i :: 0 <= i <= |s| ==> !("<th>" <= s[i..])
  }

  /** What a report shows of an output: line ends as tags, escape sequences removed. */
  function Shown(output: string): string {
    StripAnsi(Edited(output))
  }

  ghost predicate QuietOutputs(outputs: seq<string>) {
    forall i :: 0 <= i < |outputs| ==> NoCell(Shown(outputs[i]))
  }

  // ----- no escape sequence reaches past a blank and a tag -----

  lemma {:induction false} RunStops(s: string, t: string, lo: int, hi: int)
    requires t != "" && !(lo <= t[0] as int <= hi)
    ensures RunLength(s + t, lo, hi) == RunLength(s, lo, hi)
  {
    if s == "" {
      assert s + t == t;
    } else {
      RunStops(s[1..], t, lo, hi);
      assert (s + t)[1..] == s[1..] + t;
    }
  }

  lemma {:induction false} RunMayTakeTheBlank(s: string, u: string)
    requires |u| >= 2 && u[0] == ' ' && u[1] == '<'
    ensures RunLength(s, 0x20, 0x2F) == |s| ==> RunLength(s + u, 0x20, 0x2F) == |s| + 1
    ensures RunLength(s, 0x20, 0x2F) < |s| ==> RunLength(s + u, 0x20, 0x2F) == RunLength(s, 0x20, 0x2F)
  {
    if s == "" {
      assert s + u == u && u[1..][0] == '<';
    } else {
      RunMayTakeTheBlank(s[1..], u);
      DropFirst(s, u);
    }
  }

  /** The end of a control sequence in `s` is not moved by a blank and a '<' after `s`. */
  lemma FinalByteCut(s: string, u: string, a: nat)
    requires |u| >= 2 && u[0] == ' ' && u[1] == '<' && a <= |s|
    ensures var b, c := a + RunLength(s[a..], 0x20, 0x2F), a + RunLength((s + u)[a..], 0x20, 0x2F);
            if b < |s| then c == b && (s + u)[c] == s[b] else c == |s| + 1 && (s + u)[c] == '<'
  {
    DropOfAppend(s, u, a);
    RunMayTakeTheBlank(s[a..], u);
  }

  lemma AnsiLengthCut(s: string, u: string)
    requires s != "" && |u| >= 2 && u[0] == ' ' && u[1] == '<'
    ensures AnsiLength(s + u) == AnsiLength(s)
  {
    if |s| >= 2 && s[0] == ESC && s[1] == '[' {
      DropOfAppend(s, u, 2);
      RunStops(s[2..], u, 0x30, 0x3F);
      FinalByteCut(s, u, 2 + RunLength(s[2..], 0x30, 0x3F));
    }
  }

  lemma {:induction false} StripCut(s: string, t: string)
    ensures StripAnsi(s + (" <" + t)) == StripAnsi(s) + StripAnsi(" <" + t)
    decreases |s|
  {
    var u := " <" + t;
    if s == "" {
      assert s + u == u;
    } else {
      AnsiLengthCut(s, u);
      var n := if AnsiLength(s) > 0 then AnsiLength(s) else 1;
      StripCut(s[n..], t);
      CutAfter(s, u, n);
      Reassociate(s[0], StripAnsi(s[n..]), StripAnsi(u));
    }
  }

  lemma CutAfter(s: string, u: string, n: nat)
    requires 0 < n <= |s|
    ensures (s + u)[n..] == s[n..] + u && (s + u)[0] == s[0]
  {}

  lemma Reassociate(c: char, a: string, b: string)
    ensures [c] + (a + b) == [c] + a + b
  {}

  // ----- no row of the table reaches past a blank and a line break -----

  /** A line break tag after a blank. */
  predicate Break(u: string) {
    |u| >= 3 && u[0] == ' ' && u[1] == '<' && u[2] == 'b'
  }

  /** What `m` matches, with `u` put behind what is left. */
  function Longer<T>(m: Match<T>, u: string): Match<T> {
    match m
    case NoMatch => NoMatch
    case Match(value, rest) => Match(value, rest + u)
  }

  lemma {:induction false} TextLengthCut(s: string, u: string)
    requires Break(u)
    ensures TextLength(s) < |s| ==> TextLength(s + u) == TextLength(s)
    ensures TextLength(s) == |s| ==> TextLength(s + u) == |s| + 1
  {
    if s == "" {
      assert s + u == u && u[1..][0] == '<';
    } else {
      TextLengthCut(s[1..], u);
      DropFirst(s, u);
    }
  }

  lemma {:induction false} SpaceLengthCut(s: string, u: string)
    requires Break(u)
    ensures SpaceLength(s) < |s| ==> SpaceLength(s + u) == SpaceLength(s)
    ensures SpaceLength(s) == |s| ==> SpaceLength(s + u) == |s| + 1
  {
    if s == "" {
      assert s + u == u && u[1..][0] == '<';
    } else {
      SpaceLengthCut(s[1..], u);
      DropFirst(s, u);
    }
  }

  /** A tag without blanks begins `s` if it begins `s` with a blank and more behind it. */
  lemma TagCut(tag: string, s: string, u: string)
    requires ' ' !in tag && Break(u) && tag != ""
    ensures tag <= s + u <==> tag <= s
  {
    assert (s + u)[|s|] == ' ';
    if |s| >= |tag| {
      assert s[..|tag|] == (s + u)[..|tag|];
    }
  }

  lemma CellCut(s: string, u: string)
    requires Break(u)
    ensures CellAt(s + u) == Longer(CellAt(s), u)
  {
    TagCut("<th>", s, u);
    if "<th>" <= s {
      DropOfAppend(s, u, 4);
      TextLengthCut(s[4..], u);
      EndOfCellCut(s, u, TextLength(s[4..]));
    }
  }

  /** The closing tag of a cell whose text has `n` characters, or reaches the end of `s`. */
  lemma EndOfCellCut(s: string, u: string, n: nat)
    requires Break(u) && "<th>" <= s && n == TextLength(s[4..])
    requires TextLength((s + u)[4..]) == if 4 + n < |s| then n else n + 1
    ensures CellAt(s + u) == Longer(CellAt(s), u)
  {
    var tag := "</th>";
    if 4 + n < |s| {
      var after := s[4 + n..];
      DropOfAppend(s, u, 4 + n);
      TagCut(tag, after, u);
      if tag <= after {
        DropOfAppend(after, u, 5);
        assert (s + u)[4..4 + n] == s[4..4 + n];
      }
    } else {
      assert (s + u)[4 + (n + 1)..] == u[1..] && tag[1] == '/' && u[1..][1] == 'b';
      assert s[4 + n..] == "";
    }
  }

  lemma NextCellCut(s: string, u: string)
    requires Break(u)
    ensures NextCell(s + u) == Longer(NextCell(s), u)
  {
    var n := SpaceLength(s);
    SpaceLengthCut(s, u);
    if n < |s| {
      DropOfAppend(s, u, n);
      CellCut(s[n..], u);
    } else {
      assert s[n..] == "" && (s + u)[n + 1..] == u[1..];
      NoCellAtBreak(u);
    }
  }

  lemma NoCellAtBreak(u: string)
    requires Break(u)
    ensures CellAt(u[1..]).NoMatch? && CellAt("").NoMatch?
  {
    var tag := "<th>";
    assert u[1..][1] == 'b' && tag[1] == 't';
  }

  lemma RowCut(s: string, u: string)
    requires Break(u)
    ensures RowAt(s + u) == Longer(RowAt(s), u)
  {
    CellCut(s, u);
    var a := CellAt(s);
    if a.Match? {
      NextCellCut(a.rest, u);
      var b := NextCell(a.rest);
      if b.Match? {
        NextCellCut(b.rest, u);
      }
    }
  }

  /** The rows before a line break and those after it are found independently. */
  lemma {:induction false} FindAllCut(s: string, u: string)
    requires Break(u)
    ensures FindAll(s + u) == FindAll(s) + FindAll(u)
    decreases |s|
  {
    if s == "" {
      assert s + u == u;
    } else {
      RowCut(s, u);
      var m := RowAt(s);
      if m.Match? {
        FindAllCut(m.rest, u);
        Assoc([m.value], FindAll(m.rest), FindAll(u));
      } else {
        FindAllCut(s[1..], u);
        DropFirst(s, u);
      }
    }
  }

  // ----- each output is read on its own -----

  /** The rows that the reader finds in an output. */
  function RowsIn(output: string): seq<Row> {
    Keep(FindAll(Shown(output)))
  }

  function RowsInAll(outputs: seq<string>): seq<Row> {
    if outputs == [] then [] else RowsInAll(outputs[..|outputs| - 1]) + RowsIn(outputs[|outputs| - 1])
  }

  lemma InfoShape(role: string, text: string, b: string)
    ensures PrintInfo(role, text) + b == Head(role) + (Edited(text) + (" <" + ("br>" + b)))
  {}

  function Head(role: string): string {
    "<strong> Information " + role + " </strong><br> "
  }

  lemma InfoStripped(role: string, output: string, b: string)
    requires ESC !in role
    ensures StripAnsi(PrintInfo(role, output) + b) == Head(role) + (Shown(output) + (" <br>" + StripAnsi(b)))
  {
    InfoShape(role, output, b);
    StripAnsiKeepsPlain(Head(role), Edited(output) + (" <" + ("br>" + b)));
    StripCut(Edited(output), "br>" + b);
    BreakStripped(b);
  }

  lemma BreakStripped(b: string)
    ensures StripAnsi(" <" + ("br>" + b)) == " <br>" + StripAnsi(b)
  {
    assert " <" + ("br>" + b) == " <br>" + b;
    StripAnsiKeepsPlain(" <br>", b);
  }

  lemma HeadShape(role: string, b: string)
    ensures Head(role) + b == "<strong> Information " + role + " " + ("</strong>" + ("<br> " + b))
  {}

  lemma HeadIsSkipped(role: string, b: string)
    requires '<' !in role
    ensures FindAll(Head(role) + b) == FindAll(b)
  {
    var open := "<strong> Information " + role + " ";
    HeadShape(role, b);
    SkipTag(open, "</strong>" + ("<br> " + b));
    SkipTag("</strong>", "<br> " + b);
    SkipTag("<br> ", b);
  }

  lemma BreakIsSkipped(b: string)
    ensures FindAll(" <br>" + b) == FindAll(b)
  {
    assert " <br>" + b == " " + ("<br>" + b);
    SkipText(" ", "<br>" + b);
    SkipTag("<br>", b);
  }

  lemma InfoIsRead(role: string, output: string, b: string)
    requires '<' !in role && ESC !in role
    ensures FindAll(StripAnsi(PrintInfo(role, output) + b)) == FindAll(Shown(output)) + FindAll(StripAnsi(b))
  {
    var after := " <br>" + StripAnsi(b);
    InfoStripped(role, output, b);
    HeadIsSkipped(role, Shown(output) + after);
    FindAllCut(Shown(output), after);
    BreakIsSkipped(StripAnsi(b));
  }

  ghost predicate PlainRoles(rows: seq<Row>) {
    forall i :: 0 <= i < |rows| ==> '<' !in rows[i].role && ESC !in rows[i].role
  }

  lemma {:induction false} InfosAreRead(rows: seq<Row>, outputs: seq<string>, b: string)
    requires |rows| == |outputs| && PlainRoles(rows)
    ensures Keep(FindAll(StripAnsi(PrintInfos(rows, outputs) + b))) == RowsInAll(outputs) + Keep(FindAll(StripAnsi(b)))
  {
    if rows == [] {
      assert PrintInfos(rows, outputs) + b == b;
    } else {
      var n := |rows| - 1;
      var last := PrintInfo(rows[n].role, outputs[n]);
      InfosAreRead(rows[..n], outputs[..n], last + b);
      InfoIsRead(rows[n].role, outputs[n], b);
      KeepAppend(FindAll(Shown(outputs[n])), FindAll(StripAnsi(b)));
      Assoc(PrintInfos(rows[..n], outputs[..n]), last, b);
      Assoc(RowsInAll(outputs[..n]), RowsIn(outputs[n]), Keep(FindAll(StripAnsi(b))));
    }
  }

  /** What follows the table is read output by output, in order; nothing that is not in an output is read. */
  lemma EachOutputIsReadAlone(rows: seq<Row>, outputs: seq<string>)
    requires |rows| == |outputs| && PlainRoles(rows)
    ensures Keep(FindAll(StripAnsi(Tail(rows, outputs)))) == RowsInAll(outputs)
  {
    var infos := PrintInfos(rows, outputs);
    EndOfTable(infos);
    InfosAreRead(rows, outputs, "");
    assert infos + "" == infos && RowsInAll(outputs) + [] == RowsInAll(outputs);
  }

  lemma EndOfTable(b: string)
    ensures FindAll(StripAnsi("</table>" + b)) == FindAll(StripAnsi(b))
  {
    StripAnsiKeepsPlain("</table>", b);
    SkipTag("</table>", StripAnsi(b));
  }

  // ----- quiet outputs -----

  lemma NoCellAfter(a: string)
    requires NoCell(a) && a != ""
    ensures NoCell(a[1..])
  {
    forall i | 0 <= i <= |a[1..]| ensures !("<th>" <= a[1..][i..]) {
      assert a[1..][i..] == a[i + 1..];
    }
  }

  /** Text without a table cell holds no rows. */
  lemma {:induction false} NoCellNoRows(s: string)
    requires NoCell(s)
    ensures FindAll(s) == []
  {
    if s != "" {
      assert s[0..] == s;
      NoCellAfter(s);
      NoCellNoRows(s[1..]);
      NextWithoutCell(s);
    }
  }

  /** Outputs that show no table cell are read as no rows. */
  lemma {:induction false} QuietOutputsAddNoRows(outputs: seq<string>)
    requires QuietOutputs(outputs)
    ensures RowsInAll(outputs) == []
  {
    if outputs != [] {
      QuietOutputsAddNoRows(outputs[..|outputs| - 1]);
      NoCellNoRows(Shown(outputs[|outputs| - 1]));
    }
  }

  // ----- plain outputs are quiet -----

  const ETX: char := '\U{3}'

  /** Every '<' begins a line break. */
  ghost predicate OnlyBreaks(s: string) {
    forall i :: 0 <= i < |s| && s[i] == '<' ==> i + 1 < |s| && s[i + 1] == 'b'
  }

  lemma {:induction false} EditedPlain(output: string)
    requires '<' !in output && ESC !in output
    ensures OnlyBreaks(Edited(output)) && ESC !in Edited(output)
  {
    if output != "" {
      EditedPlain(output[1..]);
      var rest := Edited(output[1..]);
      var piece := if output[0] == '\n' || output[0] == ETX then "<br>" else [output[0]];
      assert Edited(output) == piece + rest;
      forall i | 0 <= i < |piece + rest| && (piece + rest)[i] == '<'
        ensures i + 1 < |piece + rest| && (piece + rest)[i + 1] == 'b'
      {
        if i >= |piece| {
          assert rest[i - |piece|] == '<';
        } else {
          assert piece[i] == '<' && piece == "<br>";
        }
      }
    }
  }

  /** An output without '<' and without escape characters shows no table cell. */
  lemma PlainOutputIsQuiet(output: string)
    requires '<' !in output && ESC !in output
    ensures NoCell(Shown(output))
  {
    var s, cell := Edited(output), "<th>";
    EditedPlain(output);
    PlainTextIsKept(s);
    forall i | 0 <= i <= |s| ensures !("<th>" <= s[i..]) {
      if |s[i..]| >= 4 {
        assert s[i..][0] == s[i] && s[i..][1] == s[i + 1];
        assert cell[0] == '<' && cell[1] == 't';
      }
    }
  }

  // ----- an output that prints a row is read as that row -----

  lemma {:induction false} EditedKeeps(output: string)
    requires '\n' !in output && ETX !in output
    ensures Edited(output) == output
  {
    if output != "" {
      EditedKeeps(output[1..]);
    }
  }

  ghost predicate OnOneLine(r: Row) {
    forall c :: c in {'\n', ETX} ==> c !in r.role && c !in r.expected && c !in r.produced
  }

  /** An output that is a printed row is read as that row. */
  lemma PrintedRowIsRead(r: Row)
    requires Printable(r) && OnOneLine(r)
    ensures RowsIn(PrintRow(r)) == [r]
  {
    RowLacks(r, '\n');
    RowLacks(r, ETX);
    RowLacks(r, ESC);
    EditedKeeps(PrintRow(r));
    PlainTextIsKept(PrintRow(r));
    PrintedRowIsFound(r, "");
    assert PrintRow(r) + "" == PrintRow(r) && [Padded(r)] + FindAll("") == [Padded(r)];
    KeepOneMore([], Padded(r));
    KeepPaddedRow(r);
    assert [] + [Padded(r)] == [Padded(r)];
  }

  lemma PlainTextIsKept(s: string)
    requires ESC !in s
    ensures StripAnsi(s) == s
  {
    StripAnsiKeepsPlain(s, "");
    assert s + "" == s && StripAnsi("") == "";
  }
}
