/**
  The regular expressions behind the report, declaratively: the escape sequences that
  `remove_ansi_colors` (rtps_test_utilities.py) deletes, and the row pattern of
  benchmarking/junit_compare/loader.py.  The functions that look for them find just these.
 */
module Patterns {
  import opened Sequences
  import opened Table

  // ----- escape sequences -----

  /** ESC and one of `@` to `_` other than `[`. */
  predicate ShortEscape(t: string) {
    |t| == 2 && t[0] == ESC && '@' <= t[1] <= '_' && t[1] != '['
  }

  /** ESC and `[`, `p` parameter bytes `0` to `?`, `i` intermediate bytes blank to `/`, and a final byte `@` to `~`. */
  ghost predicate ControlBytes(t: string, p: nat, i: nat) {
    && 2 + p + i + 1 == |t| && t[0] == ESC && t[1] == '['
    && (forall k :: 2 <= k < 2 + p ==> '0' <= t[k] <= '?')
    && (forall k :: 2 + p <= k < 2 + p + i ==> ' ' <= t[k] <= '/')
    && '@' <= t[|t| - 1] <= '~'
  }

  ghost predicate ControlSequence(t: string) {
    exists p: nat, i: nat :: ControlBytes(t, p, i)
  }

  ghost predicate IsEscape(t: string) {
    ShortEscape(t) || ControlSequence(t)
  }

  lemma {:induction false} RunIs(s: string, lo: int, hi: int)
    ensures var n := RunLength(s, lo, hi);
            && (forall i :: 0 <= i < n ==> lo <= s[i] as int <= hi)
            && (n < |s| ==> !(lo <= s[n] as int <= hi))
  {
    if s != "" && lo <= s[0] as int <= hi {
      RunIs(s[1..], lo, hi);
      var n := RunLength(s[1..], lo, hi);
      assert forall i :: 1 <= i < 1 + n ==> s[i] == s[1..][i - 1];
    }
  }

  lemma {:induction false} RunEnds(s: string, lo: int, hi: int, n: nat)
    requires n <= |s| && (forall i :: 0 <= i < n ==> lo <= s[i] as int <= hi)
    requires n < |s| ==> !(lo <= s[n] as int <= hi)
    ensures RunLength(s, lo, hi) == n
  {
    if n > 0 {
      assert forall i :: 0 <= i < n - 1 ==> s[1..][i] == s[i + 1];
      RunEnds(s[1..], lo, hi, n - 1);
    }
  }

  /** What is deleted at the front of `s` is an escape sequence. */
  lemma OnlyEscapesAreDeleted(s: string)
    ensures AnsiLength(s) > 0 ==> IsEscape(s[..AnsiLength(s)])
  {
    if |s| >= 2 && s[0] == ESC && s[1] == '[' && AnsiLength(s) > 0 {
      ControlIsDeleted(s);
    }
  }

  lemma ControlIsDeleted(s: string)
    requires |s| >= 2 && s[0] == ESC && s[1] == '[' && AnsiLength(s) > 0
    ensures ControlSequence(s[..AnsiLength(s)])
  {
    var t := s[..AnsiLength(s)];
    var afterStart := s[2..];
    var p := RunLength(afterStart, 0x30, 0x3F);
    var afterParameters := s[2 + p..];
    var i := RunLength(afterParameters, 0x20, 0x2F);
    RunIs(afterStart, 0x30, 0x3F);
    RunIs(afterParameters, 0x20, 0x2F);
    assert |t| == 2 + p + i + 1;
    forall k | 2 <= k < 2 + p ensures '0' <= t[k] <= '?' {
      assert t[k] == afterStart[k - 2];
    }
    forall k | 2 + p <= k < 2 + p + i ensures ' ' <= t[k] <= '/' {
      assert t[k] == afterParameters[k - 2 - p];
    }
    assert ControlBytes(t, p, i);
  }

  /** Where `s` begins with an escape sequence, that sequence is deleted, neither less nor more. */
  lemma EscapesAreDeleted(s: string, n: nat)
    requires n <= |s| && IsEscape(s[..n])
    ensures AnsiLength(s) == n
  {
    var t := s[..n];
    if ControlSequence(t) {
      var p: nat, i: nat :| ControlBytes(t, p, i);
      ParametersEnd(s, t, p, i);
      IntermediatesEnd(s, t, p, i);
      assert s[0] == t[0] && s[1] == t[1];
    }
  }

  lemma ParametersEnd(s: string, t: string, p: nat, i: nat)
    requires t <= s && ControlBytes(t, p, i)
    ensures RunLength(s[2..], 0x30, 0x3F) == p
  {
    var after := s[2..];
    assert forall k :: 0 <= k <= p ==> after[k] == t[k + 2];
    RunEnds(after, 0x30, 0x3F, p);
  }

  lemma IntermediatesEnd(s: string, t: string, p: nat, i: nat)
    requires t <= s && ControlBytes(t, p, i)
    ensures RunLength(s[2 + p..], 0x20, 0x2F) == i && s[2 + p + i] == t[|t| - 1]
  {
    var after := s[2 + p..];
    assert forall k :: 0 <= k <= i ==> after[k] == t[k + 2 + p];
    RunEnds(after, 0x20, 0x2F, i);
  }

  /** The number of characters deleted is the length of the escape sequence that `s` begins with, 0 if none. */
  lemma AnsiLengthIsThatOfTheEscape(s: string, n: nat)
    requires 0 < n <= |s|
    ensures AnsiLength(s) == n <==> IsEscape(s[..n])
  {
    OnlyEscapesAreDeleted(s);
    if IsEscape(s[..n]) {
      EscapesAreDeleted(s, n);
    }
  }

  // ----- rows -----

  ghost predicate Blank(s: string) {
    forall i :: 0 <= i < |s| ==> IsSpace(s[i])
  }

  predicate CellText(t: string) {
    t != "" && '<' !in t
  }

  lemma {:induction false} TextIs(s: string)
    ensures '<' !in s[..TextLength(s)]
    ensures TextLength(s) < |s| ==> s[TextLength(s)] == '<'
  {
    if s != "" && s[0] != '<' {
      TextIs(s[1..]);
      var n := TextLength(s[1..]);
      assert s[..n + 1] == [s[0]] + s[1..][..n];
    }
  }

  lemma {:induction false} BlanksAre(s: string)
    ensures Blank(s[..SpaceLength(s)])
    ensures SpaceLength(s) < |s| ==> !IsSpace(s[SpaceLength(s)])
  {
    if s != "" && IsSpace(s[0]) {
      BlanksAre(s[1..]);
      var n := SpaceLength(s[1..]);
      assert s[..n + 1] == [s[0]] + s[1..][..n];
    }
  }

  lemma {:induction false} BlanksEnd(a: string, b: string)
    requires Blank(a) && b != "" && !IsSpace(b[0])
    ensures SpaceLength(a + b) == |a| && (a + b)[|a|..] == b
  {
    if a == "" {
      assert a + b == b;
    } else {
      BlanksEnd(a[1..], b);
      DropFirst(a, b);
    }
  }

  lemma TagTextTag(s: string, n: nat)
    requires 9 + n <= |s| && s[..4] == "<th>" && s[4 + n..9 + n] == "</th>"
    ensures s == Cell(s[4..4 + n]) + s[9 + n..]
  {
    TakeSplit(s, 4, n);
    TakeSplit(s, 4 + n, 5);
    TakeAndDrop(s, 9 + n);
  }

  lemma FoundIsACell(s: string, t: string, rest: string)
    requires CellAt(s) == Match(t, rest)
    ensures CellText(t) && s == Cell(t) + rest
  {
    var n := TextLength(s[4..]);
    TextIs(s[4..]);
    DropDrop(s, 4, n);
    DropDrop(s, 4 + n, 5);
    assert s[4..][..n] == s[4..4 + n] && s[4 + n..][..5] == s[4 + n..9 + n];
    TagTextTag(s, n);
  }

  /** A cell at the front of `s` is found exactly if `s` begins with one. */
  lemma CellIs(s: string, t: string, rest: string)
    ensures CellAt(s) == Match(t, rest) <==> CellText(t) && s == Cell(t) + rest
  {
    if CellAt(s) == Match(t, rest) {
      FoundIsACell(s, t, rest);
    } else if CellText(t) && s == Cell(t) + rest {
      CellReadsBack(t, rest);
    }
  }

  /** The same behind blanks. */
  lemma NextCellIs(s: string, t: string, rest: string)
    ensures NextCell(s) == Match(t, rest) <==>
            CellText(t) && exists blank :: Blank(blank) && s == blank + (Cell(t) + rest)
  {
    var n := SpaceLength(s);
    BlanksAre(s);
    CellIs(s[n..], t, rest);
    if NextCell(s) == Match(t, rest) {
      assert s == s[..n] + (Cell(t) + rest);
    }
    if CellText(t) {
      forall blank | Blank(blank) && s == blank + (Cell(t) + rest) ensures NextCell(s) == Match(t, rest) {
        BlanksEnd(blank, Cell(t) + rest);
      }
    }
  }

  /** Three cells with blanks between them, and `rest` behind. */
  function ThreeCells(r: Row, first: string, second: string, rest: string): string {
    Cell(r.role) + (first + (Cell(r.expected) + (second + (Cell(r.produced) + rest))))
  }

  /** A row at the front of `s` is found exactly if `s` begins with three cells that only blanks separate. */
  lemma RowIs(s: string, r: Row, rest: string)
    ensures RowAt(s) == Match(r, rest) <==>
            && CellText(r.role) && CellText(r.expected) && CellText(r.produced)
            && exists first, second :: Blank(first) && Blank(second) && s == ThreeCells(r, first, second, rest)
  {
    if RowAt(s) == Match(r, rest) {
      var first, second := FoundIsThreeCells(s, r, rest);
    }
    if CellText(r.role) && CellText(r.expected) && CellText(r.produced) {
      forall first, second | Blank(first) && Blank(second) && s == ThreeCells(r, first, second, rest)
        ensures RowAt(s) == Match(r, rest)
      {
        ThreeCellsAreFound(r, first, second, rest);
      }
    }
  }

  lemma FoundIsThreeCells(s: string, r: Row, rest: string) returns (first: string, second: string)
    requires RowAt(s) == Match(r, rest)
    ensures CellText(r.role) && CellText(r.expected) && CellText(r.produced)
    ensures Blank(first) && Blank(second) && s == ThreeCells(r, first, second, rest)
  {
    var a := CellAt(s);
    var b := NextCell(a.rest);
    CellIs(s, r.role, a.rest);
    NextCellIs(a.rest, r.expected, b.rest);
    NextCellIs(b.rest, r.produced, rest);
    first :| Blank(first) && a.rest == first + (Cell(r.expected) + b.rest);
    second :| Blank(second) && b.rest == second + (Cell(r.produced) + rest);
  }

  lemma ThreeCellsAreFound(r: Row, first: string, second: string, rest: string)
    requires CellText(r.role) && CellText(r.expected) && CellText(r.produced) && Blank(first) && Blank(second)
    ensures RowAt(ThreeCells(r, first, second, rest)) == Match(r, rest)
  {
    var two := second + (Cell(r.produced) + rest);
    var one := first + (Cell(r.expected) + two);
    CellIs(Cell(r.role) + one, r.role, one);
    NextCellIs(one, r.expected, two);
    NextCellIs(two, r.produced, rest);
  }

  // ----- stripping, and line ends -----

  lemma TakeInFront(s: string, n: nat)
    requires 0 < n <= |s|
    ensures s[..n] == [s[0]] + s[1..][..n - 1]
  {}

  lemma BlankInFront(c: char, s: string)
    requires IsSpace(c) && Blank(s)
    ensures Blank([c] + s)
  {}

  lemma {:induction false} StripLeftIs(s: string)
    ensures |StripLeft(s)| <= |s|
    ensures Blank(s[..|s| - |StripLeft(s)|]) && s[|s| - |StripLeft(s)|..] == StripLeft(s)
    ensures StripLeft(s) != "" ==> !IsSpace(StripLeft(s)[0])
  {
    if s != "" && IsSpace(s[0]) {
      var rest := s[1..];
      var n := |rest| - |StripLeft(rest)|;
      StripLeftIs(rest);
      assert |s| - |StripLeft(s)| == n + 1;
      DropDrop(s, 1, n);
      TakeInFront(s, n + 1);
      BlankInFront(s[0], rest[..n]);
    }
  }

  lemma {:induction false} StripRightIs(s: string)
    ensures |StripRight(s)| <= |s| && s[..|StripRight(s)|] == StripRight(s) && Blank(s[|StripRight(s)|..])
    ensures StripRight(s) != "" ==> !IsSpace(StripRight(s)[|StripRight(s)| - 1])
  {
    if s != "" && IsSpace(s[|s| - 1]) {
      var most := s[..|s| - 1];
      StripRightIs(most);
      assert s[|StripRight(s)|..] == most[|StripRight(s)|..] + [s[|s| - 1]];
    }
  }

  /** Stripping takes blanks off both ends, as many as there are, and nothing else. */
  lemma StripIs(s: string) returns (front: string, back: string)
    ensures Blank(front) && Blank(back) && s == front + Strip(s) + back
    ensures Strip(s) != "" ==> !IsSpace(Strip(s)[0]) && !IsSpace(Strip(s)[|Strip(s)| - 1])
  {
    var left := StripLeft(s);
    StripLeftIs(s);
    StripRightIs(left);
    front, back := s[..|s| - |left|], left[|Strip(s)|..];
    TakeAndDrop(s, |front|);
    TakeAndDrop(left, |Strip(s)|);
    Assoc(front, Strip(s), back);
  }

  /** Line ends and ETX characters become `<br>`; all else stays, in order. */
  lemma {:induction false} EditedReplacesLineEnds(a: string, c: char, b: string)
    ensures Edited(a + ([c] + b)) == Edited(a) + ((if c == '\n' || c == '\U{3}' then "<br>" else [c]) + Edited(b))
  {
    if a == "" {
      assert a + ([c] + b) == [c] + b && ([c] + b)[1..] == b;
    } else {
      EditedReplacesLineEnds(a[1..], c, b);
      DropFirst(a, [c] + b);
      var first := if a[0] == '\n' || a[0] == '\U{3}' then "<br>" else [a[0]];
      var middle := if c == '\n' || c == '\U{3}' then "<br>" else [c];
      Assoc(first, Edited(a[1..]), middle + Edited(b));
    }
  }

  /** Of what is found, exactly a row whose stripped role is empty or that of the heading is dropped. */
  lemma HeadingsAreDropped(r: Row)
    ensures Kept(r) == [] <==> Strip(r.role) == "" || Strip(r.role) == "Expected Code"
    ensures Kept(r) != [] ==>
              |Kept(r)| == 1 && Kept(r)[0].role == Strip(r.role)
              && Kept(r)[0].expected == Strip(r.expected) && Kept(r)[0].produced == Strip(r.produced)
  {}
}
