/**
  Report files and their names (benchmarking/junit_compare/file_registry.py), and the groups
  that `build_explain_parallel_report` (analyzer.py) forms of them.

  A file is known by its stem; the directory and the suffix are the same for all.  Digits are
  the ten ASCII ones.
 */
module Files {
  import opened Bytes
  import opened Sequences
  import opened Sorting
  import opened Sums

  datatype Meta = Meta(
    day: string,
    month: string,
    year: string,
    time: string,
    parallel: nat,
    duration: nat,
    runner: Option<string>,
    batch: Option<nat>
  )

  // ----- digits -----

  predicate Digit(c: char) {
    '0' <= c <= '9'
  }

  predicate AllDigits(s: string) {
    forall i :: 0 <= i < |s| ==> Digit(s[i])
  }

  function DigitsLength(s: string): (n: nat)
    ensures n <= |s| && AllDigits(s[..n])
  {
    if s != "" && Digit(s[0]) then
      var n := 1 + DigitsLength(s[1..]);
      assert s[..n] == [s[0]] + s[1..][..n - 1];
      n
    else 0
  }

  function Value(s: string): nat
    requires AllDigits(s)
  {
    if s == "" then 0 else 10 * Value(s[..|s| - 1]) + (s[|s| - 1] as int - '0' as int)
  }

  // ----- names -----

  /** `-(\d+)sec` at the front of `s`: the number and what follows, or nothing taken. */
  function DurationAt(s: string): (nat, string) {
    if s == "" || s[0] != '-' then (0, s)
    else
      var n := DigitsLength(s[1..]);
      if n > 0 && "sec" <= s[1..][n..] then (Value(s[1..][..n]), s[1..][n..][3..]) else (0, s)
  }

  function RunnerAt(s: string): (Option<string>, string) {
    if "-self-hosted" <= s then (Some("self-hosted"), s[12..])
    else if "-ubuntu" <= s then (Some("ubuntu"), s[7..])
    else (None, s)
  }

  function BatchAt(s: string): Option<nat> {
    if !("-run" <= s) then None
    else
      var n := DigitsLength(s[4..]);
      if n > 0 then Some(Value(s[4..][..n])) else None
  }

  /** The whole pattern at the front of `s`. */
  function MetaAt(s: string): (m: Option<Meta>)
    ensures m.Some? ==> Dated(m.value)
  {
    if |s| < 18 || s[0] !in {'-', '_'} || !AllDigits(s[1..9]) || s[9] != '-' || !AllDigits(s[10..14])
       || s[14..18] != "-par"
    then None
    else
      var n := DigitsLength(s[18..]);
      if n == 0 then None
      else
        var (duration, afterDuration) := DurationAt(s[18..][n..]);
        var (runner, afterRunner) := RunnerAt(afterDuration);
        assert forall i :: 1 <= i < 9 ==> s[i] == s[1..9][i - 1];
        Some(Meta(s[1..3], s[3..5], s[5..9], s[10..14], Value(s[18..][..n]), duration, runner, BatchAt(afterRunner)))
  }

  predicate Dated(m: Meta) {
    && |m.day| == |m.month| == 2 && |m.year| == |m.time| == 4
    && AllDigits(m.day) && AllDigits(m.month) && AllDigits(m.year) && AllDigits(m.time)
  }

  /** `parse_filename_meta`: the leftmost match. */
  function ParseMeta(stem: string): (m: Option<Meta>)
    ensures m.Some? ==> Dated(m.value)
  {
    if MetaAt(stem).Some? || stem == "" then MetaAt(stem) else ParseMeta(stem[1..])
  }

  function SortKeyOf(m: Meta): string {
    m.year + (m.month + (m.day + ("-" + m.time)))
  }

  /** `YYYY-MM-DD-hh_mm_ss` at the front of `s`. */
  predicate OldDateAt(s: string) {
    && |s| >= 19
    && AllDigits(s[..4]) && s[4] == '-' && AllDigits(s[5..7]) && s[7] == '-' && AllDigits(s[8..10]) && s[10] == '-'
    && AllDigits(s[11..13]) && s[13] == '_' && AllDigits(s[14..16]) && s[16] == '_' && AllDigits(s[17..19])
  }

  function OldDate(stem: string): (d: Option<string>)
    ensures d.Some? ==> OldDateAt(d.value) && |d.value| == 19
  {
    if OldDateAt(stem) then
      OldDateIsLocal(stem);
      Some(stem[..19])
    else if stem == "" then None
    else OldDate(stem[1..])
  }

  lemma OldDateIsLocal(s: string)
    requires OldDateAt(s)
    ensures OldDateAt(s[..19])
  {
    var d := s[..19];
    assert d[..4] == s[..4] && d[5..7] == s[5..7] && d[8..10] == s[8..10];
    assert d[11..13] == s[11..13] && d[14..16] == s[14..16] && d[17..19] == s[17..19];
  }

  /** `_file_sort_key` */
  function FileSortKey(stem: string): SortKey {
    var name := stem + ".xml";
    match ParseMeta(stem)
    case Some(m) => (SortKeyOf(m), name)
    case None =>
      match OldDate(stem)
      case Some(d) => (d, name)
      case None => (name, "")
  }

  // ----- the order of names is the order of dates -----

  /** The two dates in time: by year, month, day and time of day, as numbers. */
  predicate Earlier(a: Meta, b: Meta)
    requires Dated(a) && Dated(b)
  {
    || Value(a.year) < Value(b.year)
    || (Value(a.year) == Value(b.year) &&
        (|| Value(a.month) < Value(b.month)
         || (Value(a.month) == Value(b.month) &&
             (|| Value(a.day) < Value(b.day)
              || (Value(a.day) == Value(b.day) && Value(a.time) < Value(b.time))))))
  }

  lemma {:induction false} DigitsByValue(a: string, b: string)
    requires |a| == |b| && AllDigits(a) && AllDigits(b)
    ensures Before(a, b) <==> Value(a) < Value(b)
    ensures a == b <==> Value(a) == Value(b)
  {
    if a != "" {
      var n := |a| - 1;
      DigitsByValue(a[..n], b[..n]);
      InitAndLast(a);
      InitAndLast(b);
      BeforeByPieces(a[..n], b[..n], [a[n]], [b[n]]);
      OneCharBefore(a[n], b[n]);
    }
  }

  lemma OneCharBefore(c: char, d: char)
    ensures Before([c], [d]) <==> c < d
  {
    assert [c][1..] == "" && [d][1..] == "";
  }

  /** A later piece decides where the pieces before it, of equal length and made of digits, agree. */
  lemma PieceByValue(a: string, b: string, x: string, y: string)
    requires |a| == |b| && AllDigits(a) && AllDigits(b)
    ensures Before(a + x, b + y) <==> Value(a) < Value(b) || (Value(a) == Value(b) && Before(x, y))
  {
    BeforeByPieces(a, b, x, y);
    DigitsByValue(a, b);
  }

  /** The text order of the sort keys is the order in time. */
  lemma SortKeysAreChronological(a: Meta, b: Meta)
    requires Dated(a) && Dated(b)
    ensures Before(SortKeyOf(a), SortKeyOf(b)) <==> Earlier(a, b)
  {
    PieceByValue(a.year, b.year, a.month + (a.day + ("-" + a.time)), b.month + (b.day + ("-" + b.time)));
    PieceByValue(a.month, b.month, a.day + ("-" + a.time), b.day + ("-" + b.time));
    PieceByValue(a.day, b.day, "-" + a.time, "-" + b.time);
    BeforeByPieces("-", "-", a.time, b.time);
    BeforeItself("-");
    DigitsByValue(a.time, b.time);
  }

  // ----- choosing files -----

  predicate InBatch(batch: Option<nat>, stem: string) {
    batch == None || (ParseMeta(stem).Some? && ParseMeta(stem).value.batch == batch)
  }

  function Keep(files: seq<string>, batch: Option<nat>): seq<string> {
    if files == [] then []
    else Keep(files[..|files| - 1], batch) + if InBatch(batch, files[|files| - 1]) then [files[|files| - 1]] else []
  }

  /** `choose_all_files` */
  function ChooseAllFiles(files: seq<string>, batch: Option<nat>): seq<string> {
    Keep(SortBy(files, FileSortKey), batch)
  }

  /** `choose_files`; it raises on fewer than two. */
  function ChooseFiles(files: seq<string>, batch: Option<nat>): Option<(string, string)> {
    var chosen := ChooseAllFiles(files, batch);
    if |chosen| < 2 then None else Some((chosen[|chosen| - 2], chosen[|chosen| - 1]))
  }

  // ----- the order between the two formats -----

  predicate Old(stem: string) {
    ParseMeta(stem).None? && OldDate(stem).Some?
  }

  /** The date in an old name, to the minute as in a new one. */
  function OldMeta(d: string): (m: Meta)
    requires OldDateAt(d)
    ensures Dated(m)
  {
    Meta(d[8..10], d[5..7], d[..4], d[11..13] + d[14..16], 0, 0, None, None)
  }

  /** The date in a name of either format. */
  function When(stem: string): (m: Option<Meta>)
    ensures m.Some? ==> Dated(m.value)
  {
    if ParseMeta(stem).Some? then ParseMeta(stem)
    else if OldDate(stem).Some? then Some(OldMeta(OldDate(stem).value))
    else None
  }

  /** One comes no later than the other, as far as both are dated. */
  predicate InTime(a: string, b: string) {
    When(a).Some? && When(b).Some? ==> !Earlier(When(b).value, When(a).value)
  }

  lemma OldDateByPieces(d: string)
    requires OldDateAt(d) && |d| == 19
    ensures d == d[..4] + ("-" + (d[5..7] + ("-" + (d[8..10] + ("-" + (d[11..13] + ("_" + (d[14..16] + d[16..]))))))))
  {}

  lemma CharThen(c: char, x: string, y: string)
    ensures Before([c] + x, [c] + y) <==> Before(x, y)
  {
    BeforeByPieces([c], [c], x, y);
    BeforeItself([c]);
  }

  /** Two old dates in different minutes are ordered by time. */
  lemma OldKeysAreChronological(a: string, b: string)
    requires OldDateAt(a) && OldDateAt(b) && |a| == |b| == 19
    ensures Earlier(OldMeta(a), OldMeta(b)) ==> Before(a, b)
  {
    OldDateByPieces(a);
    OldDateByPieces(b);
    var a1, b1 := a[14..16] + a[16..], b[14..16] + b[16..];
    var a2, b2 := a[11..13] + ("_" + a1), b[11..13] + ("_" + b1);
    var a3, b3 := a[8..10] + ("-" + a2), b[8..10] + ("-" + b2);
    var a4, b4 := a[5..7] + ("-" + a3), b[5..7] + ("-" + b3);
    PieceByValue(a[..4], b[..4], "-" + a4, "-" + b4);
    CharThen('-', a4, b4);
    PieceByValue(a[5..7], b[5..7], "-" + a3, "-" + b3);
    CharThen('-', a3, b3);
    PieceByValue(a[8..10], b[8..10], "-" + a2, "-" + b2);
    CharThen('-', a2, b2);
    TimeOfDay(a, b, a[16..], b[16..]);
  }

  /** Hours and minutes, written as one number or with a sign between them. */
  lemma TimeOfDay(a: string, b: string, x: string, y: string)
    requires OldDateAt(a) && OldDateAt(b)
    ensures Value(OldMeta(a).time) < Value(OldMeta(b).time) ==>
              Before(a[11..13] + ("_" + (a[14..16] + x)), b[11..13] + ("_" + (b[14..16] + y)))
  {
    DigitsByValue(OldMeta(a).time, OldMeta(b).time);
    BeforeByPieces(a[11..13], b[11..13], a[14..16], b[14..16]);
    BeforeByPieces(a[11..13], b[11..13], "_" + (a[14..16] + x), "_" + (b[14..16] + y));
    CharThen('_', a[14..16] + x, b[14..16] + y);
    BeforeByPieces(a[14..16], b[14..16], x, y);
  }

  /** A name of the old format is sorted before one of the new format exactly if its year is no later. */
  lemma OldComesBeforeNewExactlyWhen(stem: string, dated: string)
    requires Old(stem) && ParseMeta(dated).Some?
    ensures Less(FileSortKey(stem), FileSortKey(dated)) <==>
            Value(When(stem).value.year) <= Value(When(dated).value.year)
    ensures Less(FileSortKey(dated), FileSortKey(stem)) <==>
            Value(When(stem).value.year) > Value(When(dated).value.year)
  {
    var d, m := OldDate(stem).value, ParseMeta(dated).value;
    var rest := m.month + (m.day + ("-" + m.time));
    TakeAndDrop(d, 4);
    PieceByValue(d[..4], m.year, d[4..], rest);
    assert d[4..][0] == '-' && rest[0] == m.month[0];
    assert d != m.year + rest;
    LessIsStrict(FileSortKey(stem), FileSortKey(dated));
  }

  /** The old name is of the same year and yet later: it is sorted first all the same. */
  predicate OutOfOrder(stem: string, dated: string) {
    && Old(stem) && ParseMeta(dated).Some?
    && Value(When(stem).value.year) == Value(When(dated).value.year)
    && Earlier(When(dated).value, When(stem).value)
  }

  /** Of two names that are dated, which is sorted first is decided by time, but for those out of order. */
  lemma SortedInTimeExactlyWhen(a: string, b: string)
    requires !Less(FileSortKey(b), FileSortKey(a))
    ensures InTime(a, b) <==> !OutOfOrder(a, b)
  {
    if When(a).Some? && When(b).Some? {
      if Old(a) && Old(b) {
        OldKeysAreChronological(OldDate(b).value, OldDate(a).value);
      } else if Old(a) {
        OldComesBeforeNewExactlyWhen(a, b);
      } else if Old(b) {
        OldComesBeforeNewExactlyWhen(b, a);
      } else {
        SortKeysAreChronological(ParseMeta(b).value, ParseMeta(a).value);
      }
    }
  }

  // ----- what is chosen -----

  lemma {:induction false} KeepsInOrder(files: seq<string>, batch: Option<nat>)
    requires SortedBy(files, FileSortKey)
    ensures SortedBy(Keep(files, batch), FileSortKey)
    ensures forall x :: x in Keep(files, batch) <==> x in files && InBatch(batch, x)
  {
    if files != [] {
      var most, last := files[..|files| - 1], files[|files| - 1];
      KeepsInOrder(most, batch);
      InitAndLast(files);
      forall i | 0 <= i < |Keep(most, batch)| ensures !Less(FileSortKey(last), FileSortKey(Keep(most, batch)[i])) {
        assert Keep(most, batch)[i] in most;
      }
      AppendSorted(Keep(most, batch), last, FileSortKey);
    }
  }

  /** The chosen files are exactly those of the requested batch, in the order of their sort keys. */
  lemma ChosenFiles(files: seq<string>, batch: Option<nat>)
    ensures forall x :: x in ChooseAllFiles(files, batch) <==> x in files && InBatch(batch, x)
    ensures SortedBy(ChooseAllFiles(files, batch), FileSortKey)
    ensures batch.Some? ==> forall x :: x in ChooseAllFiles(files, batch) ==> ParseMeta(x).Some?
    ensures ChooseFiles(files, batch).None? <==> |ChooseAllFiles(files, batch)| < 2
  {
    SortSorts(files, FileSortKey);
    SortHasTheSame(files, FileSortKey);
    KeepsInOrder(SortBy(files, FileSortKey), batch);
  }

  /** Each file is chosen as often as it is there, if no batch was asked for or its name has that batch. */
  lemma ChosenAsOftenAsThere(files: seq<string>, batch: Option<nat>, x: string)
    ensures multiset(ChooseAllFiles(files, batch))[x]
            == if batch.None? || (ParseMeta(x).Some? && ParseMeta(x).value.batch == batch) then multiset(files)[x]
               else 0
  {
    SortKeeps(files, FileSortKey);
    KeepsEach(SortBy(files, FileSortKey), batch, x);
  }

  lemma {:induction false} KeepsEach(files: seq<string>, batch: Option<nat>, x: string)
    ensures multiset(Keep(files, batch))[x] == if InBatch(batch, x) then multiset(files)[x] else 0
  {
    if files != [] {
      KeepsEach(files[..|files| - 1], batch, x);
      InitAndLast(files);
    }
  }

  /** Two names are dated the same, to the minute, or in the old format to the second. */
  predicate SameDate(a: string, b: string) {
    match (ParseMeta(a), ParseMeta(b))
    case (Some(m), Some(n)) => m.year == n.year && m.month == n.month && m.day == n.day && m.time == n.time
    case (None, None) => OldDate(a) == OldDate(b)
    case (_, _) => false
  }

  /** Names of one date, and names without any, are in the order of the names themselves. */
  lemma SameDatesByName(a: string, b: string)
    requires SameDate(a, b)
    ensures Less(FileSortKey(a), FileSortKey(b)) <==> Before(a + ".xml", b + ".xml")
  {
    BeforeItself(FileSortKey(a).0);
    BeforeItself("");
  }

  lemma DigitFirst(d: string, stem: string)
    requires d != "" && Digit(d[0]) && stem != "" && stem[0] > '9'
    ensures Before(d, stem + ".xml") && !Before(stem + ".xml", d)
  {
    assert (stem + ".xml")[0] == stem[0];
  }

  /** A name without a date that begins with a letter comes after all dated ones. */
  lemma UndatedComeLast(dated: string, stem: string)
    requires When(dated).Some? && When(stem).None? && stem != "" && stem[0] > '9'
    ensures Less(FileSortKey(dated), FileSortKey(stem)) && !Less(FileSortKey(stem), FileSortKey(dated))
  {
    if ParseMeta(dated).Some? {
      assert FileSortKey(dated).0[0] == ParseMeta(dated).value.year[0];
    } else {
      assert OldDate(dated).value[..4][0] == OldDate(dated).value[0];
    }
    DigitFirst(FileSortKey(dated).0, stem);
    LessIsStrict(FileSortKey(dated), FileSortKey(stem));
  }

  /** Without a batch, some file with an old name is out of order with this one. */
  ghost predicate Misplaced(files: seq<string>, batch: Option<nat>, dated: string) {
    batch == None && exists i :: 0 <= i < |files| && OutOfOrder(files[i], dated)
  }

  ghost predicate FollowsInTime(chosen: seq<string>, j: nat)
    requires j < |chosen|
  {
    forall i :: 0 <= i < j ==> InTime(chosen[i], chosen[j])
  }

  lemma MisplacedDoesNotFollow(files: seq<string>, j: nat, k: nat)
    requires j < |ChooseAllFiles(files, None)| && k < |files|
    requires OutOfOrder(files[k], ChooseAllFiles(files, None)[j])
    ensures !FollowsInTime(ChooseAllFiles(files, None), j)
  {
    var chosen := ChooseAllFiles(files, None);
    ChosenFiles(files, None);
    assert InBatch(None, files[k]) && files[k] in chosen;
    var i :| 0 <= i < |chosen| && chosen[i] == files[k];
    OldComesBeforeNewExactlyWhen(files[k], chosen[j]);
    LesserComesFirst(chosen, FileSortKey, i, j);
    SortedInTimeExactlyWhen(chosen[i], chosen[j]);
  }

  lemma OnlyMisplacedDoNotFollow(files: seq<string>, batch: Option<nat>, i: nat, j: nat)
    requires i < j < |ChooseAllFiles(files, batch)|
    requires !Misplaced(files, batch, ChooseAllFiles(files, batch)[j])
    ensures InTime(ChooseAllFiles(files, batch)[i], ChooseAllFiles(files, batch)[j])
  {
    var chosen := ChooseAllFiles(files, batch);
    ChosenFiles(files, batch);
    assert chosen[i] in chosen;
    var k :| 0 <= k < |files| && files[k] == chosen[i];
    assert batch.None? ==> !OutOfOrder(files[k], chosen[j]);
    SortedInTimeExactlyWhen(chosen[i], chosen[j]);
  }

  /** A chosen file has none that is later in front of it exactly if it is not out of order with an old name. */
  lemma FollowsInTimeExactlyWhen(files: seq<string>, batch: Option<nat>, j: nat)
    requires j < |ChooseAllFiles(files, batch)|
    ensures FollowsInTime(ChooseAllFiles(files, batch), j) <==>
            !Misplaced(files, batch, ChooseAllFiles(files, batch)[j])
  {
    if Misplaced(files, batch, ChooseAllFiles(files, batch)[j]) {
      var k :| 0 <= k < |files| && OutOfOrder(files[k], ChooseAllFiles(files, None)[j]);
      MisplacedDoesNotFollow(files, j, k);
    } else {
      forall i | 0 <= i < j ensures InTime(ChooseAllFiles(files, batch)[i], ChooseAllFiles(files, batch)[j]) {
        OnlyMisplacedDoNotFollow(files, batch, i, j);
      }
    }
  }

  /**
    The dated files of a directory come in order of time exactly if no old name is out of order with
    a new one; those of a batch, which all have new names, always do.
   */
  lemma ChosenInTimeExactlyWhen(files: seq<string>, batch: Option<nat>)
    ensures var chosen := ChooseAllFiles(files, batch);
            (forall j :: 0 <= j < |chosen| ==> FollowsInTime(chosen, j)) <==>
            forall k :: 0 <= k < |files| ==> !Misplaced(files, batch, files[k])
  {
    var chosen := ChooseAllFiles(files, batch);
    ChosenFiles(files, batch);
    forall j | 0 <= j < |chosen| ensures FollowsInTime(chosen, j) <==> !Misplaced(files, batch, chosen[j]) {
      FollowsInTimeExactlyWhen(files, batch, j);
    }
    if k :| 0 <= k < |files| && Misplaced(files, batch, files[k]) {
      assert files[k] in chosen;
      var j :| 0 <= j < |chosen| && chosen[j] == files[k];
      assert !FollowsInTime(chosen, j);
    }
    if j :| 0 <= j < |chosen| && !FollowsInTime(chosen, j) {
      assert chosen[j] in chosen;
      var k :| 0 <= k < |files| && files[k] == chosen[j];
      assert Misplaced(files, batch, files[k]);
    }
  }

  /** The last two are in order of time, and none of the others is later than either. */
  ghost predicate LatestTwo(chosen: seq<string>)
    requires |chosen| >= 2
  {
    FollowsInTime(chosen, |chosen| - 2) && FollowsInTime(chosen, |chosen| - 1)
  }

  /** `choose_files` returns the last two, the two latest exactly if neither is out of order with an old name. */
  lemma TheTwoLatestExactlyWhen(files: seq<string>, batch: Option<nat>)
    requires |ChooseAllFiles(files, batch)| >= 2
    ensures var chosen, n := ChooseAllFiles(files, batch), |ChooseAllFiles(files, batch)|;
            && ChooseFiles(files, batch) == Some((chosen[n - 2], chosen[n - 1]))
            && (LatestTwo(chosen) <==>
                !Misplaced(files, batch, chosen[n - 2]) && !Misplaced(files, batch, chosen[n - 1]))
  {
    var n := |ChooseAllFiles(files, batch)|;
    FollowsInTimeExactlyWhen(files, batch, n - 2);
    FollowsInTimeExactlyWhen(files, batch, n - 1);
  }

  // ----- two reports out of order -----

  /** The end of a name in either format. */
  function OldSuffix(year: string, month: string, day: string, hour: string, minute: string, second: string): string {
    "-" + OldDateOf(year, month, day, hour, minute, second)
  }

  function OldDateOf(year: string, month: string, day: string, hour: string, minute: string, second: string): string {
    year + ("-" + (month + ("-" + (day + ("-" + (hour + ("_" + (minute + ("_" + second)))))))))
  }

  function NewSuffix(day: string, month: string, year: string, time: string, parallel: string): string {
    "-" + (day + (month + (year + ("-" + (time + ("-par" + parallel))))))
  }

  predicate Number(s: string, length: nat) {
    |s| == length && AllDigits(s)
  }

  predicate NoDigits(s: string) {
    forall i :: 0 <= i < |s| ==> !Digit(s[i])
  }

  /** A reading that moves on where no digit follows moves on over text without digits. */
  lemma {:induction false} MovesOn<T>(read: string -> T, a: string, b: string)
    requires forall s :: |s| >= 2 && !Digit(s[0]) && !Digit(s[1]) ==> read(s) == read(s[1..])
    requires NoDigits(a) && b != "" && !Digit(b[0])
    ensures read(a + b) == read(b)
  {
    if a == "" {
      assert a + b == b;
    } else {
      MovesOn(read, a[1..], b);
      assert (a + b)[1..] == a[1..] + b && (a + b)[0] == a[0];
    }
  }

  /** No date begins in text without digits. */
  lemma SkipWords(a: string, b: string)
    requires NoDigits(a) && b != "" && !Digit(b[0])
    ensures ParseMeta(a + b) == ParseMeta(b) && OldDate(a + b) == OldDate(b)
  {
    forall s: string | |s| >= 2 && !Digit(s[0]) && !Digit(s[1])
      ensures ParseMeta(s) == ParseMeta(s[1..]) && OldDate(s) == OldDate(s[1..])
    {
      DateAfterWord(s);
    }
    MovesOn(s => ParseMeta(s), a, b);
    MovesOn(s => OldDate(s), a, b);
  }

  lemma DateAfterWord(s: string)
    requires |s| >= 2 && !Digit(s[0]) && !Digit(s[1])
    ensures ParseMeta(s) == ParseMeta(s[1..]) && OldDate(s) == OldDate(s[1..])
  {
    NoDateAtWord(s);
  }

  lemma NoDateAtWord(s: string)
    requires |s| >= 2 && !Digit(s[0]) && !Digit(s[1])
    ensures MetaAt(s).None? && !OldDateAt(s)
  {
    if |s| >= 18 {
      assert s[1..9][0] == s[1];
    }
    if |s| >= 19 {
      assert s[..4][0] == s[0];
    }
  }

  lemma OldDateReadsBack(year: string, month: string, day: string, hour: string, minute: string, second: string)
    requires Number(year, 4) && Number(month, 2) && Number(day, 2)
    requires Number(hour, 2) && Number(minute, 2) && Number(second, 2)
    ensures var d := OldDateOf(year, month, day, hour, minute, second);
            && |d| == 19 && OldDateAt(d) && OldMeta(d) == Meta(day, month, year, hour + minute, 0, 0, None, None)
  {
    var d, t := OldDateOf(year, month, day, hour, minute, second), hour + ("_" + (minute + ("_" + second)));
    ClockReadsBack(hour, minute, second);
    DayReadsBack(year, month, day, t);
    SliceOfDrop(d, 11, 0, 2);
    SliceOfDrop(d, 11, 3, 5);
    SliceOfDrop(d, 11, 6, 8);
    assert d[13] == d[11..][2] && d[16] == d[11..][5];
  }

  lemma SliceOfDrop(s: string, n: nat, i: nat, j: nat)
    requires i <= j && n + j <= |s|
    ensures s[n..][i..j] == s[n + i..n + j]
  {}

  lemma DayReadsBack(year: string, month: string, day: string, t: string)
    requires |year| == 4 && |month| == |day| == 2
    ensures var d := year + ("-" + (month + ("-" + (day + ("-" + t)))));
            && |d| == 11 + |t| && d[..4] == year && d[4] == '-' && d[5..7] == month && d[7] == '-'
            && d[8..10] == day && d[10] == '-' && d[11..] == t
  {}

  lemma ClockReadsBack(hour: string, minute: string, second: string)
    requires |hour| == |minute| == |second| == 2
    ensures var t := hour + ("_" + (minute + ("_" + second)));
            |t| == 8 && t[..2] == hour && t[2] == '_' && t[3..5] == minute && t[5] == '_' && t[6..8] == second
  {}

  /** An old name is read by the fallback, as no new date fits into it. */
  lemma OldNameReadsBack(name: string, year: string, month: string, day: string,
                         hour: string, minute: string, second: string)
    requires NoDigits(name)
    requires Number(year, 4) && Number(month, 2) && Number(day, 2)
    requires Number(hour, 2) && Number(minute, 2) && Number(second, 2)
    ensures var stem := name + OldSuffix(year, month, day, hour, minute, second);
            Old(stem) && When(stem) == Some(Meta(day, month, year, hour + minute, 0, 0, None, None))
  {
    var s, d := OldSuffix(year, month, day, hour, minute, second), OldDateOf(year, month, day, hour, minute, second);
    OldDateReadsBack(year, month, day, hour, minute, second);
    SkipWords(name, s);
    assert s[1..] == d && d[..19] == d && s[..4][0] == '-';
    assert s[1..9][4] == '-';
    NoNewDate(d);
  }

  /** A new date needs a sign and seventeen characters after it. */
  lemma NoNewDate(d: string)
    requires |d| == 19 && Digit(d[0]) && Digit(d[1])
    ensures ParseMeta(d).None?
  {
    assert d[1..][0] == d[1];
    TooShort(d[1..][1..]);
  }

  lemma {:induction false} TooShort(s: string)
    requires |s| < 18
    ensures ParseMeta(s).None?
  {
    if s != "" {
      TooShort(s[1..]);
    }
  }

  lemma {:induction false} DigitsLengthOf(s: string)
    requires AllDigits(s)
    ensures DigitsLength(s) == |s|
  {
    if s != "" {
      DigitsLengthOf(s[1..]);
    }
  }

  lemma NewNameReadsBack(name: string, day: string, month: string, year: string, time: string, parallel: string)
    requires NoDigits(name)
    requires Number(day, 2) && Number(month, 2) && Number(year, 4) && Number(time, 4)
    requires parallel != "" && AllDigits(parallel)
    ensures ParseMeta(name + NewSuffix(day, month, year, time, parallel))
            == Some(Meta(day, month, year, time, Value(parallel), 0, None, None))
  {
    FullNameReadsBack(name, day, month, year, time, parallel, None, None, None);
    assert parallel + Tail(None, None, None) == parallel;
  }

  /** What may follow the parallel count: a duration, a runner and a batch, each or none of them. */
  function Tail(duration: Option<string>, runner: Option<string>, batch: Option<string>): string {
    (if duration.Some? then "-" + (duration.value + "sec") else "")
    + ((if runner.Some? then "-" + runner.value else "") + (if batch.Some? then "-run" + batch.value else ""))
  }

  predicate NumberOrNone(s: Option<string>) {
    s.Some? ==> s.value != "" && AllDigits(s.value)
  }

  function ValueOrNone(s: Option<string>): Option<nat>
    requires NumberOrNone(s)
  {
    match s
    case Some(n) => Some(Value(n))
    case None => None
  }

  lemma {:induction false} DigitsThen(a: string, b: string)
    requires AllDigits(a) && (b == "" || !Digit(b[0]))
    ensures DigitsLength(a + b) == |a|
  {
    if a == "" {
      assert a + b == b;
    } else {
      DigitsThen(a[1..], b);
      assert (a + b)[1..] == a[1..] + b;
    }
  }

  lemma BatchReadsBack(batch: Option<string>)
    requires NumberOrNone(batch)
    ensures var t := Tail(None, None, batch); BatchAt(t) == ValueOrNone(batch) && RunnerAt(t) == (None, t)
  {
    var t := Tail(None, None, batch);
    if batch.Some? {
      var b := batch.value;
      DigitsLengthOf(b);
      assert t == "-run" + b && t[4..] == b && b[..|b|] == b;
    } else {
      assert t == "";
    }
  }

  lemma SelfHosted(rest: string)
    ensures RunnerAt("-self-hosted" + rest) == (Some("self-hosted"), rest)
  {
    assert ("-self-hosted" + rest)[12..] == rest;
  }

  lemma Ubuntu(rest: string)
    ensures RunnerAt("-ubuntu" + rest) == (Some("ubuntu"), rest)
  {
    var t := "-ubuntu" + rest;
    assert t[7..] == rest && t[1] == 'u' && "-self-hosted"[1] == 's';
  }

  predicate RunnerOrNone(runner: Option<string>) {
    runner in {None, Some("self-hosted"), Some("ubuntu")}
  }

  lemma RunnerReadsBack(runner: Option<string>, batch: Option<string>)
    requires NumberOrNone(batch) && RunnerOrNone(runner)
    ensures RunnerAt(Tail(None, runner, batch)) == (runner, Tail(None, None, batch))
  {
    var t, rest := Tail(None, runner, batch), Tail(None, None, batch);
    if runner == Some("self-hosted") {
      assert t == "-self-hosted" + rest;
      SelfHosted(rest);
    } else if runner == Some("ubuntu") {
      assert t == "-ubuntu" + rest;
      Ubuntu(rest);
    } else {
      BatchReadsBack(batch);
    }
  }

  /** Where a runner or a batch is to follow, there is no duration. */
  lemma NoDuration(runner: Option<string>, batch: Option<string>)
    requires RunnerOrNone(runner)
    ensures var t := Tail(None, runner, batch); DurationAt(t) == (0, t)
  {
    var t := Tail(None, runner, batch);
    if t != "" {
      var word := if runner.Some? then runner.value else "run";
      assert t[1] == word[0];
      assert DigitsLength(t[1..]) == 0;
    }
  }

  lemma DurationReadsBack(duration: Option<string>, runner: Option<string>, batch: Option<string>)
    requires NumberOrNone(duration) && RunnerOrNone(runner)
    ensures DurationAt(Tail(duration, runner, batch))
            == (if duration.Some? then Value(duration.value) else 0, Tail(None, runner, batch))
  {
    var t, rest := Tail(duration, runner, batch), Tail(None, runner, batch);
    match duration {
      case Some(d) =>
        assert t == "-" + (d + ("sec" + rest));
        assert t[1..] == d + ("sec" + rest);
        DigitsThen(d, "sec" + rest);
        assert t[1..][..|d|] == d && t[1..][|d|..] == "sec" + rest && ("sec" + rest)[3..] == rest;
      case None =>
        assert t == rest;
        NoDuration(runner, batch);
    }
  }

  /** A name written to the documented format is read as it was meant, whichever parts it has. */
  lemma FullNameReadsBack(name: string, day: string, month: string, year: string, time: string, parallel: string,
                          duration: Option<string>, runner: Option<string>, batch: Option<string>)
    requires NoDigits(name)
    requires Number(day, 2) && Number(month, 2) && Number(year, 4) && Number(time, 4)
    requires parallel != "" && AllDigits(parallel)
    requires NumberOrNone(duration) && RunnerOrNone(runner) && NumberOrNone(batch)
    ensures ParseMeta(name + NewSuffix(day, month, year, time, parallel + Tail(duration, runner, batch)))
            == Some(Meta(day, month, year, time, Value(parallel), if duration.Some? then Value(duration.value) else 0,
                         runner, ValueOrNone(batch)))
  {
    var tail := Tail(duration, runner, batch);
    SkipWords(name, NewSuffix(day, month, year, time, parallel + tail));
    TailBeginsWithASign(duration, runner, batch);
    DurationReadsBack(duration, runner, batch);
    RunnerReadsBack(runner, batch);
    BatchReadsBack(batch);
    NewSuffixReadsBack(day, month, year, time, parallel, tail);
  }

  lemma NewSuffixReadsBack(day: string, month: string, year: string, time: string, parallel: string, tail: string)
    requires Number(day, 2) && Number(month, 2) && Number(year, 4) && Number(time, 4)
    requires parallel != "" && AllDigits(parallel) && (tail == "" || tail[0] == '-')
    ensures var (duration, afterDuration) := DurationAt(tail);
            var (runner, afterRunner) := RunnerAt(afterDuration);
            MetaAt(NewSuffix(day, month, year, time, parallel + tail))
            == Some(Meta(day, month, year, time, Value(parallel), duration, runner, BatchAt(afterRunner)))
  {
    NewParts(day, month, year, time, parallel + tail);
    DigitsThen(parallel, tail);
    MetaOfParts(NewSuffix(day, month, year, time, parallel + tail), parallel, tail);
  }

  lemma TailBeginsWithASign(duration: Option<string>, runner: Option<string>, batch: Option<string>)
    ensures var t := Tail(duration, runner, batch); t == "" || t[0] == '-'
  {}

  /** The suffix by its parts. */
  lemma MetaOfParts(s: string, parallel: string, tail: string)
    requires |s| >= 18 && s[0] == '-' && AllDigits(s[1..9]) && s[9] == '-' && AllDigits(s[10..14])
    requires s[14..18] == "-par" && s[18..] == parallel + tail && DigitsLength(parallel + tail) == |parallel| > 0
    ensures AllDigits(parallel)
    ensures var (duration, afterDuration) := DurationAt(tail);
            var (runner, afterRunner) := RunnerAt(afterDuration);
            MetaAt(s) == Some(Meta(s[1..3], s[3..5], s[5..9], s[10..14], Value(parallel), duration, runner,
                                   BatchAt(afterRunner)))
  {
    assert (parallel + tail)[..|parallel|] == parallel && (parallel + tail)[|parallel|..] == tail;
  }

  lemma NewParts(day: string, month: string, year: string, time: string, parallel: string)
    requires |day| == |month| == 2 && |year| == |time| == 4
    ensures var s := NewSuffix(day, month, year, time, parallel);
            && |s| == 18 + |parallel| && s[0] == '-' && s[9] == '-'
            && s[1..3] == day && s[3..5] == month && s[5..9] == year
            && s[10..14] == time && s[14..18] == "-par" && s[18..] == parallel
            && s[1..9] == day + (month + year)
  {
    var t := "-" + (time + ("-par" + parallel));
    var s := NewSuffix(day, month, year, time, parallel);
    assert s[9..] == t && t[1..5] == time && t[5..9] == "-par" && t[9..] == parallel;
    assert s[10..14] == t[1..5] && s[14..18] == t[5..9] && s[18..] == t[9..];
  }

  /**
    Any two reports of one year, the later one named in the old format, are chosen in the wrong
    order: the earlier one is returned as the newest.
   */
  lemma ChosenOutOfOrder(name: string, year: string, month: string, day: string,
                         hour: string, minute: string, second: string, m: Meta)
    requires NoDigits(name)
    requires Number(year, 4) && Number(month, 2) && Number(day, 2)
    requires Number(hour, 2) && Number(minute, 2) && Number(second, 2)
    requires Dated(m) && m.year == year && Earlier(m, Meta(day, month, year, hour + minute, 0, 0, None, None))
    ensures var oldName := name + OldSuffix(year, month, day, hour, minute, second);
            var newName := name + NewSuffix(m.day, m.month, m.year, m.time, "1");
            && OutOfOrder(oldName, newName)
            && ChooseFiles([newName, oldName], None) == Some((oldName, newName))
  {
    var oldName := name + OldSuffix(year, month, day, hour, minute, second);
    var newName := name + NewSuffix(m.day, m.month, m.year, m.time, "1");
    OldNameReadsBack(name, year, month, day, hour, minute, second);
    NewNameReadsBack(name, m.day, m.month, m.year, m.time, "1");
    OldComesBeforeNewExactlyWhen(oldName, newName);
    SortTwo(newName, oldName);
  }

  lemma SortTwo(first: string, second: string)
    requires Less(FileSortKey(second), FileSortKey(first))
    ensures ChooseFiles([first, second], None) == Some((second, first))
  {
    var files := [first, second];
    assert files[..1] == [first] && [first][..0] == [] && [second] + [first] == [second, first];
    assert SortBy([first], FileSortKey) == [first];
    assert InsertBy([first], second, FileSortKey) == InsertBy([], second, FileSortKey) + [first];
    assert SortBy(files, FileSortKey) == [second, first];
    assert [second, first][..1] == [second] && [second][..0] == [];
    assert Keep([second], None) == [second];
  }

  /** The reports of New Year's Day 2025, in the new format, and of the New Year's Eve after it, in the old one. */
  lemma ANewYearsEveComesFirst(name: string)
    requires NoDigits(name)
    ensures var oldName := name + OldSuffix("2025", "12", "31", "23", "59", "59");
            var newName := name + NewSuffix("01", "01", "2025", "0000", "1");
            && OutOfOrder(oldName, newName)
            && ChooseFiles([newName, oldName], None) == Some((oldName, newName))
  {
    var m := Meta("01", "01", "2025", "0000", 1, 0, None, None);
    DigitsByValue("01", "12");
    ChosenOutOfOrder(name, "2025", "12", "31", "23", "59", "59", m);
  }

  // ----- groups by parallel count -----

  function InGroup(files: seq<string>, parallel: nat): seq<string> {
    if files == [] then []
    else
      var m := ParseMeta(files[|files| - 1]);
      InGroup(files[..|files| - 1], parallel) +
      if m.Some? && m.value.parallel == parallel then [files[|files| - 1]] else []
  }

  function Undated(files: seq<string>): seq<string> {
    if files == [] then []
    else Undated(files[..|files| - 1]) + if ParseMeta(files[|files| - 1]).None? then [files[|files| - 1]] else []
  }

  function Group(groups: map<nat, seq<string>>, p: nat): seq<string> {
    if p in groups then groups[p] else []
  }

  function Size(p: nat, group: seq<string>): nat {
    |group|
  }

  /** Every file is in one place, and in its own. */
  ghost predicate Grouped(groups: map<nat, seq<string>>, ungrouped: seq<string>, files: seq<string>) {
    && (forall p :: Group(groups, p) == InGroup(files, p))
    && (forall p :: p in groups ==> groups[p] != [])
    && ungrouped == Undated(files)
    && SumOf(groups, Size) + |ungrouped| == |files|
  }

  function Place(groups: map<nat, seq<string>>, p: nat, file: string): map<nat, seq<string>> {
    groups[p := Group(groups, p) + [file]]
  }

  lemma PlaceOne(groups: map<nat, seq<string>>, ungrouped: seq<string>, files: seq<string>, file: string)
    requires Grouped(groups, ungrouped, files) && ParseMeta(file).Some?
    ensures Grouped(Place(groups, ParseMeta(file).value.parallel, file), ungrouped, files + [file])
  {
    var here := ParseMeta(file).value.parallel;
    var more, after := files + [file], Place(groups, here, file);
    assert more[..|more| - 1] == files;
    GrowGroup(groups, here, file);
    forall p ensures Group(after, p) == InGroup(more, p) {
      assert p == here || Group(after, p) == Group(groups, p);
    }
  }

  lemma SetAside(groups: map<nat, seq<string>>, ungrouped: seq<string>, files: seq<string>, file: string)
    requires Grouped(groups, ungrouped, files) && ParseMeta(file).None?
    ensures Grouped(groups, ungrouped + [file], files + [file])
  {
    var more := files + [file];
    assert more[..|more| - 1] == files;
    forall p ensures InGroup(more, p) == InGroup(files, p) {}
  }

  /** The grouping of `build_explain_parallel_report`. */
  method GroupByParallel(files: seq<string>) returns (groups: map<nat, seq<string>>, ungrouped: seq<string>)
    ensures Grouped(groups, ungrouped, files)
  {
    groups, ungrouped := map[], [];
    for i := 0 to |files|
      invariant Grouped(groups, ungrouped, files[..i])
    {
      assert files[..i + 1] == files[..i] + [files[i]];
      match ParseMeta(files[i]) {
        case Some(m) =>
          PlaceOne(groups, ungrouped, files[..i], files[i]);
          groups := Place(groups, m.parallel, files[i]);
        case None =>
          SetAside(groups, ungrouped, files[..i], files[i]);
          ungrouped := ungrouped + [files[i]];
      }
    }
    assert files[..|files|] == files;
  }

  lemma GrowGroup(groups: map<nat, seq<string>>, p: nat, file: string)
    ensures SumOf(Place(groups, p, file), Size) == SumOf(groups, Size) + 1
  {
    if p in groups {
      SumUpdate(groups, Size, p, groups[p] + [file]);
    } else {
      assert Group(groups, p) + [file] == [file];
      SumInsert(groups, Size, p, [file]);
    }
  }
}
