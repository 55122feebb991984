/**
  What the decoder of srcRs/HDDS/src/main.rs makes of a body that was sent without its DHEADER.
  Up to a colour of 14 bytes it reads it rightly.  The length of a longer colour reads as a
  header, and the first four bytes of the colour as its length; the theorem at the end says
  exactly which colours come back whole all the same.
 */
module BareBody {
  import opened Bytes
  import opened Sequences
  import opened Utf8
  import opened Codec

  // ----- valid text, padded with zero bytes and cut -----

  lemma {:induction false} ZerosAreValid(n: nat)
    ensures Valid(Zeros(n))
  {
    if n > 0 {
      ZerosAreValid(n - 1);
      assert Zeros(n)[1..] == Zeros(n - 1);
    }
  }

  lemma PaddedTake(v: seq<byte>, zeros: nat, k: nat)
    requires k <= zeros
    ensures (v + Zeros(zeros))[..|v| + k] == v + Zeros(k)
  {
    TakeOfAppend(v, Zeros(zeros), k);
    ZerosTake(zeros, k);
  }

  lemma ZerosTake(zeros: nat, k: nat)
    requires k <= zeros
    ensures Zeros(zeros)[..k] == Zeros(k)
  {}

  lemma PaddedIsText(v: seq<byte>, k: nat)
    requires Valid(v)
    ensures Lossy(v + Zeros(k)) == v + Zeros(k)
  {
    ZerosAreValid(k);
    ValidAppend(v, Zeros(k));
    LossyKeepsValid(v + Zeros(k));
  }

  lemma PaddedText(v: seq<byte>, zeros: nat, k: nat)
    requires Valid(v) && k <= zeros
    ensures Lossy((v + Zeros(zeros))[..|v| + k]) == v + Zeros(k)
  {
    PaddedTake(v, zeros, k);
    PaddedIsText(v, k);
  }

  lemma CutText(v: seq<byte>, zeros: nat, w: nat)
    requires Valid(v) && w < |v|
    ensures (v + Zeros(zeros))[..w] == v[..w] && |Lossy(v[..w])| <= w + 2
  {
    LossyOfCutText(v, w);
  }

  // ----- a colour that lost its first four bytes -----

  /** What is read: the rest of the colour and the padding, cut at `w` and repaired. */
  function Repaired(color: seq<byte>, zeros: nat, w: nat): seq<byte>
    requires |color| >= 4 && w <= |color| - 4 + zeros
  {
    Lossy((color[4..] + Zeros(zeros))[..w])
  }

  /** Cut between two characters, the colour stays shorter than it was. */
  lemma CutBetweenCharacters(color: seq<byte>, zeros: nat, w: nat)
    requires |color| >= 4 && Valid(color[4..]) && w < |color| && w <= |color| - 4 + zeros
    ensures |Repaired(color, zeros, w)| < |color|
  {
    if w < |color[4..]| {
      CutText(color[4..], zeros, w);
    } else {
      PaddedText(color[4..], zeros, w - |color[4..]|);
    }
  }

  /** Cut inside a character, each byte left of it becomes U+FFFD. */
  lemma CutInsideACharacter(color: seq<byte>, zeros: nat, w: nat, j: nat)
    requires 4 + j <= |color| && j <= w <= |color| - 4 + zeros
    requires forall i :: 4 <= i < 4 + j ==> Continuation(color[i])
    ensures Repaired(color, zeros, w) == Replacements(j) + Lossy((color[4 + j..] + Zeros(zeros))[..w - j])
  {
    var padded := color[4..] + Zeros(zeros);
    forall i | 0 <= i < j ensures Continuation(padded[..w][i]) {
      assert padded[..w][i] == color[4 + i];
    }
    LossyOfStrays(padded[..w], j);
    DropOfTake(padded, j, w);
    DropOfAppend(color[4..], Zeros(zeros), j);
    DropDrop(color, 4, j);
  }

  /** A colour whose third character was cut in two has bytes left over from it. */
  lemma LeftOver(color: seq<byte>, b: nat)
    requires |color| > 4 && Around(color, 4, b) && b < 4
    ensures var n := Scan(color[b..]).size;
            && 4 < b + n <= |color| && Valid(color[b + n..])
            && forall i :: 4 <= i < b + n ==> Continuation(color[i])
  {
    var c := color[b..];
    forall i | 4 <= i < b + Scan(c).size ensures Continuation(color[i]) {
      TailOfChar(c, i - b);
      assert c[i - b] == color[i];
    }
    DropDrop(color, b, Scan(c).size);
  }

  // ----- the two ways to come back whole -----

  const TWO_REPLACEMENTS: seq<byte> := [0xEF, 0xBF, 0xBD, 0xEF, 0xBF, 0xBD]

  /** The first four bytes of two U+FFFD, read as a length. */
  const REPLACEMENT_LENGTH: nat := 0xEFBDBFEF

  /** Two U+FFFD in front, and a length that the padding hides; or one more byte and a third U+FFFD at the end. */
  predicate Survives(color: seq<byte>) {
    && |color| >= 6 && color[..6] == TWO_REPLACEMENTS
    && (|color| == REPLACEMENT_LENGTH + 3 || (|color| == REPLACEMENT_LENGTH + 4 && color[|color| - 3..] == REPLACEMENT))
  }

  /** Text that is its own rest two bytes on, with two zero bytes at the end, is all zero. */
  lemma {:induction false} ShiftedByTwo(u: seq<byte>, i: nat)
    requires |u| >= 2 && u == u[2..] + [0, 0] && i < |u|
    ensures u[i] == 0
    decreases |u| - i
  {
    if i + 2 < |u| {
      ShiftedByTwo(u, i + 2);
      assert u[i] == (u[2..] + [0, 0])[i] == u[i + 2];
    } else {
      assert u[i] == [0, 0][i - (|u| - 2)];
    }
  }

  /** With one byte left over the colour would have to repeat itself down to its zero padding. */
  lemma OneByteLeftOver(color: seq<byte>, zeros: nat, w: nat)
    requires |color| >= 15 && color[3] >= 0x80 && Valid(color[5..]) && Continuation(color[4])
    requires 1 <= w < |color| && w <= |color| - 4 + zeros
    ensures Repaired(color, zeros, w) != color
  {
    var v := color[5..];
    CutInsideACharacter(color, zeros, w, 1);
    var rest := Lossy((v + Zeros(zeros))[..w - 1]);
    assert Replacements(1) == REPLACEMENT + [] == REPLACEMENT;
    SameFrontMeansSameRest(REPLACEMENT, rest, color);
    if w - 1 < |v| {
      CutText(v, zeros, w - 1);
    } else {
      PaddedText(v, zeros, w - 1 - |v|);
      NotShifted(color);
    }
  }

  lemma NotShifted(color: seq<byte>)
    requires |color| >= 15 && color[3] >= 0x80
    ensures forall n :: color[3..] != color[5..] + Zeros(n)
  {
    var u := color[3..];
    DropDrop(color, 3, 2);
    assert Zeros(2) == [0, 0];
    if u == u[2..] + [0, 0] {
      ShiftedByTwo(u, 0);
    }
    forall n ensures u != color[5..] + Zeros(n) {
      assert |color[5..] + Zeros(n)| == |u| - 2 + n;
    }
  }

  lemma SameFrontMeansSameRest(front: seq<byte>, rest: seq<byte>, s: seq<byte>)
    requires |front| <= |s|
    ensures front + rest == s <==> s[..|front|] == front && rest == s[|front|..]
  {
    TakeAndDrop(s, |front|);
    assert front + rest == s ==> s[..|front|] == front && s[|front|..] == rest;
  }

  /** With two bytes left over, of U+FFFD itself, the rest is intact or its last character repaired. */
  lemma TwoBytesLeftOver(color: seq<byte>, zeros: nat, w: nat)
    requires |color| >= 15 && color[..6] == TWO_REPLACEMENTS && Valid(color[6..])
    requires |color| - 5 <= w < |color| && w <= |color| - 4 + zeros
    ensures Repaired(color, zeros, w) == color <==>
            w == |color| - 4 || (w == |color| - 5 && color[|color| - 3..] == REPLACEMENT)
  {
    TwoStrays(color, zeros, w);
    SameFrontMeansSameRest(TWO_REPLACEMENTS, Lossy((color[6..] + Zeros(zeros))[..w - 2]), color);
    RestOfTwo(color, zeros, w);
  }

  lemma TwoStrays(color: seq<byte>, zeros: nat, w: nat)
    requires |color| >= 15 && color[..6] == TWO_REPLACEMENTS
    requires 2 <= w <= |color| - 4 + zeros
    ensures Repaired(color, zeros, w) == TWO_REPLACEMENTS + Lossy((color[6..] + Zeros(zeros))[..w - 2])
  {
    assert forall i :: 0 <= i < 6 ==> color[i] == color[..6][i];
    CutInsideACharacter(color, zeros, w, 2);
    assert Replacements(2) == REPLACEMENT + (REPLACEMENT + []) == TWO_REPLACEMENTS;
  }

  /** The rest after two U+FFFD is read back exactly if it is all there, or lacks a byte of a last U+FFFD. */
  lemma RestOfTwo(color: seq<byte>, zeros: nat, w: nat)
    requires |color| >= 15 && Valid(color[6..])
    requires |color| - 5 <= w < |color| && w <= |color| - 4 + zeros
    ensures Lossy((color[6..] + Zeros(zeros))[..w - 2]) == color[6..] <==>
            w == |color| - 4 || (w == |color| - 5 && color[|color| - 3..] == REPLACEMENT)
  {
    var v := color[6..];
    if w - 2 < |v| {
      CutText(v, zeros, w - 2);
      LossyWithoutLastByte(v);
      DropDrop(color, 6, |v| - 3);
    } else {
      PaddedText(v, zeros, w - 2 - |v|);
      assert v + Zeros(0) == v;
    }
  }

  // ----- no other colour comes back -----

  /** U+FFFD is a character of three bytes, and no part of it is text. */
  lemma PartsOfReplacement(color: seq<byte>)
    requires |color| >= 3 && color[..3] == REPLACEMENT
    ensures Scan(color).size == 3 && !Valid(color[..1]) && !Valid(color[..2])
  {
    assert forall i :: 0 <= i < 3 ==> color[i] == color[..3][i];
    assert Scan(color[..1]) == Chunk(1, false);
    assert Scan(color[..2]) == Chunk(2, false);
  }

  lemma ReplacementInFront(color: seq<byte>, b: nat)
    requires |color| > 4 && color[..3] == REPLACEMENT && Around(color, 4, b)
    ensures b >= 3
  {
    PartsOfReplacement(color);
    assert color[0..] == color;
  }

  lemma SecondCharacter(color: seq<byte>)
    requires |color| >= 6 && color[3..6] == REPLACEMENT
    ensures Scan(color[3..]).size == 3
  {
    var c := color[3..];
    assert c[0] == color[3..6][0] && c[1] == color[3..6][1] && c[2] == color[3..6][2];
  }

  /** Cut inside a character, a colour comes back only if it begins with two U+FFFD. */
  lemma OnlyTwoReplacements(color: seq<byte>, zeros: nat, w: nat, b: nat)
    requires |color| >= 15 && Valid(color) && Around(color, 4, b) && b < 4
    requires 3 <= w < |color| && w <= |color| - 4 + zeros && Repaired(color, zeros, w) == color
    ensures color[..6] == TWO_REPLACEMENTS && Valid(color[6..])
  {
    LeftOver(color, b);
    var j := b + Scan(color[b..]).size - 4;
    CutInsideACharacter(color, zeros, w, j);
    var rest := Lossy((color[4 + j..] + Zeros(zeros))[..w - j]);
    FrontOfReplacements(color, rest, j);
    ReplacementInFront(color, b);
    var c := color[3..];
    if j == 1 {
      LeadOfTwo(c);
      assert c[0] == color[3];
      OneByteLeftOver(color, zeros, w);
    } else if j == 3 {
      SecondCharacter(color);
    }
  }

  lemma LeadOfTwo(c: seq<byte>)
    requires c != [] && Scan(c).wellFormed && Scan(c).size > 1
    ensures c[0] >= 0x80
  {}

  lemma FrontOfReplacements(color: seq<byte>, rest: seq<byte>, j: nat)
    requires 1 <= j <= 3 && |color| >= 9 && color == Replacements(j) + rest
    ensures color[..3] == REPLACEMENT
    ensures j >= 2 ==> color[3..6] == REPLACEMENT && color[..6] == TWO_REPLACEMENTS
  {
    assert Replacements(j) == REPLACEMENT + Replacements(j - 1);
    Assoc(REPLACEMENT, Replacements(j - 1), rest);
    if j >= 2 {
      assert Replacements(j - 1) == REPLACEMENT + Replacements(j - 2);
      assert color == REPLACEMENT + (REPLACEMENT + (Replacements(j - 2) + rest));
    }
  }

  // ----- lengths -----

  /** What the supposed length allows: the colour is at most six bytes longer, and not shorter. */
  lemma LengthWindow(k: nat, n: nat)
    requires Align4(8 + k) == Align4(5 + n)
    ensures k <= n <= k + 6
  {}

  lemma ReplacementWindow(n: nat)
    ensures Align4(8 + REPLACEMENT_LENGTH) == Align4(5 + n) <==> REPLACEMENT_LENGTH + 1 <= n <= REPLACEMENT_LENGTH + 4
  {}

  lemma LengthOfReplacements(color: seq<byte>)
    requires |color| >= 6 && color[..6] == TWO_REPLACEMENTS
    ensures U32At(color, 0) == REPLACEMENT_LENGTH
  {
    var bytes: seq<byte> := [0xEF, 0xBF, 0xBD, 0xEF];
    assert color[0..4] == color[..6][..4] == bytes;
    assert bytes[1..] == [0xBF, 0xBD, 0xEF] && bytes[1..][1..] == [0xBD, 0xEF];
    assert bytes[1..][1..][1..] == [0xEF] && bytes[1..][1..][1..][1..] == [];
    assert FromLe([0xEF]) == 0xEF && FromLe([0xBD, 0xEF]) == 0xEFBD && FromLe([0xBF, 0xBD, 0xEF]) == 0xEFBDBF;
  }

  /** After two U+FFFD, valid text is valid. */
  lemma AfterReplacements(color: seq<byte>)
    requires |color| >= 6 && Valid(color) && color[..6] == TWO_REPLACEMENTS
    ensures Valid(color[6..])
  {
    assert forall i :: 0 <= i < 6 ==> color[i] == color[..6][i];
    assert Scan(color).size == 3;
    assert Scan(color[3..]).size == 3;
    DropDrop(color, 3, 3);
  }

  /** Padding that puts the numbers where the supposed length expects them. */
  predicate Fits(color: seq<byte>, zeros: nat, k: nat) {
    Align4(8 + k) == Align4(5 + |color|) && zeros == Align4(5 + |color|) - (4 + |color|)
  }

  /** A colour is read back whole exactly if it survives. */
  lemma ComesBackExactlyWhen(color: seq<byte>, zeros: nat, k: nat)
    requires Valid(color) && |color| >= 15 && k == U32At(color, 0) && Fits(color, zeros, k)
    ensures WithoutNul(k) <= |color| - 4 + zeros
    ensures Repaired(color, zeros, WithoutNul(k)) == color <==> Survives(color)
  {
    LengthWindow(k, |color|);
    var b := CharAround(color, 4);
    if b == 4 {
      CutBetweenCharacters(color, zeros, WithoutNul(k));
      NotBetween(color);
    } else {
      if color[..6] == TWO_REPLACEMENTS {
        LengthFits(color);
      }
      InsideExactlyWhen(color, zeros, WithoutNul(k), b);
      SurvivesByLength(color, WithoutNul(k));
    }
  }

  /** Two U+FFFD in front, and the rest all there or short of a byte of a last U+FFFD. */
  predicate Whole(color: seq<byte>, w: nat)
    requires |color| >= 6
  {
    color[..6] == TWO_REPLACEMENTS
    && (w + 4 == |color| || (w + 5 == |color| && color[|color| - 3..] == REPLACEMENT))
  }

  lemma InsideExactlyWhen(color: seq<byte>, zeros: nat, w: nat, b: nat)
    requires |color| >= 15 && Valid(color) && Around(color, 4, b) && b < 4
    requires 3 <= w < |color| && w <= |color| - 4 + zeros
    requires color[..6] == TWO_REPLACEMENTS ==> |color| - 5 <= w
    ensures Repaired(color, zeros, w) == color <==> Whole(color, w)
  {
    if color[..6] == TWO_REPLACEMENTS {
      AfterReplacements(color);
      TwoBytesLeftOver(color, zeros, w);
    } else if Repaired(color, zeros, w) == color {
      OnlyTwoReplacements(color, zeros, w, b);
    }
  }

  lemma SurvivesByLength(color: seq<byte>, w: nat)
    requires |color| >= 15 && w == WithoutNul(U32At(color, 0))
    ensures Whole(color, w) <==> Survives(color)
  {
    if color[..6] == TWO_REPLACEMENTS {
      LengthOfReplacements(color);
    }
  }

  /** Behind two U+FFFD the supposed length is known, and the colour at most five bytes longer than what is read. */
  lemma LengthFits(color: seq<byte>)
    requires |color| >= 15 && color[..6] == TWO_REPLACEMENTS && Align4(8 + U32At(color, 0)) == Align4(5 + |color|)
    ensures |color| - 5 <= WithoutNul(U32At(color, 0))
  {
    LengthOfReplacements(color);
    ReplacementWindow(|color|);
  }

  lemma NotBetween(color: seq<byte>)
    requires |color| > 4 && Valid(color[4..])
    ensures !Survives(color)
  {
    if |color| >= 6 && color[..6] == TWO_REPLACEMENTS {
      InsideReplacement(color);
    }
  }

  lemma InsideReplacement(color: seq<byte>)
    requires |color| >= 6 && color[..6] == TWO_REPLACEMENTS
    ensures !Valid(color[4..])
  {
    assert color[4..][0] == color[..6][4];
    assert Scan(color[4..]) == Chunk(1, false);
  }

  // ----- the decoder -----

  lemma BareHeader(s: ShapeRecord, src: seq<byte>)
    requires LengthsFitU32(s) && At(src, 0, Body(s))
    ensures |src| >= 4 && (LooksDelimited(src) <==> |s.color| >= 15)
  {
    BodyFields(s, src, 0);
    AtSplit(src, 0, Le32(|s.color| + 1) + s.color, [0]);
    AtSplit(src, 0, Le32(|s.color| + 1), s.color);
    ReadsU32(src, 0, |s.color| + 1);
  }

  /** The colour and its padding, as they stand in a bare body after the first four colour bytes. */
  lemma BareTail(s: ShapeRecord, src: seq<byte>, w: nat)
    requires At(src, 0, Body(s)) && |s.color| >= 4 && 8 + w <= FixedStart(s)
    ensures src[8..8 + w] == (s.color[4..] + Zeros(FixedStart(s) - 4 - |s.color|))[..w]
    ensures src[4..8] == s.color[..4]
  {
    var zeros := FixedStart(s) - StringEnd(s);
    var text := s.color + Zeros(zeros + 1);
    BareText(s, src);
    DropOfTake(text, 4, 4 + w);
    DropOfAppend(s.color, Zeros(zeros + 1), 4);
    SliceOfSlice(src, 4, FixedStart(s), 4, 4 + w);
    SliceOfSlice(src, 4, FixedStart(s), 0, 4);
    assert text[..4] == s.color[..4];
  }

  lemma SliceOfSlice(src: seq<byte>, lo: nat, hi: nat, a: nat, b: nat)
    requires lo + a <= lo + b <= hi <= |src|
    ensures src[lo..hi][a..b] == src[lo + a..lo + b]
  {
    var left, right := src[lo..hi][a..b], src[lo + a..lo + b];
    assert forall i :: 0 <= i < b - a ==> left[i] == src[lo..hi][a + i] == src[lo + a + i] == right[i];
  }

  /** Behind its length, the body holds the colour and zero bytes up to the numbers. */
  lemma BareText(s: ShapeRecord, src: seq<byte>)
    requires At(src, 0, Body(s))
    ensures FixedStart(s) <= |src|
    ensures src[4..FixedStart(s)] == s.color + Zeros(FixedStart(s) - 4 - |s.color|)
  {
    var zeros := FixedStart(s) - StringEnd(s);
    var count, rest := Le32(|s.color| + 1), Fixed(s) + (Le32(|s.payload|) + s.payload);
    BodyShape(count, s.color, Zeros(zeros), Fixed(s), Le32(|s.payload|), s.payload);
    AtSplit(src, 0, count, s.color + ([0] + Zeros(zeros)) + rest);
    AtSplit(src, 4, s.color + ([0] + Zeros(zeros)), rest);
    assert [0] + Zeros(zeros) == Zeros(zeros + 1);
  }

  lemma BodyShape(count: seq<byte>, color: seq<byte>, zeros: seq<byte>, fixed: seq<byte>, n: seq<byte>,
                  payload: seq<byte>)
    ensures count + color + [0] + zeros + fixed + n + payload
            == count + (color + ([0] + zeros) + (fixed + (n + payload)))
  {}

  /** Read from its fifth byte on, a body gives its numbers and payload if the supposed length fits. */
  lemma BareMembers(s: ShapeRecord, src: seq<byte>, k: nat)
    requires LengthsFitU32(s) && |s.color| >= 4 && At(src, 0, Body(s)) && |src| >= 8 && k == U32At(src, 4)
    requires Align4(8 + k) == FixedStart(s)
    ensures 8 + k <= FixedStart(s) <= |src|
    ensures ParseMembers(src, 4) == Decoded(s.(color := src[8..8 + WithoutNul(k)]), |Body(s)|)
  {
    BareRest(s, src);
    BareTextParsed(src, k);
    Assemble(src, 4, src[8..8 + WithoutNul(k)], 8 + k, s.x, s.y, s.shapesize, s.payload,
             FixedStart(s) + 16 + |s.payload|);
  }

  lemma BareRest(s: ShapeRecord, src: seq<byte>)
    requires LengthsFitU32(s) && At(src, 0, Body(s))
    ensures FixedStart(s) <= |src|
    ensures ParseRest(src, FixedStart(s)) == Rest(s.x, s.y, s.shapesize, s.payload, FixedStart(s) + 16 + |s.payload|)
  {
    BodyFields(s, src, 0);
    RestRoundTrip(src, FixedStart(s), s.x, s.y, s.shapesize, s.payload);
  }

  lemma BareTextParsed(src: seq<byte>, k: nat)
    requires |src| >= 8 && k == U32At(src, 4) && 8 + k <= |src|
    ensures ParseText(src, 4) == Parsed(src[8..8 + WithoutNul(k)], 8 + k)
  {}

  /** If the supposed length does not fit, no value of the right size comes out. */
  lemma BareMisfit(s: ShapeRecord, src: seq<byte>, k: nat)
    requires |src| >= 8 && k == U32At(src, 4) && Align4(8 + k) != FixedStart(s)
    ensures var r := ParseMembers(src, 4);
            !(r.Decoded? && r.shape.payload == s.payload && r.consumed == |Body(s)|)
  {
    if ParseMembers(src, 4).Decoded? {
      FixedMembersPosition(src, 4);
    }
  }

  lemma BareLength(s: ShapeRecord, src: seq<byte>)
    requires At(src, 0, Body(s)) && |s.color| >= 4
    ensures |src| >= 8 && U32At(src, 4) == U32At(s.color, 0)
  {
    BareTail(s, src, 0);
    SameBytes(src, s.color);
  }

  lemma SameBytes(src: seq<byte>, color: seq<byte>)
    requires |src| >= 8 && |color| >= 4 && src[4..8] == color[..4]
    ensures U32At(src, 4) == U32At(color, 0)
  {
    assert src[4..4 + 4] == color[0..0 + 4];
  }

  /** Where the supposed length fits, everything hangs on the colour. */
  lemma LongColourThatFits(s: ShapeRecord, src: seq<byte>, k: nat)
    requires s.IsShape() && LengthsFitU32(s) && |s.color| >= 15 && At(src, 0, Body(s)) && k == U32At(s.color, 0)
    requires |src| >= 8 && LooksDelimited(src) && k == U32At(src, 4) && Align4(8 + k) == FixedStart(s)
    ensures Parse(src) == Decoded(s, |Body(s)|) <==> Survives(s.color)
  {
    BareMembers(s, src, k);
    var raw := src[8..8 + WithoutNul(k)];
    RawSurvives(s, src, k, raw);
    BareParse(s, src, raw, |Body(s)|);
  }

  lemma RawSurvives(s: ShapeRecord, src: seq<byte>, k: nat, raw: seq<byte>)
    requires s.IsShape() && |s.color| >= 15 && At(src, 0, Body(s)) && k == U32At(s.color, 0)
    requires Align4(8 + k) == FixedStart(s) && 8 + k <= |src| && raw == src[8..8 + WithoutNul(k)]
    ensures Lossy(raw) == s.color <==> Survives(s.color)
  {
    BareTail(s, src, WithoutNul(k));
    ColourSurvives(s.color, raw, FixedStart(s) - (4 + |s.color|), k);
  }

  lemma ColourSurvives(color: seq<byte>, raw: seq<byte>, zeros: nat, k: nat)
    requires Valid(color) && |color| >= 15 && k == U32At(color, 0) && Fits(color, zeros, k)
    requires WithoutNul(k) <= |color| - 4 + zeros && raw == (color[4..] + Zeros(zeros))[..WithoutNul(k)]
    ensures Lossy(raw) == color <==> Survives(color)
  {
    ComesBackExactlyWhen(color, zeros, k);
  }

  lemma BareParse(s: ShapeRecord, src: seq<byte>, raw: seq<byte>, size: nat)
    requires |src| >= 4 && LooksDelimited(src) && ParseMembers(src, 4) == Decoded(s.(color := raw), size)
    ensures Parse(src) == Decoded(s, size) <==> Lossy(raw) == s.color
  {}

  lemma LongColour(s: ShapeRecord, src: seq<byte>)
    requires s.IsShape() && LengthsFitU32(s) && |s.color| >= 15 && At(src, 0, Body(s))
    ensures Parse(src) == Decoded(s, |Body(s)|) <==> Survives(s.color)
  {
    var k := U32At(s.color, 0);
    BareHeader(s, src);
    BareLength(s, src);
    if Align4(8 + k) == FixedStart(s) {
      LongColourThatFits(s, src, k);
    } else {
      BareMisfit(s, src, k);
      Misfit(s.color, k);
    }
  }

  lemma Misfit(color: seq<byte>, k: nat)
    requires |color| >= 4 && k == U32At(color, 0) && Align4(8 + k) != Align4(5 + |color|)
    ensures !Survives(color)
  {
    if |color| >= 6 && color[..6] == TWO_REPLACEMENTS {
      LengthOfReplacements(color);
      ReplacementWindow(|color|);
    }
  }

  /**
    The decoder takes a body that was sent without its DHEADER for what it is exactly if its
    colour has at most 14 bytes - or is one of the colours of about four gigabytes that survive.
    (The IDL bounds a colour at 128 bytes.)
   */
  lemma BareBodyAcceptedExactlyWhen(s: ShapeRecord, rest: seq<byte>)
    requires s.IsShape() && LengthsFitU32(s)
    ensures Parse(Body(s) + rest) == Decoded(s, |Body(s)|) <==> |s.color| <= 14 || Survives(s.color)
  {
    var src := Body(s) + rest;
    assert src[0..0 + |Body(s)|] == Body(s);
    if |s.color| <= 14 {
      BareHeader(s, src);
      DelimitedRoundTrip(s, src, 0);
    } else {
      LongColour(s, src);
    }
  }

  /** There is such a colour. */
  lemma SomeColourSurvives() returns (color: seq<byte>)
    ensures Valid(color) && Survives(color)
  {
    var letters := Zeros(REPLACEMENT_LENGTH + 3 - 6);
    color := TWO_REPLACEMENTS + letters;
    ZerosAreValid(|letters|);
    ReplacementIsValid();
    ValidAppend(REPLACEMENT, REPLACEMENT);
    assert REPLACEMENT + REPLACEMENT == TWO_REPLACEMENTS;
    ValidAppend(TWO_REPLACEMENTS, letters);
    assert color[..6] == TWO_REPLACEMENTS;
  }
}
