/**
  Partition-name globbing (`fnmatch_glob`, srcRs/HDDS/src/main.rs).

  `Matches` is the declarative reading of a pattern; `LiteralFirst` is the relation the
  loop decides.  They differ because the loop compares bytes before it looks for a star,
  so a '*' in the pattern that faces a '*' in the text is taken literally.
 */
module Glob {
  import opened Bytes

  const STAR: byte := 42
  const QUESTION: byte := 63

  predicate Agrees(p: byte, t: byte) {
    p == QUESTION || p == t
  }

  /** '*' stands for any sequence, '?' for any one byte, any other byte for itself. */
  predicate MatchesFrom(pat: seq<byte>, txt: seq<byte>, px: nat, tx: nat)
    requires px <= |pat| && tx <= |txt|
    decreases |pat| - px
  {
    if px == |pat| then tx == |txt|
    else if pat[px] == STAR then
      var rest := px + 1;
      exists k :: tx <= k <= |txt| && MatchesFrom(pat, txt, rest, k)
    else tx < |txt| && Agrees(pat[px], txt[tx]) && MatchesFrom(pat, txt, px + 1, tx + 1)
  }

  predicate Matches(pat: seq<byte>, txt: seq<byte>) {
    MatchesFrom(pat, txt, 0, 0)
  }

  predicate AllStars(pat: seq<byte>, px: nat) {
    forall i :: px <= i < |pat| ==> pat[i] == STAR
  }

  /** Byte equality is tried first; a star is a wildcard only where that fails. */
  predicate LiteralFirstFrom(pat: seq<byte>, txt: seq<byte>, px: nat, tx: nat)
    requires px <= |pat| && tx <= |txt|
    decreases |pat| - px
  {
    if tx == |txt| then AllStars(pat, px)
    else if px == |pat| then false
    else if Agrees(pat[px], txt[tx]) then LiteralFirstFrom(pat, txt, px + 1, tx + 1)
    else
      var rest := px + 1;
      pat[px] == STAR && exists k :: tx <= k <= |txt| && LiteralFirstFrom(pat, txt, rest, k)
  }

  predicate LiteralFirst(pat: seq<byte>, txt: seq<byte>) {
    LiteralFirstFrom(pat, txt, 0, 0)
  }

  /** Some suffix of the text that starts at `tx` or later is accepted from `px`. */
  ghost predicate AcceptsLater(pat: seq<byte>, txt: seq<byte>, px: nat, tx: nat) {
    px <= |pat| && exists k :: tx <= k <= |txt| && LiteralFirstFrom(pat, txt, px, k)
  }

  /**
    Only the last star matters.  If pat[px..px+n] was consumed byte by byte against
    txt[tx..tx+n], then starting from `px` further to the right reaches pat[px+n] no
    earlier than `tx + n`.
   */
  lemma {:induction false} LastStarSuffices(pat: seq<byte>, txt: seq<byte>, px: nat, tx: nat, n: nat, b: nat)
    requires px + n <= |pat| && tx + n <= |txt| && tx <= b <= |txt|
    requires forall j :: px <= j < px + n ==> Agrees(pat[j], txt[j - px + tx])
    requires LiteralFirstFrom(pat, txt, px, b)
    ensures AcceptsLater(pat, txt, px + n, tx + n)
    decreases n
  {
    if n == 0 {
    } else if b == |txt| {
      assert LiteralFirstFrom(pat, txt, px + n, |txt|);
    } else {
      assert b == tx ==> Agrees(pat[px], txt[b]);
      if Agrees(pat[px], txt[b]) {
        LastStarSuffices(pat, txt, px + 1, tx + 1, n - 1, b + 1);
      } else {
        var k :| b <= k <= |txt| && LiteralFirstFrom(pat, txt, px + 1, k);
        LastStarSuffices(pat, txt, px + 1, tx + 1, n - 1, k);
      }
    }
  }

  /** Reaching a fresh star, every acceptance still open to the old one is open to the new one. */
  lemma NewStarSubsumesOld(pat: seq<byte>, txt: seq<byte>, spx: nat, stx: nat, px: nat, tx: nat)
    requires spx < px < |pat| && stx <= tx < |txt|
    requires px - spx - 1 == tx - stx
    requires forall j :: spx < j < px ==> Agrees(pat[j], txt[j - spx - 1 + stx])
    requires pat[px] == STAR && AcceptsLater(pat, txt, spx + 1, stx + 1)
    ensures AcceptsLater(pat, txt, px + 1, tx)
  {
    var b :| stx + 1 <= b <= |txt| && LiteralFirstFrom(pat, txt, spx + 1, b);
    LastStarSuffices(pat, txt, spx + 1, stx, tx - stx, b);
    var c :| tx <= c <= |txt| && LiteralFirstFrom(pat, txt, px, c);
    if c == |txt| {
      assert LiteralFirstFrom(pat, txt, px + 1, c);
    } else if Agrees(pat[px], txt[c]) {
      assert LiteralFirstFrom(pat, txt, px + 1, c + 1);
    } else {
      var d :| c <= d <= |txt| && LiteralFirstFrom(pat, txt, px + 1, d);
    }
  }

  /** Since the last star (recorded at `star`, resumed at text position `stx`) bytes were consumed one for one. */
  ghost predicate Trail(pat: seq<byte>, txt: seq<byte>, star: Option<nat>, stx: nat, px: nat, tx: nat) {
    && px <= |pat| && stx <= tx <= |txt|
    && match star
       case None => stx == 0
       case Some(spx) =>
         && spx < px && px - spx - 1 == tx - stx
         && forall j :: spx < j < px ==> Agrees(pat[j], txt[j - spx - 1 + stx])
  }

  /** What the loop state still allows: go on from here, or let the last star take more text. */
  ghost predicate StillAccepts(pat: seq<byte>, txt: seq<byte>, star: Option<nat>, stx: nat, px: nat, tx: nat)
    requires px <= |pat| && tx <= |txt|
  {
    || LiteralFirstFrom(pat, txt, px, tx)
    || (star.Some? && AcceptsLater(pat, txt, star.value + 1, stx + 1))
  }

  lemma AgreeStep(pat: seq<byte>, txt: seq<byte>, star: Option<nat>, stx: nat, px: nat, tx: nat)
    requires Trail(pat, txt, star, stx, px, tx) && px < |pat| && tx < |txt| && Agrees(pat[px], txt[tx])
    ensures Trail(pat, txt, star, stx, px + 1, tx + 1)
    ensures StillAccepts(pat, txt, star, stx, px, tx) <==> StillAccepts(pat, txt, star, stx, px + 1, tx + 1)
  {}

  lemma StarStep(pat: seq<byte>, txt: seq<byte>, star: Option<nat>, stx: nat, px: nat, tx: nat)
    requires Trail(pat, txt, star, stx, px, tx)
    requires px < |pat| && tx < |txt| && !Agrees(pat[px], txt[tx]) && pat[px] == STAR
    ensures Trail(pat, txt, Some(px), tx, px + 1, tx)
    ensures StillAccepts(pat, txt, star, stx, px, tx) <==> StillAccepts(pat, txt, Some(px), tx, px + 1, tx)
  {
    if star.Some? && AcceptsLater(pat, txt, star.value + 1, stx + 1) {
      NewStarSubsumesOld(pat, txt, star.value, stx, px, tx);
    }
    assert LiteralFirstFrom(pat, txt, px, tx) <==> AcceptsLater(pat, txt, px + 1, tx);
  }

  lemma TextUsedUp(pat: seq<byte>, txt: seq<byte>, star: Option<nat>, stx: nat, px: nat)
    requires Trail(pat, txt, star, stx, px, |txt|)
    ensures StillAccepts(pat, txt, star, stx, px, |txt|) <==> AllStars(pat, px)
  {
    if star.Some? && AcceptsLater(pat, txt, star.value + 1, stx + 1) {
      var b :| stx + 1 <= b <= |txt| && LiteralFirstFrom(pat, txt, star.value + 1, b);
      LastStarSuffices(pat, txt, star.value + 1, stx, |txt| - stx, b);
    }
  }

  lemma BackStep(pat: seq<byte>, txt: seq<byte>, spx: nat, stx: nat, px: nat, tx: nat)
    requires Trail(pat, txt, Some(spx), stx, px, tx) && tx < |txt|
    requires px == |pat| || (!Agrees(pat[px], txt[tx]) && pat[px] != STAR)
    ensures Trail(pat, txt, Some(spx), stx + 1, spx + 1, stx + 1)
    ensures StillAccepts(pat, txt, Some(spx), stx, px, tx) <==>
            StillAccepts(pat, txt, Some(spx), stx + 1, spx + 1, stx + 1)
  {
    assert !LiteralFirstFrom(pat, txt, px, tx);
    assert AcceptsLater(pat, txt, spx + 1, stx + 1) <==>
      LiteralFirstFrom(pat, txt, spx + 1, stx + 1) || AcceptsLater(pat, txt, spx + 1, stx + 2);
  }

  /** At most this many iterations before the last star has taken `rows` bytes of text. */
  ghost function StepsFor(rows: nat, width: nat): nat {
    if rows == 0 then 0 else StepsFor(rows - 1, width) + width
  }

  lemma {:induction false} MoreRows(a: nat, b: nat, width: nat)
    requires a <= b
    ensures StepsFor(a, width) <= StepsFor(b, width) == b * width
  {
    if a < b {
      MoreRows(a, b - 1, width);
    } else if b > 0 {
      MoreRows(b - 1, b - 1, width);
    }
    assert b > 0 ==> b * width == (b - 1) * width + width;
  }

  /** `fnmatch_glob`.  `steps` counts the iterations of the backtracking loop. */
  method FnmatchGlob(pat: seq<byte>, txt: seq<byte>) returns (accepted: bool, ghost steps: nat)
    ensures accepted == LiteralFirst(pat, txt)
    ensures steps <= |txt| * (|pat| + 1) + |pat|
  {
    var px: nat, tx: nat := 0, 0;
    var starPx: Option<nat> := None;
    var starTx: nat := 0;
    steps := 0;
    ghost var width, want := |pat| + 1, LiteralFirst(pat, txt);
    while tx < |txt|
      invariant Trail(pat, txt, starPx, starTx, px, tx)
      invariant want <==> StillAccepts(pat, txt, starPx, starTx, px, tx)
      invariant steps <= StepsFor(starTx, width) + px
      decreases if starPx.Some? then |pat| - starPx.value else width, |txt| - starTx, |txt| - tx
    {
      steps := steps + 1;
      if px < |pat| && Agrees(pat[px], txt[tx]) {
        AgreeStep(pat, txt, starPx, starTx, px, tx);
        px, tx := px + 1, tx + 1;
      } else if px < |pat| && pat[px] == STAR {
        StarStep(pat, txt, starPx, starTx, px, tx);
        MoreRows(starTx, tx, width);
        starPx, starTx := Some(px), tx;
        px := px + 1;
      } else if starPx.Some? {
        BackStep(pat, txt, starPx.value, starTx, px, tx);
        px := starPx.value + 1;
        starTx := starTx + 1;
        tx := starTx;
      } else {
        MoreRows(starTx, |txt|, width);
        return false, steps;
      }
    }
    TextUsedUp(pat, txt, starPx, starTx, px);
    MoreRows(starTx, |txt|, width);
    accepted := SkipStars(pat, px);
  }

  /** The second loop: only stars may be left of the pattern. */
  method SkipStars(pat: seq<byte>, from: nat) returns (accepted: bool)
    requires from <= |pat|
    ensures accepted <==> AllStars(pat, from)
  {
    var px := from;
    while px < |pat| && pat[px] == STAR
      invariant from <= px <= |pat|
      invariant forall i :: from <= i < px ==> pat[i] == STAR
    {
      px := px + 1;
    }
    accepted := px == |pat|;
  }

  // ----- the loop against the declarative relation -----

  lemma {:induction false} StarsMatchEmpty(pat: seq<byte>, txt: seq<byte>, px: nat)
    requires px <= |pat| && AllStars(pat, px)
    ensures MatchesFrom(pat, txt, px, |txt|)
    decreases |pat| - px
  {
    if px < |pat| {
      StarsMatchEmpty(pat, txt, px + 1);
    }
  }

  /** The loop never accepts a text the pattern does not match. */
  lemma {:induction false} LiteralFirstIsSound(pat: seq<byte>, txt: seq<byte>, px: nat, tx: nat)
    requires px <= |pat| && tx <= |txt|
    requires LiteralFirstFrom(pat, txt, px, tx)
    ensures MatchesFrom(pat, txt, px, tx)
    decreases |pat| - px
  {
    if tx == |txt| {
      StarsMatchEmpty(pat, txt, px);
    } else if Agrees(pat[px], txt[tx]) {
      LiteralFirstIsSound(pat, txt, px + 1, tx + 1);
      if pat[px] == STAR {
        assert MatchesFrom(pat, txt, px + 1, tx + 1);
      }
    } else {
      var k :| tx <= k <= |txt| && LiteralFirstFrom(pat, txt, px + 1, k);
      LiteralFirstIsSound(pat, txt, px + 1, k);
    }
  }

  /** A star that faces no star is a wildcard in both readings. */
  lemma {:induction false} LiteralFirstIsComplete(pat: seq<byte>, txt: seq<byte>, px: nat, tx: nat)
    requires px <= |pat| && tx <= |txt|
    requires STAR !in pat || STAR !in txt
    requires MatchesFrom(pat, txt, px, tx)
    ensures LiteralFirstFrom(pat, txt, px, tx)
    decreases |pat| - px
  {
    if px == |pat| {
    } else if pat[px] == STAR {
      var k :| tx <= k <= |txt| && MatchesFrom(pat, txt, px + 1, k);
      LiteralFirstIsComplete(pat, txt, px + 1, k);
    } else {
      LiteralFirstIsComplete(pat, txt, px + 1, tx + 1);
    }
  }

  lemma AgreeWithoutFacingStars(pat: seq<byte>, txt: seq<byte>)
    ensures LiteralFirst(pat, txt) ==> Matches(pat, txt)
    ensures STAR !in pat || STAR !in txt ==> (LiteralFirst(pat, txt) <==> Matches(pat, txt))
  {
    if LiteralFirst(pat, txt) {
      LiteralFirstIsSound(pat, txt, 0, 0);
    } else if (STAR !in pat || STAR !in txt) && Matches(pat, txt) {
      LiteralFirstIsComplete(pat, txt, 0, 0);
    }
  }

  // ----- texts on which every pattern is decided rightly -----

  /** `i` single-byte wildcards, one star, and a wildcard for every byte from position `i` on. */
  function Padded(i: nat, n: nat): (pat: seq<byte>)
    requires i <= n
  {
    seq(n + 1, j requires 0 <= j => if j == i then STAR else QUESTION)
  }

  lemma {:induction false} PaddedMatches(txt: seq<byte>, i: nat, px: nat, tx: nat)
    requires i < |txt| && px <= |txt| + 1
    requires tx == if px <= i then px else px - 1
    ensures MatchesFrom(Padded(i, |txt|), txt, px, tx)
    decreases |txt| + 1 - px
  {
    if px <= |txt| {
      PaddedMatches(txt, i, px + 1, if px + 1 <= i then px + 1 else px);
    }
  }

  lemma {:induction false} PaddedRejected(txt: seq<byte>, i: nat, px: nat)
    requires i < |txt| && txt[i] == STAR && px <= |txt|
    ensures !LiteralFirstFrom(Padded(i, |txt|), txt, px, px)
    decreases |txt| - px
  {
    if px < |txt| {
      PaddedRejected(txt, i, px + 1);
    } else {
      assert Padded(i, |txt|)[|txt|] == QUESTION;
    }
  }

  /** The loop decides every pattern rightly on a text exactly when the text has no star. */
  lemma RightForEveryPattern(txt: seq<byte>)
    ensures (forall pat :: LiteralFirst(pat, txt) <==> Matches(pat, txt)) <==> STAR !in txt
  {
    if STAR in txt {
      var i :| 0 <= i < |txt| && txt[i] == STAR;
      PaddedMatches(txt, i, 0, 0);
      PaddedRejected(txt, i, 0);
      assert LiteralFirst(Padded(i, |txt|), txt) != Matches(Padded(i, |txt|), txt);
    } else {
      forall pat ensures LiteralFirst(pat, txt) <==> Matches(pat, txt) {
        AgreeWithoutFacingStars(pat, txt);
      }
    }
  }

  /** The pattern `*` does not accept the text `*b`. */
  lemma AStarFacingAStar()
    ensures var pat: seq<byte>, txt: seq<byte> := [STAR], [STAR, 98];
            Matches(pat, txt) && !LiteralFirst(pat, txt)
  {
    var pat: seq<byte>, txt: seq<byte> := [STAR], [STAR, 98];
    assert MatchesFrom(pat, txt, 1, 2);
    assert !LiteralFirstFrom(pat, txt, 1, 1);
  }

  // ----- patterns that are decided rightly on every text -----

  /** A text the pattern matches, with a second star byte after each star of the pattern. */
  function Starred(pat: seq<byte>): seq<byte> {
    if pat == [] then []
    else (if pat[0] == STAR then [STAR, STAR]
          else if pat[0] == QUESTION then [STAR]
          else [pat[0]]) + Starred(pat[1..])
  }

  lemma {:induction false} SplitStarred(pat: seq<byte>, px: nat)
    requires px < |pat|
    ensures Starred(pat[px..]) ==
            (if pat[px] == STAR then [STAR, STAR]
             else if pat[px] == QUESTION then [STAR]
             else [pat[px]]) + Starred(pat[px + 1..])
  {
    assert pat[px..][1..] == pat[px + 1..];
  }

  lemma {:induction false} StarredMatches(pat: seq<byte>, txt: seq<byte>, px: nat, tx: nat)
    requires px <= |pat| && tx <= |txt| && txt[tx..] == Starred(pat[px..])
    ensures MatchesFrom(pat, txt, px, tx)
    decreases |pat| - px
  {
    if px < |pat| {
      SplitStarred(pat, px);
      assert txt[tx] == txt[tx..][0];
      var n := if pat[px] == STAR then 2 else 1;
      assert txt[tx + n..] == txt[tx..][n..] == Starred(pat[px + 1..]);
      StarredMatches(pat, txt, px + 1, tx + n);
    } else {
      assert |txt[tx..]| == 0;
    }
  }

  /** With `extra` star bytes in hand the loop never meets a non-star byte, so it records no star. */
  lemma {:induction false} StarredRejected(pat: seq<byte>, txt: seq<byte>, px: nat, tx: nat, extra: nat)
    requires px <= |pat| && tx + extra <= |txt|
    requires forall j :: tx <= j < tx + extra ==> txt[j] == STAR
    requires txt[tx + extra..] == Starred(pat[px..])
    requires extra > 0 || STAR in pat[px..]
    ensures !LiteralFirstFrom(pat, txt, px, tx)
    decreases |pat| - px
  {
    if px < |pat| {
      SplitStarred(pat, px);
      var e := tx + extra;
      var n := if pat[px] == STAR then 2 else 1;
      assert txt[e] == txt[e..][0];
      assert pat[px] == STAR ==> txt[e + 1] == txt[e..][1];
      assert txt[e + n..] == txt[e..][n..] == Starred(pat[px + 1..]);
      assert pat[px..] == [pat[px]] + pat[px + 1..];
      if Agrees(pat[px], txt[tx]) {
        StarredRejected(pat, txt, px + 1, tx + 1, extra + n - 1);
      }
    }
  }

  /** The loop decides a pattern rightly on every text exactly when the pattern has no star. */
  lemma RightForEveryText(pat: seq<byte>)
    ensures (forall txt :: LiteralFirst(pat, txt) <==> Matches(pat, txt)) <==> STAR !in pat
  {
    if STAR in pat {
      var txt := Starred(pat);
      assert pat[0..] == pat && txt[0..] == txt;
      StarredMatches(pat, txt, 0, 0);
      StarredRejected(pat, txt, 0, 0, 0);
      assert LiteralFirst(pat, txt) != Matches(pat, txt);
    } else {
      forall txt ensures LiteralFirst(pat, txt) <==> Matches(pat, txt) {
        AgreeWithoutFacingStars(pat, txt);
      }
    }
  }
}
