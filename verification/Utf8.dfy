/**
  UTF-8 as Rust's `String::from_utf8_lossy` sees it: well-formed characters pass through,
  every maximal ill-formed subpart becomes one U+FFFD (EF BF BD).
 */
module Utf8 {
  import opened Bytes
  import opened Sequences

  /** The first character of a byte string, or its first ill-formed subpart. */
  datatype Chunk = Chunk(size: nat, wellFormed: bool)

  predicate Continuation(b: byte) {
    0x80 <= b <= 0xBF
  }

  function Width(lead: byte): nat {
    if lead < 0x80 then 1
    else if 0xC2 <= lead <= 0xDF then 2
    else if 0xE0 <= lead <= 0xEF then 3
    else if 0xF0 <= lead <= 0xF4 then 4
    else 0
  }

  predicate SecondByte(lead: byte, b: byte) {
    && Continuation(b)
    && (lead == 0xE0 ==> 0xA0 <= b)
    && (lead == 0xED ==> b <= 0x9F)
    && (lead == 0xF0 ==> 0x90 <= b)
    && (lead == 0xF4 ==> b <= 0x8F)
  }

  function Scan(s: seq<byte>): (c: Chunk)
    requires s != []
    ensures 0 < c.size <= |s|
  {
    var w := Width(s[0]);
    if w <= 1 then Chunk(1, w == 1)
    else if |s| < 2 || !SecondByte(s[0], s[1]) then Chunk(1, false)
    else if w == 2 then Chunk(2, true)
    else if |s| < 3 || !Continuation(s[2]) then Chunk(2, false)
    else if w == 3 then Chunk(3, true)
    else if |s| < 4 || !Continuation(s[3]) then Chunk(3, false)
    else Chunk(4, true)
  }

  // ----- well-formed characters are the encodings of scalar values -----

  predicate Scalar(c: int) {
    0 <= c < 0xD800 || 0xE000 <= c < 0x11_0000
  }

  /** Six bits of a number in a continuation byte. */
  function Tail(n: nat): byte {
    0x80 + n % 0x40
  }

  function Encode(c: int): (bytes: seq<byte>)
    requires Scalar(c)
    ensures 1 <= |bytes| <= 4
  {
    if c < 0x80 then [c]
    else if c < 0x800 then [0xC0 + c / 0x40, Tail(c)]
    else if c < 0x1_0000 then [0xE0 + c / 0x1000, Tail(c / 0x40), Tail(c)]
    else [0xF0 + c / 0x4_0000, Tail(c / 0x1000), Tail(c / 0x40), Tail(c)]
  }

  /** The number that the bytes of a character hold. */
  function Decoded(s: seq<byte>): int
    requires s != [] && Width(s[0]) in {1, 2, 3, 4} && |s| == Width(s[0])
  {
    if |s| == 1 then s[0]
    else if |s| == 2 then (s[0] as int - 0xC0) * 0x40 + (s[1] as int - 0x80)
    else if |s| == 3 then (s[0] as int - 0xE0) * 0x1000 + (s[1] as int - 0x80) * 0x40 + (s[2] as int - 0x80)
    else (s[0] as int - 0xF0) * 0x4_0000 + (s[1] as int - 0x80) * 0x1000 + (s[2] as int - 0x80) * 0x40
         + (s[3] as int - 0x80)
  }

  /** Every encoding of a scalar value is a well-formed character, whatever follows it. */
  lemma EncodingsAreWellFormed(c: int, rest: seq<byte>)
    requires Scalar(c)
    ensures Scan(Encode(c) + rest) == Chunk(|Encode(c)|, true)
  {
    EncodingIsWellFormed(c);
    ScanOfAppend(Encode(c), rest);
  }

  lemma EncodingIsWellFormed(c: int)
    requires Scalar(c)
    ensures Scan(Encode(c)) == Chunk(|Encode(c)|, true)
  {}

  /** And every well-formed character is the encoding of one. */
  lemma WellFormedIsEncoded(s: seq<byte>)
    requires s != [] && Scan(s).wellFormed
    ensures IsEncoded(s[..Scan(s).size])
  {
    var bytes := s[..Scan(s).size];
    if |bytes| == 3 {
      ThreeAreEncoded(bytes);
    } else if |bytes| == 4 {
      FourAreEncoded(bytes);
    }
  }

  predicate IsEncoded(bytes: seq<byte>) {
    bytes != [] && |bytes| == Width(bytes[0]) && Scalar(Decoded(bytes)) && Encode(Decoded(bytes)) == bytes
  }

  lemma ThreeAreEncoded(bytes: seq<byte>)
    requires |bytes| == 3 && Width(bytes[0]) == 3 && SecondByte(bytes[0], bytes[1]) && Continuation(bytes[2])
    ensures IsEncoded(bytes)
  {
    ThreeBytes(bytes[0] - 0xE0, bytes[1] - 0x80, bytes[2] - 0x80);
  }

  lemma FourAreEncoded(bytes: seq<byte>)
    requires |bytes| == 4 && Width(bytes[0]) == 4 && SecondByte(bytes[0], bytes[1])
    requires Continuation(bytes[2]) && Continuation(bytes[3])
    ensures IsEncoded(bytes)
  {
    FourBytes(bytes[0] - 0xF0, bytes[1] - 0x80, bytes[2] - 0x80, bytes[3] - 0x80);
  }

  lemma LowSixBits(q: nat, low: nat)
    requires low < 64
    ensures (q * 64 + low) / 64 == q && (q * 64 + low) % 64 == low
  {}

  lemma ThreeBytes(a: nat, b: nat, c: nat)
    requires b < 64 && c < 64
    ensures var n := a * 0x1000 + b * 0x40 + c; n / 0x1000 == a && n / 0x40 % 0x40 == b && n % 0x40 == c
  {
    LowSixBits(a * 64 + b, c);
    LowSixBits(a, b);
  }

  lemma FourBytes(a: nat, b: nat, c: nat, d: nat)
    requires b < 64 && c < 64 && d < 64
    ensures var n := a * 0x4_0000 + b * 0x1000 + c * 0x40 + d;
            n / 0x4_0000 == a && n / 0x1000 % 0x40 == b && n / 0x40 % 0x40 == c && n % 0x40 == d
  {
    LowSixBits(a * 4096 + b * 64 + c, d);
    LowSixBits(a * 64 + b, c);
    LowSixBits(a, b);
  }

  /** The bytes begin the encoding of some scalar value. */
  ghost predicate Begins(part: seq<byte>) {
    exists c :: Scalar(c) && part <= Encode(c)
  }

  /**
    An ill-formed subpart is as long as it can be: it begins some character, unless it is a single
    byte, and with one byte more nothing does.
   */
  lemma IllFormedIsMaximal(s: seq<byte>)
    requires s != [] && !Scan(s).wellFormed
    ensures Scan(s).size > 1 ==> Begins(s[..Scan(s).size])
    ensures Scan(s).size < |s| ==> !Begins(s[..Scan(s).size + 1])
    ensures Scan(s).size == |s| ==> forall c :: Scalar(c) ==> !(Encode(c) <= s)
  {
    var n := Scan(s).size;
    if n > 1 {
      SubpartBegins(s);
    }
    forall c | Scalar(c) ensures Encode(c) <= s ==> Scan(s).wellFormed {
      if Encode(c) <= s {
        BeginningIsKept(s, c, |Encode(c)|);
      }
    }
    if n < |s| {
      forall c | Scalar(c) ensures s[..n + 1] <= Encode(c) ==> Scan(s).wellFormed || Scan(s).size > n {
        if s[..n + 1] <= Encode(c) {
          BeginningIsKept(s, c, n + 1);
        }
      }
    }
  }

  /** Where `s` begins like a character, the scan goes at least as far, and takes the character if it is all there. */
  lemma BeginningIsKept(s: seq<byte>, c: int, k: nat)
    requires Scalar(c) && 0 < k <= |s| && s[..k] <= Encode(c)
    ensures Scan(s).wellFormed || Scan(s).size >= k
    ensures k == |Encode(c)| ==> Scan(s).wellFormed
  {
    EncodingsAreWellFormed(c, []);
    assert Encode(c) + [] == Encode(c);
    assert forall i :: 0 <= i < k ==> s[i] == s[..k][i] == Encode(c)[i];
  }

  /** A character that begins with the subpart: what is missing is filled with the least continuation bytes. */
  lemma SubpartBegins(s: seq<byte>)
    requires s != [] && !Scan(s).wellFormed && Scan(s).size > 1
    ensures Begins(s[..Scan(s).size])
  {
    var n := Scan(s).size;
    var bytes := s[..n] + seq(Width(s[0]) - n, _ => 0x80);
    assert Scan(bytes) == Chunk(|bytes|, true);
    assert bytes[..|bytes|] == bytes;
    WellFormedIsEncoded(bytes);
    assert s[..n] <= Encode(Decoded(bytes));
  }

  // ----- lossy conversion -----

  predicate Valid(s: seq<byte>)
    decreases |s|
  {
    s == [] || var c := Scan(s); c.wellFormed && Valid(s[c.size..])
  }

  const REPLACEMENT: seq<byte> := [0xEF, 0xBF, 0xBD]

  function Lossy(s: seq<byte>): seq<byte>
    decreases |s|
  {
    if s == [] then []
    else
      var c := Scan(s);
      (if c.wellFormed then s[..c.size] else REPLACEMENT) + Lossy(s[c.size..])
  }

  /** The first character is recognised whatever follows it, and as long as all of it is there. */
  lemma ScanOfAppend(s: seq<byte>, t: seq<byte>)
    requires s != [] && Scan(s).wellFormed
    ensures Scan(s + t) == Scan(s)
  {}

  lemma ScanOfTake(s: seq<byte>, w: nat)
    requires s != [] && Scan(s).wellFormed && Scan(s).size <= w <= |s|
    ensures Scan(s[..w]) == Scan(s)
  {}

  lemma {:induction false} ValidAppend(a: seq<byte>, b: seq<byte>)
    requires Valid(a) && Valid(b)
    ensures Valid(a + b)
    decreases |a|
  {
    if a == [] {
      assert a + b == b;
    } else {
      var n := Scan(a).size;
      ValidAppend(a[n..], b);
      ScanOfAppend(a, b);
      DropOfAppend(a, b, n);
    }
  }

  lemma OneCharIsValid(s: seq<byte>)
    requires s != [] && Scan(s).wellFormed
    ensures Valid(s[..Scan(s).size])
  {
    var n := Scan(s).size;
    ScanOfTake(s, n);
    assert s[..n][n..] == [];
  }

  lemma ReplacementIsValid()
    ensures Valid(REPLACEMENT)
  {
    assert REPLACEMENT[3..] == [];
  }

  lemma {:induction false} LossyIsValid(s: seq<byte>)
    ensures Valid(Lossy(s))
    decreases |s|
  {
    if s != [] {
      var c := Scan(s);
      LossyIsValid(s[c.size..]);
      if c.wellFormed {
        OneCharIsValid(s);
        ValidAppend(s[..c.size], Lossy(s[c.size..]));
      } else {
        ReplacementIsValid();
        ValidAppend(REPLACEMENT, Lossy(s[c.size..]));
      }
    }
  }

  lemma {:induction false} LossyKeepsValid(s: seq<byte>)
    requires Valid(s)
    ensures Lossy(s) == s
    decreases |s|
  {
    if s != [] {
      LossyKeepsValid(s[Scan(s).size..]);
      TakeAndDrop(s, Scan(s).size);
    }
  }

  /** The conversion always yields valid text and is the identity on exactly the valid inputs. */
  lemma LossyFixesExactlyTheValid(s: seq<byte>)
    ensures Valid(Lossy(s))
    ensures Lossy(s) == s <==> Valid(s)
  {
    LossyIsValid(s);
    if Valid(s) {
      LossyKeepsValid(s);
    }
  }

  lemma {:induction false} LossyNeverShrinks(s: seq<byte>)
    ensures |Lossy(s)| >= |s|
    decreases |s|
  {
    if s != [] {
      LossyNeverShrinks(s[Scan(s).size..]);
    }
  }

  /** Cutting valid text short damages at most its last character. */
  lemma {:induction false} LossyOfCutText(s: seq<byte>, w: nat)
    requires Valid(s) && w <= |s|
    ensures |Lossy(s[..w])| <= w + 2
    decreases |s|
  {
    if w != 0 {
      var n := Scan(s).size;
      if n <= w {
        LossyOfCutText(s[n..], w - n);
        ScanOfTake(s, w);
        DropOfTake(s, n, w);
      } else {
        assert Scan(s[..w]) == Chunk(w, false);
        assert Lossy(s[..w][w..]) == [];
      }
    }
  }

  lemma AsciiIsAlone(s: seq<byte>, k: nat)
    requires s != [] && Scan(s).wellFormed && k < Scan(s).size && s[k] < 0x80
    ensures k == 0 && Scan(s).size == 1
  {
    if k > 0 {
      TailOfChar(s, k);
    }
  }

  /** An ASCII byte is a character of its own, so valid text goes on being valid after it. */
  lemma {:induction false} ValidAfterAscii(s: seq<byte>, k: nat)
    requires Valid(s) && k < |s| && s[k] < 0x80
    ensures Valid(s[k + 1..])
    decreases |s|
  {
    var n := Scan(s).size;
    if n <= k {
      ValidAfterAscii(s[n..], k - n);
      DropDrop(s, n, k - n + 1);
    } else {
      AsciiIsAlone(s, k);
    }
  }

  // ----- where a cut falls -----

  lemma OneMoreChar(s: seq<byte>, k: nat)
    requires Valid(s) && s != [] && Scan(s).size + k <= |s| && Valid(s[Scan(s).size..][..k])
    ensures Valid(s[..Scan(s).size + k])
  {
    OneCharIsValid(s);
    ValidAppend(s[..Scan(s).size], s[Scan(s).size..][..k]);
    TakeSplit(s, Scan(s).size, k);
  }

  /** A character of `s` starts at `b` and takes in position `k`. */
  predicate Around(s: seq<byte>, k: nat, b: nat) {
    b <= k < |s| && Valid(s[..b]) && Valid(s[b..]) && k < b + Scan(s[b..]).size
  }

  lemma AroundLater(s: seq<byte>, k: nat, b: nat)
    requires Valid(s) && s != [] && Scan(s).size <= k < |s| && Around(s[Scan(s).size..], k - Scan(s).size, b)
    ensures Around(s, k, Scan(s).size + b)
  {
    DropDrop(s, Scan(s).size, b);
    OneMoreChar(s, b);
  }

  lemma AroundFirst(s: seq<byte>, k: nat)
    requires Valid(s) && k < |s| && k < Scan(s).size
    ensures Around(s, k, 0)
  {
    assert s[0..] == s && s[..0] == [];
  }

  /** Every position of valid text lies in a character. */
  lemma {:induction false} CharAround(s: seq<byte>, k: nat) returns (b: nat)
    requires Valid(s) && k < |s|
    ensures Around(s, k, b)
    decreases |s|
  {
    var n := Scan(s).size;
    if k < n {
      b := 0;
      AroundFirst(s, k);
    } else {
      var later := CharAround(s[n..], k - n);
      b := n + later;
      AroundLater(s, k, later);
    }
  }

  lemma TailOfChar(s: seq<byte>, i: nat)
    requires s != [] && Scan(s).wellFormed && 0 < i < Scan(s).size
    ensures Continuation(s[i])
  {}

  function Replacements(j: nat): seq<byte> {
    if j == 0 then [] else REPLACEMENT + Replacements(j - 1)
  }

  /** Stray continuation bytes are replaced one by one. */
  lemma {:induction false} LossyOfStrays(s: seq<byte>, j: nat)
    requires j <= |s| && forall i :: 0 <= i < j ==> Continuation(s[i])
    ensures Lossy(s) == Replacements(j) + Lossy(s[j..])
  {
    if j == 0 {
      assert s[0..] == s && [] + Lossy(s) == Lossy(s);
    } else {
      assert Scan(s) == Chunk(1, false);
      LossyOfStrays(s[1..], j - 1);
      DropDrop(s, 1, j - 1);
      Assoc(REPLACEMENT, Replacements(j - 1), Lossy(s[j..]));
    }
  }

  /** Valid text without its last byte is repaired to what it was exactly if it ended in U+FFFD. */
  lemma {:induction false} LossyWithoutLastByte(s: seq<byte>)
    requires Valid(s) && s != []
    ensures Lossy(s[..|s| - 1]) == s <==> |s| >= 3 && s[|s| - 3..] == REPLACEMENT
    decreases |s|
  {
    var n, w := Scan(s).size, |s| - 1;
    if n <= w {
      LossyWithoutLastByte(s[n..]);
      ScanOfTake(s, w);
      DropOfTake(s, n, w);
      assert s[..w][..n] == s[..n];
      SameFront(s[..n], Lossy(s[n..][..w - n]), s);
      EndsAlike(s, n);
    } else {
      assert Scan(s).size == |s|;
      OnlyCharCut(s);
    }
  }

  lemma SameFront(a: seq<byte>, b: seq<byte>, s: seq<byte>)
    requires |a| <= |s| && s[..|a|] == a
    ensures a + b == s <==> b == s[|a|..]
  {
    TakeAndDrop(s, |a|);
  }

  /** A replacement character at the end lies behind the first character. */
  lemma EndsAlike(s: seq<byte>, n: nat)
    requires Valid(s) && s != [] && n == Scan(s).size < |s|
    ensures |s| >= 3 && s[|s| - 3..] == REPLACEMENT <==> |s[n..]| >= 3 && s[n..][|s[n..]| - 3..] == REPLACEMENT
  {
    var rest := s[n..];
    if |rest| >= 3 {
      DropDrop(s, n, |rest| - 3);
    } else if |s| >= 3 {
      assert rest[0] == s[n];
      LeadIsNoContinuation(rest);
      LeadAmongLastThree(s, n);
    }
  }

  lemma LeadIsNoContinuation(s: seq<byte>)
    requires s != [] && Scan(s).wellFormed
    ensures !Continuation(s[0])
  {}

  lemma LeadAmongLastThree(s: seq<byte>, n: nat)
    requires |s| >= 3 && |s| - 3 < n < |s| && !Continuation(s[n])
    ensures s[|s| - 3..] != REPLACEMENT
  {
    var last, i := s[|s| - 3..], n - (|s| - 3);
    assert last[i] == s[n] && (i == 1 || i == 2);
    assert Continuation(REPLACEMENT[1]) && Continuation(REPLACEMENT[2]);
  }

  lemma CutChar(s: seq<byte>)
    requires |s| >= 2 && Scan(s) == Chunk(|s|, true)
    ensures Lossy(s[..|s| - 1]) == REPLACEMENT
  {
    var cut := s[..|s| - 1];
    CutCharScan(s);
    assert cut[|cut|..] == [] && Lossy([]) == [];
    assert REPLACEMENT + [] == REPLACEMENT;
  }

  lemma CutCharScan(s: seq<byte>)
    requires |s| >= 2 && Scan(s) == Chunk(|s|, true)
    ensures Scan(s[..|s| - 1]) == Chunk(|s| - 1, false)
  {}

  lemma OnlyCharCut(s: seq<byte>)
    requires s != [] && Scan(s) == Chunk(|s|, true)
    ensures Lossy(s[..|s| - 1]) == s <==> |s| >= 3 && s[|s| - 3..] == REPLACEMENT
  {
    if |s| == 1 {
      assert s[..0] == [];
    } else {
      CutChar(s);
      if |s| == 3 {
        assert s[0..] == s;
      } else if |s| == 4 {
        TailOfChar(s, 1);
        assert s[1..][0] == s[1];
      }
    }
  }
}
