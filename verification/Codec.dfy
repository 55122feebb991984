/**
  The little-endian XCDR2 codec of ShapeType (srcRs/HDDS/src/main.rs): an @appendable
  struct is a DHEADER (section 7.4.2 of DDS-XTypes 1.3) followed by its members.
 */
module Codec {
  import opened Bytes
  import Utf8

  const DHEADER_MIN: nat := 16

  type Int32 = x: int | -0x8000_0000 <= x < 0x8000_0000

  datatype ShapeRecord = ShapeRecord(color: seq<byte>, x: Int32, y: Int32, shapesize: Int32, payload: seq<byte>)
  {
    /** `color` is a Rust `String`, which is always valid UTF-8. */
    predicate IsShape() {
      Utf8.Valid(color)
    }
  }

  /** `Vec` and `String` lengths that survive the cast to `u32`. */
  predicate LengthsFitU32(s: ShapeRecord) {
    |s.color| + 1 < TWO32 && |s.payload| < TWO32
  }

  // ----- primitive encodings -----

  /** The `i`-th byte of `n`, counted from the lowest. */
  function Digit(n: nat, i: nat): byte
    decreases i
  {
    if i == 0 then n % 256 else Digit(n / 256, i - 1)
  }

  function FromLe(bytes: seq<byte>): nat {
    if bytes == [] then 0 else bytes[0] + 256 * FromLe(bytes[1..])
  }

  function Pow256(k: nat): nat {
    if k == 0 then 1 else 256 * Pow256(k - 1)
  }

  lemma {:induction false} DigitsReadBack(n: nat, bytes: seq<byte>)
    requires n < Pow256(|bytes|) && forall i :: 0 <= i < |bytes| ==> bytes[i] == Digit(n, i)
    ensures FromLe(bytes) == n
  {
    if bytes != [] {
      forall i | 0 <= i < |bytes| - 1 ensures bytes[1..][i] == Digit(n / 256, i) {
        assert bytes[i + 1] == Digit(n, i + 1);
      }
      DigitsReadBack(n / 256, bytes[1..]);
    }
  }

  lemma {:induction false} FromLeBounded(bytes: seq<byte>)
    ensures FromLe(bytes) < Pow256(|bytes|)
  {
    if bytes != [] {
      FromLeBounded(bytes[1..]);
    }
  }

  lemma FourBytes()
    ensures Pow256(4) == TWO32
  {
    assert Pow256(1) == 256 && Pow256(2) == 65536 && Pow256(3) == 16777216;
  }

  /** `(n as u32).to_le_bytes()`: the cast keeps the low 32 bits. */
  function Le32(n: int): (bytes: seq<byte>)
    ensures |bytes| == 4
  {
    seq(4, i requires 0 <= i => Digit(n % TWO32, i))
  }

  function U32At(src: seq<byte>, at: nat): (u: nat)
    requires at + 4 <= |src|
    ensures u < TWO32
  {
    FourBytes();
    FromLeBounded(src[at..at + 4]);
    FromLe(src[at..at + 4])
  }

  function I32At(src: seq<byte>, at: nat): Int32
    requires at + 4 <= |src|
  {
    var u := U32At(src, at);
    if u < 0x8000_0000 then u else u - TWO32
  }

  lemma Le32RoundTrip(n: int, src: seq<byte>, at: nat)
    requires at + 4 <= |src| && src[at..at + 4] == Le32(n)
    ensures U32At(src, at) == n % TWO32
    ensures -0x8000_0000 <= n < 0x8000_0000 ==> I32At(src, at) == n
  {
    FourBytes();
    DigitsReadBack(n % TWO32, Le32(n));
  }

  /** The next multiple of four, in the three ways the code computes it. */
  function Align4(n: nat): (a: nat)
    ensures n <= a <= n + 3 && a % 4 == 0
  {
    if n % 4 == 0 then n else n + 4 - n % 4
  }

  lemma AlignmentForms(n: nat)
    ensures n + (4 - n % 4) % 4 == Align4(n)
    ensures (n + 3) / 4 * 4 == Align4(n)
    ensures Align4(n + 4) == Align4(n) + 4
  {}

  function Zeros(n: nat): seq<byte> {
    seq(n, _ => 0)
  }

  // ----- the wire form -----

  /** End of the NUL-terminated colour, and of its padding, counted from the start of the body. */
  function StringEnd(s: ShapeRecord): nat {
    4 + |s.color| + 1
  }

  function FixedStart(s: ShapeRecord): nat {
    Align4(StringEnd(s))
  }

  function Text(s: ShapeRecord): (b: seq<byte>)
    ensures |b| == StringEnd(s)
  {
    Le32(|s.color| + 1) + s.color + [0]
  }

  function Fixed(s: ShapeRecord): (b: seq<byte>)
    ensures |b| == 12
  {
    Le32(s.x) + Le32(s.y) + Le32(s.shapesize)
  }

  function Body(s: ShapeRecord): (b: seq<byte>)
    ensures |b| == FixedStart(s) + 16 + |s.payload|
  {
    Text(s) + Zeros(FixedStart(s) - StringEnd(s)) + Fixed(s) + Le32(|s.payload|) + s.payload
  }

  function Wire(s: ShapeRecord): seq<byte> {
    Le32(|Body(s)|) + Body(s)
  }

  function MaxCdr2Size(s: ShapeRecord): nat {
    4 + 4 + |s.color| + 1 + 3 + 12 + 4 + |s.payload|
  }

  // ----- encoding -----

  /** `IndexPanic` is the out-of-bounds abort of the padding loop, which runs before the bounds check. */
  datatype EncodeResult = Encoded(size: nat) | BufferTooSmall | IndexPanic

  function EncodeOutcome(s: ShapeRecord, capacity: nat): EncodeResult {
    if |Wire(s)| <= capacity then Encoded(|Wire(s)|)
    else if 4 + StringEnd(s) <= capacity < 4 + FixedStart(s) then IndexPanic
    else BufferTooSmall
  }

  /** How far a failing call has written the body; the header is only written at the very end. */
  function WrittenOnFailure(s: ShapeRecord, capacity: nat): (end: nat)
    requires capacity < |Wire(s)|
    ensures end <= |Wire(s)| && (end == 0 || 4 <= end <= capacity)
  {
    if capacity < 4 + StringEnd(s) then 0
    else if capacity < 4 + FixedStart(s) then capacity
    else if capacity < 4 + FixedStart(s) + 12 then 4 + FixedStart(s)
    else 4 + FixedStart(s) + 12
  }

  function BufferAfter(s: ShapeRecord, before: seq<byte>): (after: seq<byte>)
    ensures |after| == |before|
  {
    if |Wire(s)| <= |before| then Wire(s) + before[|Wire(s)|..]
    else
      var end := WrittenOnFailure(s, |before|);
      if end == 0 then before else before[..4] + Wire(s)[4..end] + before[end..]
  }

  /** `dst[at..at + data.len()].copy_from_slice(data)` */
  method CopyFromSlice(dst: array<byte>, at: nat, data: seq<byte>)
    requires at + |data| <= dst.Length
    modifies dst
    ensures dst[..at] == old(dst[..at])
    ensures dst[at..at + |data|] == data
    ensures dst[at + |data|..] == old(dst[at + |data|..])
  {
    for i := 0 to |data|
      invariant dst[..at] == old(dst[..at])
      invariant forall j :: 0 <= j < i ==> dst[at + j] == data[j]
      invariant dst[at + |data|..] == old(dst[at + |data|..])
    {
      dst[at + i] := data[i];
    }
  }

  /** The buffer holds `part` from position 4 on and is otherwise as it was. */
  ghost predicate Holds(now: seq<byte>, before: seq<byte>, part: seq<byte>) {
    && |now| == |before| && 4 + |part| <= |now|
    && now == before[..4] + part + before[4 + |part|..]
  }

  /** Append `data` to the part of the body written so far. */
  method Append(dst: array<byte>, ghost before: seq<byte>, ghost part: seq<byte>, offset: nat, data: seq<byte>)
    returns (next: nat, ghost grown: seq<byte>)
    requires Holds(dst[..], before, part) && offset == 4 + |part|
    requires offset + |data| <= dst.Length
    modifies dst
    ensures grown == part + data && next == 4 + |grown|
    ensures Holds(dst[..], before, grown)
  {
    ghost var was := dst[..];
    CopyFromSlice(dst, offset, data);
    next, grown := offset + |data|, part + data;
    assert dst[..] == dst[..offset] + dst[offset..next] + dst[next..];
    assert dst[..offset] == was[..offset] == before[..4] + part;
    assert dst[next..] == was[next..] == before[next..];
  }

  function Padded(s: ShapeRecord, n: nat): seq<byte> {
    Text(s) + Zeros(n)
  }

  lemma BodyPrefixes(s: ShapeRecord, n: nat)
    requires n <= FixedStart(s) - StringEnd(s)
    ensures Padded(s, n) <= Body(s)
    ensures n == FixedStart(s) - StringEnd(s) ==> Padded(s, n) + Fixed(s) <= Body(s)
  {
    var all := Padded(s, FixedStart(s) - StringEnd(s));
    assert all <= Body(s);
    assert Padded(s, n) == all[..|Padded(s, n)|];
  }

  lemma FailedState(s: ShapeRecord, before: seq<byte>, now: seq<byte>, part: seq<byte>)
    requires Holds(now, before, part) && part <= Body(s)
    requires |before| < |Wire(s)| && WrittenOnFailure(s, |before|) == 4 + |part|
    ensures now == BufferAfter(s, before)
  {
    assert Wire(s)[4..4 + |part|] == part;
  }

  /** The colour member; the caller has checked that it fits. */
  method EncodeText(s: ShapeRecord, dst: array<byte>) returns (offset: nat)
    requires 4 + StringEnd(s) <= dst.Length
    modifies dst
    ensures offset == 4 + StringEnd(s)
    ensures Holds(dst[..], old(dst[..]), Text(s))
  {
    ghost var before := dst[..];
    ghost var part: seq<byte> := [];
    offset, part := Append(dst, before, part, 4, Le32(|s.color| + 1));
    offset, part := Append(dst, before, part, offset, s.color);
    offset, part := Append(dst, before, part, offset, [0]);
    assert part == Text(s);
  }

  /** The padding loop: it indexes the buffer without a bounds check of its own. */
  method EncodePadding(s: ShapeRecord, dst: array<byte>, ghost before: seq<byte>, start: nat)
    returns (offset: nat, panicked: bool)
    requires Holds(dst[..], before, Text(s)) && start == 4 + StringEnd(s)
    modifies dst
    ensures panicked <==> dst.Length < 4 + FixedStart(s)
    ensures offset == if panicked then dst.Length else 4 + FixedStart(s)
    ensures Holds(dst[..], before, Padded(s, offset - start))
  {
    var padding := (4 - start % 4) % 4;
    AlignmentForms(start);
    AlignmentForms(StringEnd(s));
    ghost var part := Text(s);
    offset := start;
    assert part == Padded(s, 0);
    for i := 0 to padding
      invariant offset == start + i && part == Padded(s, i)
      invariant Holds(dst[..], before, part)
    {
      if offset >= dst.Length {
        return offset, true;
      }
      offset, part := Append(dst, before, part, offset, [0]);
    }
    panicked := false;
  }

  method EncodeFixed(s: ShapeRecord, dst: array<byte>, ghost before: seq<byte>, ghost part: seq<byte>, start: nat)
    returns (offset: nat)
    requires Holds(dst[..], before, part) && start == 4 + |part| && start + 12 <= dst.Length
    modifies dst
    ensures offset == start + 12 && Holds(dst[..], before, part + Fixed(s))
  {
    ghost var grown := part;
    offset, grown := Append(dst, before, grown, start, Le32(s.x));
    offset, grown := Append(dst, before, grown, offset, Le32(s.y));
    offset, grown := Append(dst, before, grown, offset, Le32(s.shapesize));
    assert grown == part + Fixed(s);
  }

  method EncodeSequence(s: ShapeRecord, dst: array<byte>, ghost before: seq<byte>, ghost part: seq<byte>, start: nat)
    returns (offset: nat)
    requires Holds(dst[..], before, part) && start == 4 + |part| && start + 4 + |s.payload| <= dst.Length
    modifies dst
    ensures offset == start + 4 + |s.payload|
    ensures Holds(dst[..], before, part + Le32(|s.payload|) + s.payload)
  {
    ghost var grown := part;
    offset, grown := Append(dst, before, grown, start, Le32(|s.payload|));
    if |s.payload| > 0 {
      offset, grown := Append(dst, before, grown, offset, s.payload);
    }
    assert grown == part + Le32(|s.payload|) + s.payload;
  }

  /** `encode_cdr2_le` */
  method EncodeCdr2Le(s: ShapeRecord, dst: array<byte>) returns (r: EncodeResult)
    modifies dst
    ensures r == EncodeOutcome(s, dst.Length)
    ensures dst[..] == BufferAfter(s, old(dst[..]))
  {
    if dst.Length < 4 || dst.Length < 4 + 4 + (|s.color| + 1) {
      return BufferTooSmall;
    }
    r := EncodeMembers(s, dst);
  }

  /** From the colour on, which is known to fit. */
  method EncodeMembers(s: ShapeRecord, dst: array<byte>) returns (r: EncodeResult)
    requires 4 + StringEnd(s) <= dst.Length
    modifies dst
    ensures r == EncodeOutcome(s, dst.Length)
    ensures dst[..] == BufferAfter(s, old(dst[..]))
  {
    ghost var before := dst[..];
    var offset := EncodeText(s, dst);
    ghost var start := offset;
    var panicked;
    offset, panicked := EncodePadding(s, dst, before, offset);
    BodyPrefixes(s, offset - start);
    if panicked {
      FailedState(s, before, dst[..], Padded(s, offset - start));
      return IndexPanic;
    }
    r := EncodeNumbers(s, dst, before, offset);
  }

  /** From the numbers on. */
  method EncodeNumbers(s: ShapeRecord, dst: array<byte>, ghost before: seq<byte>, start: nat) returns (r: EncodeResult)
    requires start == 4 + FixedStart(s) && Holds(dst[..], before, Padded(s, FixedStart(s) - StringEnd(s)))
    modifies dst
    ensures r == EncodeOutcome(s, dst.Length) && dst[..] == BufferAfter(s, before)
  {
    ghost var part := Padded(s, FixedStart(s) - StringEnd(s));
    BodyPrefixes(s, FixedStart(s) - StringEnd(s));
    if dst.Length < start + 12 {
      FailedState(s, before, dst[..], part);
      return BufferTooSmall;
    }
    var offset := EncodeFixed(s, dst, before, part, start);
    r := EncodePayload(s, dst, before, part + Fixed(s), offset);
  }

  /** The sequence, and then the header. */
  method EncodePayload(s: ShapeRecord, dst: array<byte>, ghost before: seq<byte>, ghost part: seq<byte>, start: nat)
    returns (r: EncodeResult)
    requires start == 4 + FixedStart(s) + 12 && part == Padded(s, FixedStart(s) - StringEnd(s)) + Fixed(s)
    requires part <= Body(s) && Holds(dst[..], before, part)
    modifies dst
    ensures r == EncodeOutcome(s, dst.Length) && dst[..] == BufferAfter(s, before)
  {
    if dst.Length < start + 4 + |s.payload| {
      FailedState(s, before, dst[..], part);
      return BufferTooSmall;
    }
    var offset := EncodeSequence(s, dst, before, part, start);
    FillHeader(s, dst, before, offset);
    r := Encoded(offset);
  }

  /** The DHEADER is written last, over its placeholder. */
  method FillHeader(s: ShapeRecord, dst: array<byte>, ghost before: seq<byte>, offset: nat)
    requires Holds(dst[..], before, Body(s)) && offset == |Wire(s)|
    modifies dst
    ensures dst[..] == Wire(s) + before[|Wire(s)|..]
  {
    ghost var was := dst[..];
    CopyFromSlice(dst, 0, Le32(offset - 4));
    assert dst[..] == dst[..4] + dst[4..];
    assert dst[..4] == Le32(|Body(s)|);
    assert dst[4..] == was[4..] == Body(s) + before[offset..];
  }

  /**
    A buffer of `max_cdr2_size` bytes always suffices and at most three of them go unused;
    the call succeeds exactly when the whole wire form fits, and aborts exactly when the
    buffer ends inside the padding.
   */
  lemma EncodeSucceedsExactlyWhenItFits(s: ShapeRecord, capacity: nat)
    ensures MaxCdr2Size(s) - 3 <= |Wire(s)| <= MaxCdr2Size(s)
    ensures EncodeOutcome(s, capacity).Encoded? <==> |Wire(s)| <= capacity
    ensures EncodeOutcome(s, capacity).IndexPanic? <==> |s.color| + 9 <= capacity < Align4(|s.color| + 9)
  {
    AlignmentForms(StringEnd(s));
  }

  /** With an empty colour, buffers of 9 to 11 bytes make the padding loop abort. */
  lemma PaddingCanAbort(s: ShapeRecord, capacity: nat)
    requires s.color == []
    ensures EncodeOutcome(s, capacity).IndexPanic? <==> 9 <= capacity <= 11
  {
    EncodeSucceedsExactlyWhenItFits(s, capacity);
  }

  // ----- decoding -----

  datatype DecodeResult = Decoded(shape: ShapeRecord, consumed: nat) | UnexpectedEof

  /** The decoder's guess that a DHEADER is present. */
  predicate LooksDelimited(src: seq<byte>)
    requires |src| >= 4
  {
    U32At(src, 0) >= DHEADER_MIN && U32At(src, 0) + 4 <= |src|
  }

  datatype TextResult = Parsed(raw: seq<byte>, end: nat) | TextEof
  datatype RestResult = Rest(x: Int32, y: Int32, shapesize: Int32, payload: seq<byte>, end: nat) | RestEof

  function WithoutNul(strLen: nat): nat {
    if strLen > 0 then strLen - 1 else 0
  }

  function ParseText(src: seq<byte>, at: nat): (r: TextResult)
    ensures r.Parsed? ==> at + 4 <= r.end <= |src|
  {
    if |src| < at + 4 then TextEof
    else
      var strLen := U32At(src, at);
      if |src| < at + 4 + strLen then TextEof
      else Parsed(src[at + 4..at + 4 + WithoutNul(strLen)], at + 4 + strLen)
  }

  function ParseRest(src: seq<byte>, at: nat): (r: RestResult)
    ensures r.Rest? ==> at + 16 <= r.end <= |src| && |r.payload| == r.end - at - 16
  {
    if |src| < at + 16 then RestEof
    else
      var end := at + 16 + U32At(src, at + 12);
      if |src| < end then RestEof
      else Rest(I32At(src, at), I32At(src, at + 4), I32At(src, at + 8), src[at + 16..end], end)
  }

  /** The members of a ShapeType from position `at` on, with the colour as raw bytes. */
  function ParseMembers(src: seq<byte>, at: nat): DecodeResult {
    var text := ParseText(src, at);
    if text.TextEof? then UnexpectedEof
    else
      var rest := ParseRest(src, Align4(text.end));
      if rest.RestEof? then UnexpectedEof
      else Decoded(ShapeRecord(text.raw, rest.x, rest.y, rest.shapesize, rest.payload), rest.end)
  }

  function LossyColor(r: DecodeResult): DecodeResult {
    match r
    case Decoded(shape, consumed) => Decoded(shape.(color := Utf8.Lossy(shape.color)), consumed)
    case UnexpectedEof => UnexpectedEof
  }

  function Parse(src: seq<byte>): DecodeResult {
    if |src| < 4 then UnexpectedEof
    else LossyColor(ParseMembers(src, if LooksDelimited(src) then 4 else 0))
  }

  /** `decode_cdr2_le`: on every byte string it either reports an early end or stays within the input. */
  method DecodeCdr2Le(src: seq<byte>) returns (r: DecodeResult)
    ensures r == Parse(src)
    ensures r.Decoded? ==> r.consumed <= |src|
  {
    var offset: nat := 0;
    if |src| < 4 {
      return UnexpectedEof;
    }
    var firstU32 := U32At(src, 0);
    if firstU32 >= DHEADER_MIN && firstU32 + 4 <= |src| {
      offset := offset + 4;
    }
    ghost var start := offset;
    if |src| < offset + 4 {
      return UnexpectedEof;
    }
    var strLen := U32At(src, offset);
    offset := offset + 4;
    if |src| < offset + strLen {
      return UnexpectedEof;
    }
    var colorEnd := WithoutNul(strLen);
    var raw := src[offset..offset + colorEnd];
    offset := offset + strLen;
    assert ParseText(src, start) == Parsed(raw, offset);
    AlignmentForms(offset);
    offset := (offset + 3) / 4 * 4;
    r := DecodeNumbers(src, raw, offset);
    r := LossyColor(r);
  }

  /** The members after the colour. */
  method DecodeNumbers(src: seq<byte>, color: seq<byte>, start: nat) returns (r: DecodeResult)
    ensures var rest := ParseRest(src, start);
            r == if rest.RestEof? then UnexpectedEof
                 else Decoded(ShapeRecord(color, rest.x, rest.y, rest.shapesize, rest.payload), rest.end)
  {
    var offset := start;
    if |src| < offset + 12 {
      return UnexpectedEof;
    }
    var x := I32At(src, offset);
    offset := offset + 4;
    var y := I32At(src, offset);
    offset := offset + 4;
    var shapesize := I32At(src, offset);
    offset := offset + 4;
    if |src| < offset + 4 {
      return UnexpectedEof;
    }
    var seqLen := U32At(src, offset);
    offset := offset + 4;
    var payload: seq<byte> := [];
    if seqLen > 0 {
      if |src| < offset + seqLen {
        return UnexpectedEof;
      }
      payload := src[offset..offset + seqLen];
      offset := offset + seqLen;
    }
    r := Decoded(ShapeRecord(color, x, y, shapesize, payload), offset);
  }

  /** `field` stands in `src` at position `at`. */
  ghost predicate At(src: seq<byte>, at: nat, field: seq<byte>) {
    at + |field| <= |src| && src[at..at + |field|] == field
  }

  lemma AtSplit(src: seq<byte>, at: nat, a: seq<byte>, b: seq<byte>)
    requires At(src, at, a + b)
    ensures At(src, at, a) && At(src, at + |a|, b)
  {
    var both := src[at..at + |a| + |b|];
    assert src[at..at + |a|] == both[..|a|] == a;
    assert src[at + |a|..at + |a| + |b|] == both[|a|..] == b;
  }

  lemma ReadsU32(src: seq<byte>, at: nat, n: nat)
    requires At(src, at, Le32(n)) && n < TWO32
    ensures at + 4 <= |src| && U32At(src, at) == n
  {
    Le32RoundTrip(n, src, at);
  }

  lemma ReadsI32(src: seq<byte>, at: nat, n: Int32)
    requires At(src, at, Le32(n))
    ensures at + 4 <= |src| && I32At(src, at) == n
  {
    Le32RoundTrip(n, src, at);
  }

  lemma TextRoundTrip(src: seq<byte>, at: nat, color: seq<byte>)
    requires |color| + 1 < TWO32
    requires At(src, at, Le32(|color| + 1) + color + [0])
    ensures ParseText(src, at) == Parsed(color, at + 4 + |color| + 1)
  {
    AtSplit(src, at, Le32(|color| + 1) + color, [0]);
    AtSplit(src, at, Le32(|color| + 1), color);
    ReadsU32(src, at, |color| + 1);
    assert src[at + 4..at + 4 + WithoutNul(|color| + 1)] == color;
  }

  lemma RestRoundTrip(src: seq<byte>, at: nat, x: Int32, y: Int32, z: Int32, payload: seq<byte>)
    requires |payload| < TWO32
    requires At(src, at, Le32(x) + Le32(y) + Le32(z)) && At(src, at + 12, Le32(|payload|) + payload)
    ensures ParseRest(src, at) == Rest(x, y, z, payload, at + 16 + |payload|)
  {
    AtSplit(src, at, Le32(x) + Le32(y), Le32(z));
    AtSplit(src, at, Le32(x), Le32(y));
    AtSplit(src, at + 12, Le32(|payload|), payload);
    ReadsI32(src, at, x);
    ReadsI32(src, at + 4, y);
    ReadsI32(src, at + 8, z);
    ReadsU32(src, at + 12, |payload|);
  }

  lemma AlignShift(at: nat, n: nat)
    requires at % 4 == 0
    ensures Align4(at + n) == at + Align4(n)
  {}

  lemma BodyFields(s: ShapeRecord, src: seq<byte>, at: nat)
    requires At(src, at, Body(s))
    ensures At(src, at, Text(s)) && At(src, at + FixedStart(s), Fixed(s))
    ensures At(src, at + FixedStart(s) + 12, Le32(|s.payload|) + s.payload)
  {
    var text, pad, fixed, count := Text(s), Zeros(FixedStart(s) - StringEnd(s)), Fixed(s), Le32(|s.payload|);
    assert Body(s) == text + pad + fixed + (count + s.payload);
    AtSplit(src, at, text + pad + fixed, count + s.payload);
    AtSplit(src, at, text + pad, fixed);
    AtSplit(src, at, text, pad);
  }

  /** A text and what follows its padding make a value. */
  lemma Assemble(src: seq<byte>, at: nat, raw: seq<byte>, end: nat, x: Int32, y: Int32, z: Int32, payload: seq<byte>,
                 last: nat)
    requires ParseText(src, at) == Parsed(raw, end) && ParseRest(src, Align4(end)) == Rest(x, y, z, payload, last)
    ensures ParseMembers(src, at) == Decoded(ShapeRecord(raw, x, y, z, payload), last)
  {}

  /** Reading back the members of `s`, wherever on a 4-byte boundary they start. */
  lemma MembersRoundTrip(s: ShapeRecord, src: seq<byte>, at: nat)
    requires LengthsFitU32(s) && at % 4 == 0 && At(src, at, Body(s))
    ensures ParseMembers(src, at) == Decoded(s, at + |Body(s)|)
  {
    BodyFields(s, src, at);
    TextRoundTrip(src, at, s.color);
    RestRoundTrip(src, at + FixedStart(s), s.x, s.y, s.shapesize, s.payload);
    AlignShift(at, StringEnd(s));
    Assemble(src, at, s.color, at + StringEnd(s), s.x, s.y, s.shapesize, s.payload,
             at + FixedStart(s) + 16 + |s.payload|);
  }

  lemma AlignMonotone(a: nat, b: nat)
    requires a <= b
    ensures Align4(a) <= Align4(b)
  {}

  /** A parse that consumed everything puts the fixed members right in front of the sequence. */
  lemma FixedMembersPosition(src: seq<byte>, at: nat)
    requires ParseMembers(src, at).Decoded?
    ensures ParseText(src, at).Parsed? && at + 4 <= |src|
    ensures var r := ParseMembers(src, at);
            && r.shape.color == src[at + 4..at + 4 + WithoutNul(U32At(src, at))]
            && r.consumed == Align4(at + 4 + U32At(src, at)) + 16 + |r.shape.payload|
  {}

  /** Parsed without a header, a value takes no more than its own members need. */
  lemma UndelimitedLength(src: seq<byte>)
    requires |src| >= 4 && !LooksDelimited(src) && Parse(src).Decoded?
    ensures var r := Parse(src); r.consumed <= Align4(4 + |r.shape.color| + 1) + 16 + |r.shape.payload|
  {
    FixedMembersPosition(src, 0);
    var raw := ParseMembers(src, 0).shape.color;
    Utf8.LossyNeverShrinks(raw);
    AlignMonotone(4 + U32At(src, 0), 4 + |Utf8.Lossy(raw)| + 1);
  }

  lemma DelimitedRoundTrip(s: ShapeRecord, src: seq<byte>, at: nat)
    requires s.IsShape() && LengthsFitU32(s) && at % 4 == 0 && At(src, at, Body(s))
    requires |src| >= 4 && at == if LooksDelimited(src) then 4 else 0
    ensures Parse(src) == Decoded(s, at + |Body(s)|)
  {
    MembersRoundTrip(s, src, at);
    Utf8.LossyKeepsValid(s.color);
  }

  lemma WireIsDelimited(s: ShapeRecord, rest: seq<byte>)
    ensures |Body(s)| >= 24
    ensures LooksDelimited(Wire(s) + rest) <==> |Body(s)| % TWO32 >= DHEADER_MIN
    ensures At(Wire(s) + rest, 4, Body(s)) && U32At(Wire(s) + rest, 0) == |Body(s)| % TWO32
  {
    var src := Wire(s) + rest;
    assert src[0..4] == Le32(|Body(s)|);
    Le32RoundTrip(|Body(s)|, src, 0);
    assert |Body(s)| % TWO32 <= |Body(s)|;
    assert StringEnd(s) >= 5;
  }

  /**
    Decoding what was encoded, with anything after it, gives the shape and the encoded length
    back exactly when the DHEADER value (the body length as a u32) reads as a header.
   */
  lemma RoundTripExactlyWhenHeaderIsSeen(s: ShapeRecord, rest: seq<byte>)
    requires s.IsShape() && LengthsFitU32(s)
    ensures Parse(Wire(s) + rest) == Decoded(s, |Wire(s)|) <==> |Body(s)| % TWO32 >= DHEADER_MIN
  {
    var src := Wire(s) + rest;
    WireIsDelimited(s, rest);
    assert |Wire(s)| == 4 + |Body(s)|;
    assert |Body(s)| == Align4(4 + |s.color| + 1) + 16 + |s.payload|;
    if |Body(s)| % TWO32 >= DHEADER_MIN {
      DelimitedRoundTrip(s, src, 4);
    } else if Parse(src) == Decoded(s, |Wire(s)|) {
      UndelimitedLength(src);
    }
  }

  /** Below 4 GiB the header is always seen, so the round trip always holds. */
  lemma RoundTrip(s: ShapeRecord, rest: seq<byte>)
    requires s.IsShape() && |Body(s)| < TWO32
    ensures Parse(Wire(s) + rest) == Decoded(s, |Wire(s)|)
  {
    WireIsDelimited(s, rest);
    DelimitedRoundTrip(s, Wire(s) + rest, 4);
  }

  /** A shape whose body is exactly 4 GiB long is not read back: its header says zero. */
  lemma HeaderCanBeMissed(payload: seq<byte>, rest: seq<byte>)
    requires |payload| == TWO32 - 24
    ensures var s := ShapeRecord([], 0, 0, 0, payload);
            s.IsShape() && LengthsFitU32(s) && Parse(Wire(s) + rest) != Decoded(s, |Wire(s)|)
  {
    var s := ShapeRecord([], 0, 0, 0, payload);
    assert |Body(s)| == TWO32;
    RoundTripExactlyWhenHeaderIsSeen(s, rest);
  }

  /** A successful call leaves bytes that decode to the shape, as many as it reports, and nothing else changed. */
  lemma EncodedBuffersDecode(s: ShapeRecord, before: seq<byte>, n: nat)
    requires s.IsShape() && |Body(s)| < TWO32 && EncodeOutcome(s, |before|) == Encoded(n)
    ensures n <= |before| && BufferAfter(s, before)[n..] == before[n..]
    ensures Parse(BufferAfter(s, before)) == Parse(BufferAfter(s, before)[..n]) == Decoded(s, n)
  {
    RoundTrip(s, before[n..]);
    RoundTrip(s, []);
    assert Wire(s) + [] == Wire(s) == BufferAfter(s, before)[..n];
  }

  // ----- what is decoded from which bytes -----

  /** The bytes of a message, piece by piece. */
  datatype Layout = Layout(
    header: seq<byte>, length: seq<byte>, text: seq<byte>, padding: seq<byte>,
    x: seq<byte>, y: seq<byte>, shapesize: seq<byte>, count: seq<byte>, payload: seq<byte>, rest: seq<byte>)

  function BeforePadding(l: Layout): seq<byte> {
    l.header + l.length + l.text
  }

  function BeforeRest(l: Layout): seq<byte> {
    BeforePadding(l) + l.padding + l.x + l.y + l.shapesize + l.count + l.payload
  }

  /** Whether the first four bytes are taken for a header. */
  predicate HeaderSeen(src: seq<byte>) {
    |src| >= 4 && FromLe(src[..4]) >= 16 && FromLe(src[..4]) <= |src| - 4
  }

  /** The pieces make up `src`, the numbers have four bytes, and the two lengths are those of what follows them. */
  predicate LaidOut(src: seq<byte>, l: Layout) {
    && src == BeforeRest(l) + l.rest
    && l.header == (if HeaderSeen(src) then src[..4] else [])
    && |l.length| == |l.x| == |l.y| == |l.shapesize| == |l.count| == 4
    && FromLe(l.length) == |l.text| && FromLe(l.count) == |l.payload|
    && |l.padding| < 4 && (|BeforePadding(l)| + |l.padding|) % 4 == 0
  }

  /** A number in two's complement. */
  function Signed(bytes: seq<byte>): Int32
    requires |bytes| == 4
  {
    FourBytes();
    FromLeBounded(bytes);
    if bytes[3] < 128 then SmallNumber(bytes); FromLe(bytes) else BigNumber(bytes); FromLe(bytes) - 0x1_0000_0000
  }

  lemma FourDigits(bytes: seq<byte>)
    requires |bytes| == 4
    ensures FromLe(bytes) == FromLe(bytes[..3]) + 16777216 * bytes[3] as int && FromLe(bytes[..3]) < 16777216
  {
    assert bytes[1..][1..] == bytes[2..] && bytes[2..][1..] == bytes[3..] && bytes[3..][1..] == [];
    var low := bytes[..3];
    assert low[1..][1..] == low[2..] && low[2..][1..] == [] && low[1..][0] == bytes[1] && low[2..][0] == bytes[2];
    assert FromLe(low[2..]) == bytes[2] && FromLe(bytes[3..]) == bytes[3];
    assert FromLe(low[1..]) == bytes[1] as int + 256 * bytes[2] as int;
    assert FromLe(bytes[2..]) == bytes[2] as int + 256 * bytes[3] as int;
    assert FromLe(bytes[1..]) == bytes[1] as int + 256 * FromLe(bytes[2..]);
  }

  lemma SmallNumber(bytes: seq<byte>)
    requires |bytes| == 4 && bytes[3] < 128
    ensures FromLe(bytes) < 0x8000_0000
  {
    FourDigits(bytes);
  }

  lemma BigNumber(bytes: seq<byte>)
    requires |bytes| == 4 && bytes[3] >= 128
    ensures 0x8000_0000 <= FromLe(bytes) < TWO32
  {
    FourDigits(bytes);
    FourBytes();
    FromLeBounded(bytes);
  }

  /** The value a layout stands for: a text without its last byte, repaired, three numbers and the payload. */
  function ValueOf(l: Layout): DecodeResult
    requires |l.x| == |l.y| == |l.shapesize| == 4
  {
    var color := if l.text == [] then [] else l.text[..|l.text| - 1];
    Decoded(ShapeRecord(Utf8.Lossy(color), Signed(l.x), Signed(l.y), Signed(l.shapesize), l.payload), |BeforeRest(l)|)
  }

  lemma SignedAt(src: seq<byte>, at: nat)
    requires at + 4 <= |src|
    ensures I32At(src, at) == Signed(src[at..at + 4]) && U32At(src, at) == FromLe(src[at..at + 4])
  {
    var bytes := src[at..at + 4];
    if bytes[3] < 128 {
      SmallNumber(bytes);
    } else {
      BigNumber(bytes);
    }
  }

  /** The pieces of `src` from position `start` on: a text of `n` bytes and a payload of `m`. */
  function Pieces(src: seq<byte>, start: nat, n: nat, m: nat): Layout
    requires Align4(start + 4 + n) + 16 + m <= |src|
  {
    var at := Align4(start + 4 + n);
    Layout(src[..start], src[start..start + 4], src[start + 4..start + 4 + n], src[start + 4 + n..at],
           src[at..at + 4], src[at + 4..at + 8], src[at + 8..at + 12], src[at + 12..at + 16],
           src[at + 16..at + 16 + m], src[at + 16 + m..])
  }

  lemma PiecesMakeUp(src: seq<byte>, start: nat, n: nat, m: nat)
    requires Align4(start + 4 + n) + 16 + m <= |src|
    ensures var l := Pieces(src, start, n, m);
            && src == BeforeRest(l) + l.rest && |BeforeRest(l)| == Align4(start + 4 + n) + 16 + m
            && |BeforePadding(l)| + |l.padding| == Align4(start + 4 + n) && |l.padding| < 4
  {
    var l, at := Pieces(src, start, n, m), Align4(start + 4 + n);
    assert BeforePadding(l) == src[..start + 4 + n];
    assert BeforePadding(l) + l.padding == src[..at];
    assert BeforePadding(l) + l.padding + l.x == src[..at + 4];
    assert BeforePadding(l) + l.padding + l.x + l.y == src[..at + 8];
    assert BeforePadding(l) + l.padding + l.x + l.y + l.shapesize == src[..at + 12];
    assert BeforePadding(l) + l.padding + l.x + l.y + l.shapesize + l.count == src[..at + 16];
    assert BeforeRest(l) == src[..at + 16 + m];
  }

  lemma HeaderIsSeen(src: seq<byte>)
    requires |src| >= 4
    ensures HeaderSeen(src) <==> LooksDelimited(src)
  {
    SignedAt(src, 0);
    assert src[0..4] == src[..4];
  }

  /** Where the two lengths stand in their places, the pieces are a layout. */
  lemma PiecesAreLaidOut(src: seq<byte>, start: nat, n: nat, m: nat)
    requires |src| >= 4 && start == if LooksDelimited(src) then 4 else 0
    requires start + 4 <= |src| && n == FromLe(src[start..start + 4])
    requires var at := Align4(start + 4 + n); at + 16 + m <= |src| && m == FromLe(src[at + 12..at + 16])
    ensures LaidOut(src, Pieces(src, start, n, m))
  {
    PiecesMakeUp(src, start, n, m);
    HeaderIsSeen(src);
  }

  /** The members parsed from position `start` on, where the lengths are `n` and `m`. */
  function MembersAt(src: seq<byte>, start: nat, n: nat, m: nat): ShapeRecord
    requires Align4(start + 4 + n) + 16 + m <= |src|
  {
    var at := Align4(start + 4 + n);
    ShapeRecord(src[start + 4..start + 4 + WithoutNul(n)], I32At(src, at), I32At(src, at + 4), I32At(src, at + 8),
                src[at + 16..at + 16 + m])
  }

  lemma MembersAreParsed(src: seq<byte>, start: nat, n: nat, m: nat)
    requires start + 4 <= |src| && n == U32At(src, start)
    requires Align4(start + 4 + n) + 16 + m <= |src| && m == U32At(src, Align4(start + 4 + n) + 12)
    ensures ParseMembers(src, start) == Decoded(MembersAt(src, start, n, m), Align4(start + 4 + n) + 16 + m)
  {
    var at := Align4(start + 4 + n);
    TextAt(src, start, n);
    RestAt(src, at, m);
    Assemble(src, start, src[start + 4..start + 4 + WithoutNul(n)], start + 4 + n,
             I32At(src, at), I32At(src, at + 4), I32At(src, at + 8), src[at + 16..at + 16 + m], at + 16 + m);
  }

  lemma TextAt(src: seq<byte>, at: nat, n: nat)
    requires at + 4 + n <= |src| && n == U32At(src, at)
    ensures ParseText(src, at) == Parsed(src[at + 4..at + 4 + WithoutNul(n)], at + 4 + n)
  {}

  lemma RestAt(src: seq<byte>, at: nat, m: nat)
    requires at + 16 + m <= |src| && m == U32At(src, at + 12)
    ensures ParseRest(src, at)
            == Rest(I32At(src, at), I32At(src, at + 4), I32At(src, at + 8), src[at + 16..at + 16 + m], at + 16 + m)
  {}

  lemma ValueOfPieces(src: seq<byte>, start: nat, n: nat, m: nat)
    requires Align4(start + 4 + n) + 16 + m <= |src|
    ensures var shape := MembersAt(src, start, n, m);
            ValueOf(Pieces(src, start, n, m))
            == Decoded(shape.(color := Utf8.Lossy(shape.color)), Align4(start + 4 + n) + 16 + m)
  {
    PiecesMakeUp(src, start, n, m);
    PieceNumbers(src, start, n, m);
    TextOfPieces(src, start, n);
  }

  lemma PieceNumbers(src: seq<byte>, start: nat, n: nat, m: nat)
    requires Align4(start + 4 + n) + 16 + m <= |src|
    ensures var l, shape := Pieces(src, start, n, m), MembersAt(src, start, n, m);
            && |l.x| == |l.y| == |l.shapesize| == 4
            && Signed(l.x) == shape.x && Signed(l.y) == shape.y && Signed(l.shapesize) == shape.shapesize
  {
    var at := Align4(start + 4 + n);
    SignedAt(src, at);
    SignedAt(src, at + 4);
    SignedAt(src, at + 8);
  }

  lemma PiecesAreParsed(src: seq<byte>, start: nat, n: nat, m: nat)
    requires |src| >= 4 && start == if LooksDelimited(src) then 4 else 0
    requires start + 4 <= |src| && n == U32At(src, start)
    requires Align4(start + 4 + n) + 16 + m <= |src| && m == U32At(src, Align4(start + 4 + n) + 12)
    ensures Parse(src) == ValueOf(Pieces(src, start, n, m))
  {
    MembersAreParsed(src, start, n, m);
    ValueOfPieces(src, start, n, m);
  }

  /** What is decoded has a layout, and its value. */
  lemma DecodedIsLaidOut(src: seq<byte>) returns (l: Layout)
    requires Parse(src).Decoded?
    ensures LaidOut(src, l) && Parse(src) == ValueOf(l)
  {
    var start := if LooksDelimited(src) then 4 else 0;
    var n := U32At(src, start);
    var m := U32At(src, Align4(start + 4 + n) + 12);
    SignedAt(src, start);
    SignedAt(src, Align4(start + 4 + n) + 12);
    PiecesAreLaidOut(src, start, n, m);
    PiecesAreParsed(src, start, n, m);
    l := Pieces(src, start, n, m);
  }

  lemma TextOfPieces(src: seq<byte>, start: nat, n: nat)
    requires start + 4 + n <= |src|
    ensures var text := src[start + 4..start + 4 + n];
            src[start + 4..start + 4 + WithoutNul(n)] == if text == [] then [] else text[..|text| - 1]
  {}

  /** What has a layout is decoded to its value. */
  lemma LaidOutIsDecoded(src: seq<byte>, l: Layout)
    requires LaidOut(src, l) && |src| >= 4
    ensures Parse(src) == ValueOf(l)
  {
    LaidOutPieces(src, l);
    LengthsOfLayout(src, l);
    HeaderIsSeen(src);
    PiecesAreParsed(src, |l.header|, |l.text|, |l.payload|);
  }

  lemma LengthsOfLayout(src: seq<byte>, l: Layout)
    requires FromLe(l.length) == |l.text| && FromLe(l.count) == |l.payload|
    requires Align4(|l.header| + 4 + |l.text|) + 16 + |l.payload| <= |src|
    requires l == Pieces(src, |l.header|, |l.text|, |l.payload|)
    ensures U32At(src, |l.header|) == |l.text|
    ensures U32At(src, Align4(|l.header| + 4 + |l.text|) + 12) == |l.payload|
  {
    SignedAt(src, |l.header|);
    SignedAt(src, Align4(|l.header| + 4 + |l.text|) + 12);
  }

  /** The numbers and the payload, with what comes after. */
  function Numbers(l: Layout): seq<byte> {
    l.x + (l.y + (l.shapesize + (l.count + (l.payload + l.rest))))
  }

  lemma Regroup(l: Layout)
    ensures BeforeRest(l) + l.rest == l.header + (l.length + (l.text + (l.padding + Numbers(l))))
  {}

  lemma PaddingEnds(l: Layout)
    requires |l.length| == 4 && |l.padding| < 4 && (|BeforePadding(l)| + |l.padding|) % 4 == 0
    ensures |BeforePadding(l)| + |l.padding| == Align4(|l.header| + 4 + |l.text|)
  {}

  lemma FirstPieces(src: seq<byte>, l: Layout)
    requires src == BeforeRest(l) + l.rest && |l.length| == 4
    ensures var start, end := |l.header|, |l.header| + 4 + |l.text|;
            && end + |l.padding| <= |src|
            && l.header == src[..start] && l.length == src[start..start + 4] && l.text == src[start + 4..end]
            && l.padding == src[end..end + |l.padding|] && src[end + |l.padding|..] == Numbers(l)
  {
    var start := |l.header|;
    var afterText := l.padding + Numbers(l);
    var afterLength := l.text + afterText;
    Regroup(l);
    SliceOf(src, 0, l.header, l.length + afterLength);
    SliceOf(src, start, l.length, afterLength);
    SliceOf(src, start + 4, l.text, afterText);
    SliceOf(src, start + 4 + |l.text|, l.padding, Numbers(l));
  }

  lemma LastPieces(src: seq<byte>, l: Layout, at: nat)
    requires LaidOut(src, l) && at <= |src| && src[at..] == Numbers(l)
    ensures at + 16 + |l.payload| <= |src|
    ensures l.x == src[at..at + 4] && l.y == src[at + 4..at + 8] && l.shapesize == src[at + 8..at + 12]
    ensures l.count == src[at + 12..at + 16] && l.payload == src[at + 16..at + 16 + |l.payload|]
    ensures l.rest == src[at + 16 + |l.payload|..]
  {
    var last := l.payload + l.rest;
    SliceOf(src, at, l.x, l.y + (l.shapesize + (l.count + last)));
    SliceOf(src, at + 4, l.y, l.shapesize + (l.count + last));
    SliceOf(src, at + 8, l.shapesize, l.count + last);
    SliceOf(src, at + 12, l.count, last);
    SliceOf(src, at + 16, l.payload, l.rest);
  }

  lemma LaidOutPieces(src: seq<byte>, l: Layout)
    requires LaidOut(src, l)
    ensures Align4(|l.header| + 4 + |l.text|) + 16 + |l.payload| <= |src|
    ensures l == Pieces(src, |l.header|, |l.text|, |l.payload|)
  {
    PaddingEnds(l);
    FirstPieces(src, l);
    LastPieces(src, l, Align4(|l.header| + 4 + |l.text|));
  }

  lemma SliceOf(src: seq<byte>, at: nat, piece: seq<byte>, tail: seq<byte>)
    requires at <= |src| && src[at..] == piece + tail
    ensures at + |piece| <= |src| && src[at..at + |piece|] == piece && src[at + |piece|..] == tail
  {
    assert src[at..][..|piece|] == piece && src[at..][|piece|..] == tail;
  }

  /** The decoder accepts exactly the byte strings that have a layout, and yields what that stands for. */
  lemma DecodesExactlyWhatIsLaidOut(src: seq<byte>)
    requires |src| >= 4
    ensures Parse(src).Decoded? <==> exists l :: LaidOut(src, l)
    ensures forall l :: LaidOut(src, l) ==> Parse(src) == ValueOf(l)
  {
    if Parse(src).Decoded? {
      var l := DecodedIsLaidOut(src);
    }
    forall l | LaidOut(src, l) ensures Parse(src) == ValueOf(l) {
      LaidOutIsDecoded(src, l);
    }
  }
}
