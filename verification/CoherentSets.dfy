/** What every run of the publisher loop (srcCxx/shape_main.cxx) says about coherent sets and sizes. */
module CoherentSets {
  import opened Bytes
  import Motion
  import opened Publisher

  /** A reader of the trace: inside or outside a set, or past an event out of place. */
  datatype Bracket = Closed | Open(writes: nat) | Broken

  /** `size`: how many writes a set must hold when it ends. */
  function Read(b: Bracket, e: Event, size: nat): Bracket {
    match e
    case Begin => if b == Closed then Open(0) else Broken
    case Write(_, _, _) => if b.Open? then Open(b.writes + 1) else Broken
    case End => if b == Open(size) then Closed else Broken
  }

  function ReadAll(b: Bracket, events: seq<Event>, size: nat): Bracket {
    if events == [] then b
    else Read(ReadAll(b, events[..|events| - 1], size), events[|events| - 1], size)
  }

  lemma {:induction false} ReadAppend(b: Bracket, s: seq<Event>, t: seq<Event>, size: nat)
    ensures ReadAll(b, s + t, size) == ReadAll(ReadAll(b, s, size), t, size)
  {
    if t == [] {
      assert s + t == s;
    } else {
      ReadAppend(b, s, t[..|t| - 1], size);
      assert (s + t)[..|s + t| - 1] == s + t[..|t| - 1];
    }
  }

  lemma {:induction false} ReadInstances(w: nat, topic: nat, n: nat, s: Sample, size: nat)
    ensures ReadAll(Open(w), InstanceWrites(topic, n, s), size) == Open(w + n)
  {
    if n > 0 {
      ReadInstances(w, topic, n - 1, s, size);
      assert InstanceWrites(topic, n, s)[..n - 1] == InstanceWrites(topic, n - 1, s);
    }
  }

  lemma {:induction false} ReadWrites(w: nat, topics: nat, n: nat, s: Sample, size: nat)
    ensures ReadAll(Open(w), Writes(topics, n, s), size) == Open(w + topics * n)
  {
    if topics > 0 {
      ReadWrites(w, topics - 1, n, s, size);
      ReadAppend(Open(w), Writes(topics - 1, n, s), InstanceWrites(topics - 1, n, s), size);
      ReadInstances(w + (topics - 1) * n, topics - 1, n, s, size);
      assert topics * n == (topics - 1) * n + n;
    }
  }

  lemma {:induction false} BrokenStaysBroken(events: seq<Event>, size: nat)
    ensures ReadAll(Broken, events, size) == Broken
  {
    if events != [] {
      BrokenStaysBroken(events[..|events| - 1], size);
    }
  }

  ghost predicate Brackets(o: Options) {
    o.coherentOrOrdered && o.coherentSampleCount >= 1
  }

  function PerIteration(o: Options): nat {
    o.numTopics * o.numInstances
  }

  function SetSize(o: Options): nat {
    o.coherentSampleCount * PerIteration(o)
  }

  /** Where the reader stands after `count` iterations of a well-bracketed run. */
  function Expected(o: Options, count: nat): Bracket
    requires o.coherentSampleCount >= 1
  {
    var r := count % o.coherentSampleCount;
    if r == 0 then Closed else Open(r * PerIteration(o))
  }

  function Whole(o: Options, x: Motion.Axis, y: Motion.Axis, count: nat): Bracket {
    ReadAll(Closed, Trace(o, x, y, count), SetSize(o))
  }

  lemma ReadThree(b: Bracket, s: seq<Event>, t: seq<Event>, u: seq<Event>, size: nat)
    ensures ReadAll(b, s + t + u, size) == ReadAll(ReadAll(ReadAll(b, s, size), t, size), u, size)
  {
    ReadAppend(b, s + t, u, size);
    ReadAppend(b, s, t, size);
  }

  lemma ReadOne(b: Bracket, e: Event, size: nat)
    ensures ReadAll(b, [e], size) == Read(b, e, size)
  {
    assert [e][..0] == [];
  }

  /** With `w` writes in the set so far, an iteration adds its writes and ends the set if it is the last. */
  lemma ReadIteration(o: Options, n: nat, s: Sample, b: Bracket, w: nat, size: nat)
    requires if BeginsSet(o, n) then b == Closed && w == 0 else b == Open(w)
    requires EndsSet(o, n) ==> w + PerIteration(o) == size
    ensures ReadAll(b, IterationEvents(o, n, s), size) == if EndsSet(o, n) then Closed else Open(w + PerIteration(o))
  {
    var start := if BeginsSet(o, n) then [Begin] else [];
    var end := if EndsSet(o, n) then [End] else [];
    ReadThree(b, start, Writes(o.numTopics, o.numInstances, s), end, size);
    ReadOne(b, Begin, size);
    ReadWrites(w, o.numTopics, o.numInstances, s, size);
    ReadOne(Open(w + PerIteration(o)), End, size);
  }

  /** An iteration whose counter agrees with the true count modulo the set size keeps the brackets right. */
  lemma IterationAdvances(o: Options, n: nat, s: Sample, count: nat)
    requires Brackets(o) && n % o.coherentSampleCount == count % o.coherentSampleCount
    ensures ReadAll(Expected(o, count), IterationEvents(o, n, s), SetSize(o)) == Expected(o, count + 1)
  {
    NextRemainder(count, o.coherentSampleCount);
    AddOneMore(count % o.coherentSampleCount, PerIteration(o));
    ReadIteration(o, n, s, Expected(o, count), (count % o.coherentSampleCount) * PerIteration(o), SetSize(o));
  }

  lemma AddOneMore(r: nat, per: nat)
    ensures (r + 1) * per == r * per + per
    ensures 0 * per == 0
  {}

  lemma WrapKeepsRemainder(i: nat, c: nat)
    requires c >= 1 && (i < TWO32 || TWO32 % c == 0)
    ensures (i % TWO32) % c == i % c
  {
    if i >= TWO32 {
      var q, s, k := i / TWO32, i % TWO32, TWO32 / c;
      assert TWO32 == k * c;
      assert i == q * TWO32 + s == (q * k) * c + s by { assert q * (k * c) == (q * k) * c; }
      assert (q * k + s / c) * c == (q * k) * c + (s / c) * c;
      RemainderUnique(i, c, q * k + s / c, s % c);
    }
  }

  lemma OneMoreIteration(o: Options, x: Motion.Axis, y: Motion.Axis, count: nat, n: nat, s: Sample, size: nat)
    requires n == count % TWO32 && s == SampleAt(o, x, y, count)
    ensures ReadAll(Closed, Trace(o, x, y, count + 1), size) ==
            ReadAll(ReadAll(Closed, Trace(o, x, y, count), size), IterationEvents(o, n, s), size)
  {
    ReadAppend(Closed, Trace(o, x, y, count), IterationEvents(o, n, s), size);
  }

  lemma CounterAdvances(o: Options, n: nat, s: Sample, count: nat)
    requires Brackets(o) && n == count % TWO32 && (count < TWO32 || TWO32 % o.coherentSampleCount == 0)
    ensures ReadAll(Expected(o, count), IterationEvents(o, n, s), SetSize(o)) == Expected(o, count + 1)
  {
    WrapKeepsRemainder(count, o.coherentSampleCount);
    IterationAdvances(o, n, s, count);
  }

  lemma StaysBracketed(o: Options, x: Motion.Axis, y: Motion.Axis, count: nat)
    requires Brackets(o) && (count < TWO32 || TWO32 % o.coherentSampleCount == 0)
    requires Whole(o, x, y, count) == Expected(o, count)
    ensures Whole(o, x, y, count + 1) == Expected(o, count + 1)
  {
    OneMoreIteration(o, x, y, count, count % TWO32, SampleAt(o, x, y, count), SetSize(o));
    CounterAdvances(o, count % TWO32, SampleAt(o, x, y, count), count);
  }

  lemma StartsClosed(o: Options)
    requires Brackets(o)
    ensures Expected(o, 0) == Closed
  {
    RemainderUnique(0, o.coherentSampleCount, 0, 0);
  }

  lemma {:induction false} RunsAreBracketed(o: Options, x: Motion.Axis, y: Motion.Axis, count: nat)
    requires Brackets(o) && (count <= TWO32 || TWO32 % o.coherentSampleCount == 0)
    ensures Whole(o, x, y, count) == Expected(o, count)
  {
    if count == 0 {
      StartsClosed(o);
    } else {
      RunsAreBracketed(o, x, y, count - 1);
      StaysBracketed(o, x, y, count - 1);
    }
  }

  lemma BeginInsideASetBreaks(o: Options, s: Sample, b: Bracket)
    requires Brackets(o) && b != Closed
    ensures ReadAll(b, IterationEvents(o, 0, s), SetSize(o)) == Broken
  {
    var size := SetSize(o);
    RemainderUnique(0, o.coherentSampleCount, 0, 0);
    var rest := Writes(o.numTopics, o.numInstances, s) + if EndsSet(o, 0) then [End] else [];
    assert IterationEvents(o, 0, s) == [Begin] + rest;
    ReadAppend(b, [Begin], rest, size);
    assert ReadAll(b, [Begin], size) == Broken by { assert [Begin][..0] == []; }
    BrokenStaysBroken(rest, size);
  }

  lemma FirstWrapBreaks(o: Options, x: Motion.Axis, y: Motion.Axis)
    requires Brackets(o) && TWO32 % o.coherentSampleCount != 0
    ensures Whole(o, x, y, TWO32 + 1) == Broken
  {
    var s := SampleAt(o, x, y, TWO32);
    RunsAreBracketed(o, x, y, TWO32);
    OneMoreIteration(o, x, y, TWO32, 0, s, SetSize(o));
    BeginInsideASetBreaks(o, s, Whole(o, x, y, TWO32));
  }

  lemma {:induction false} WrapBreaksTheBrackets(o: Options, x: Motion.Axis, y: Motion.Axis, more: nat)
    requires Brackets(o) && TWO32 % o.coherentSampleCount != 0
    ensures Whole(o, x, y, TWO32 + 1 + more) == Broken
    decreases more
  {
    if more == 0 {
      FirstWrapBreaks(o, x, y);
    } else {
      var i := TWO32 + more;
      var n, s := i % TWO32, SampleAt(o, x, y, i);
      WrapBreaksTheBrackets(o, x, y, more - 1);
      OneMoreIteration(o, x, y, i, n, s, SetSize(o));
      BrokenStaysBroken(IterationEvents(o, n, s), SetSize(o));
    }
  }

  /**
    In a run of `count` iterations sets begin and end in turn, every write is inside a set, every
    ended set holds exactly c * topics * instances writes, and a set is open at the end exactly when
    c does not divide `count` - unless the 32-bit counter wrapped and c does not divide 2^32, in
    which case, and only then, some event is out of place.
   */
  lemma CoherentSetsAreWellFormedExactlyWhen(o: Options, x: Motion.Axis, y: Motion.Axis, count: nat)
    requires Brackets(o)
    ensures Whole(o, x, y, count) != Broken <==> count <= TWO32 || TWO32 % o.coherentSampleCount == 0
    ensures Whole(o, x, y, count) != Broken ==>
              Whole(o, x, y, count) == if count % o.coherentSampleCount == 0 then Closed
                                       else Open((count % o.coherentSampleCount) * PerIteration(o))
  {
    if count <= TWO32 || TWO32 % o.coherentSampleCount == 0 {
      RunsAreBracketed(o, x, y, count);
    } else {
      WrapBreaksTheBrackets(o, x, y, count - TWO32 - 1);
    }
  }

  lemma SizeOccurs(from: nat, m: nat, q: nat, r: nat, k: nat) returns (i: nat)
    requires k < m && r < m && from == q * m + r
    ensures from <= i < from + m && i % m == k
  {
    assert (q + 1) * m == q * m + m;
    if r <= k {
      i := q * m + k;
      RemainderUnique(i, m, q, k);
    } else {
      i := (q + 1) * m + k;
      RemainderUnique(i, m, q + 1, k);
    }
  }

  lemma RemaindersApart(i: nat, j: nat, m: nat, p: nat, q: nat, r: nat)
    requires i == p * m + r && j == q * m + r && i - m < j < i + m
    ensures i == j
  {
    assert (q - p) * m == q * m - p * m;
    Motion.MultiplesAreApart(q - p, m);
  }

  lemma SameRemainder(i: nat, j: nat, m: nat)
    requires m > 0 && i % m == j % m && i - m < j < i + m
    ensures i == j
  {
    RemaindersApart(i, j, m, i / m, j / m, i % m);
  }

  /** With size 0 and a modulus m, any m consecutive iterations write each size in 1..m exactly once. */
  lemma SizesCycle(o: Options, from: nat, size: nat) returns (i: nat)
    requires o.shapesize == 0 && 1 <= size <= o.sizeModulo
    ensures from <= i < from + o.sizeModulo && SizeAt(o, i) == size
    ensures forall j :: from <= j < from + o.sizeModulo && SizeAt(o, j) == size ==> j == i
  {
    i := SizeOccurs(from, o.sizeModulo, from / o.sizeModulo, from % o.sizeModulo, size - 1);
    forall j | from <= j < from + o.sizeModulo && SizeAt(o, j) == size ensures j == i {
      SameRemainder(i, j, o.sizeModulo);
    }
  }

  // ----- the samples -----

  /** The first size is one and the last is the modulus; one more each time otherwise, unless a size was asked for. */
  lemma SizesGrow(o: Options, i: nat)
    ensures o.shapesize != 0 ==> SizeAt(o, i) == o.shapesize
    ensures o.shapesize == 0 ==> SizeAt(o, 0) == 1
    ensures o.shapesize == 0 ==>
              SizeAt(o, i + 1) == if SizeAt(o, i) == o.sizeModulo then 1 else SizeAt(o, i) + 1
  {
    if o.shapesize == 0 && o.sizeModulo > 0 {
      NextRemainder(i, o.sizeModulo);
      RemainderUnique(0, o.sizeModulo, 0, 0);
    }
  }

  /** The writes among the events, in order. */
  function WritesIn(events: seq<Event>): seq<Event> {
    if events == [] then []
    else
      var last := events[|events| - 1];
      WritesIn(events[..|events| - 1]) + if last.Write? then [last] else []
  }

  lemma {:induction false} WritesInBoth(s: seq<Event>, t: seq<Event>)
    ensures WritesIn(s + t) == WritesIn(s) + WritesIn(t)
  {
    if t == [] {
      assert s + t == s;
    } else {
      var last := t[|t| - 1];
      WritesInBoth(s, t[..|t| - 1]);
      assert (s + t)[..|s + t| - 1] == s + t[..|t| - 1] && (s + t)[|s + t| - 1] == last;
    }
  }

  lemma {:induction false} OnlyWrites(events: seq<Event>)
    requires forall k :: 0 <= k < |events| ==> events[k].Write?
    ensures WritesIn(events) == events
  {
    if events != [] {
      OnlyWrites(events[..|events| - 1]);
    }
  }

  lemma {:induction false} WritesAre(topics: nat, instances: nat, s: Sample)
    ensures |Writes(topics, instances, s)| == topics * instances
    ensures forall k :: 0 <= k < |Writes(topics, instances, s)| ==> Writes(topics, instances, s)[k].Write?
    ensures forall t, j :: 0 <= t < topics && 0 <= j < instances ==>
                             WriteIsAt(Writes(topics, instances, s), t, j, instances, s)
  {
    if topics > 0 {
      WritesAre(topics - 1, instances, s);
      assert topics * instances == (topics - 1) * instances + instances;
      forall t, j | 0 <= t < topics && 0 <= j < instances
        ensures WriteIsAt(Writes(topics, instances, s), t, j, instances, s)
      {
        if t < topics - 1 {
          assert WriteIsAt(Writes(topics - 1, instances, s), t, j, instances, s);
        }
      }
    }
  }

  /** Topic by topic, and within a topic instance by instance. */
  ghost predicate WriteIsAt(writes: seq<Event>, t: nat, j: nat, instances: nat, s: Sample) {
    t * instances + j < |writes| && writes[t * instances + j] == Write(t, j, s)
  }

  lemma BracketIsNoWrite(bracket: seq<Event>)
    requires bracket == [] || bracket == [Begin] || bracket == [End]
    ensures WritesIn(bracket) == []
  {
    if bracket != [] {
      assert bracket[..|bracket| - 1] == [];
    }
  }

  lemma WritesBetween(start: seq<Event>, writes: seq<Event>, end: seq<Event>)
    requires forall k :: 0 <= k < |writes| ==> writes[k].Write?
    requires start == [] || start == [Begin]
    requires end == [] || end == [End]
    ensures WritesIn(start + writes + end) == writes
  {
    OnlyWrites(writes);
    WritesInBoth(start + writes, end);
    WritesInBoth(start, writes);
    BracketIsNoWrite(start);
    BracketIsNoWrite(end);
  }

  lemma WritesOfIteration(o: Options, n: nat, s: Sample)
    ensures WritesIn(IterationEvents(o, n, s)) == Writes(o.numTopics, o.numInstances, s)
  {
    WritesAre(o.numTopics, o.numInstances, s);
    WritesBetween(if BeginsSet(o, n) then [Begin] else [], Writes(o.numTopics, o.numInstances, s),
                  if EndsSet(o, n) then [End] else []);
  }

  /** The sample of iteration `i`: the shape after `i + 1` moves, each axis in its own extent. */
  ghost predicate IsWrittenAt(o: Options, x: Motion.Axis, y: Motion.Axis, writes: seq<Event>, i: nat, t: nat, j: nat) {
    var at := i * PerIteration(o) + (t * o.numInstances + j);
    && at < |writes| && writes[at].Write? && writes[at].topic == t && writes[at].instance == j
    && writes[at].sample.x == Motion.Run(x, o.daWidth, i + 1).pos
    && writes[at].sample.y == Motion.Run(y, o.daHeight, i + 1).pos
    && writes[at].sample.shapesize == SizeAt(o, i)
  }

  /**
    A run of `count` iterations writes, iteration by iteration, topic by topic and instance by
    instance, the sample of that iteration, and nothing else.
   */
  lemma {:induction false} EverySampleIsWritten(o: Options, x: Motion.Axis, y: Motion.Axis, count: nat)
    ensures |WritesIn(Trace(o, x, y, count))| == count * PerIteration(o)
    ensures forall i, t, j :: 0 <= i < count && 0 <= t < o.numTopics && 0 <= j < o.numInstances ==>
                                IsWrittenAt(o, x, y, WritesIn(Trace(o, x, y, count)), i, t, j)
  {
    if count > 0 {
      var i := count - 1;
      var s := SampleAt(o, x, y, i);
      var before := WritesIn(Trace(o, x, y, i));
      EverySampleIsWritten(o, x, y, i);
      WritesInBoth(Trace(o, x, y, i), IterationEvents(o, i % TWO32, s));
      WritesOfIteration(o, i % TWO32, s);
      WritesAre(o.numTopics, o.numInstances, s);
      AddOneMore(i, PerIteration(o));
      MoreAreWritten(o, x, y, before, i, Writes(o.numTopics, o.numInstances, s));
    }
  }

  lemma MoreAreWritten(o: Options, x: Motion.Axis, y: Motion.Axis, before: seq<Event>, i: nat, more: seq<Event>)
    requires |before| == i * PerIteration(o)
    requires forall k, t, j :: 0 <= k < i && 0 <= t < o.numTopics && 0 <= j < o.numInstances ==>
                                 IsWrittenAt(o, x, y, before, k, t, j)
    requires forall t, j :: 0 <= t < o.numTopics && 0 <= j < o.numInstances ==>
                              WriteIsAt(more, t, j, o.numInstances, SampleAt(o, x, y, i))
    ensures forall k, t, j :: 0 <= k <= i && 0 <= t < o.numTopics && 0 <= j < o.numInstances ==>
                                IsWrittenAt(o, x, y, before + more, k, t, j)
  {
    forall k, t, j | 0 <= k <= i && 0 <= t < o.numTopics && 0 <= j < o.numInstances
      ensures IsWrittenAt(o, x, y, before + more, k, t, j)
    {
      if k < i {
        assert IsWrittenAt(o, x, y, before, k, t, j);
      } else {
        assert WriteIsAt(more, t, j, o.numInstances, SampleAt(o, x, y, i));
      }
    }
  }

  /** Without coherent or ordered access, or with a set size of zero, there are no sets. */
  lemma {:induction false} NoSetsWithoutAccess(o: Options, x: Motion.Axis, y: Motion.Axis, count: nat)
    requires !o.coherentOrOrdered || o.coherentSampleCount == 0
    ensures Begin !in Trace(o, x, y, count) && End !in Trace(o, x, y, count)
  {
    if count > 0 {
      NoSetsWithoutAccess(o, x, y, count - 1);
      WritesAre(o.numTopics, o.numInstances, SampleAt(o, x, y, count - 1));
    }
  }
}
