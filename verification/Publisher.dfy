/**
  The publisher loop of srcCxx/shape_main.cxx (`run_publisher`): the shape it moves and sizes,
  the samples it writes, and the coherent sets it brackets them with.

  The counter `n` is a 32-bit unsigned int.  The interrupt flag is read between iterations;
  `interrupt` is the number of iterations after which a signal has set it.
 */
module Publisher {
  import opened Bytes
  import Motion

  datatype Options = Options(
    daWidth: nat,
    daHeight: nat,
    shapesize: nat,
    sizeModulo: nat,
    coherentOrOrdered: bool,
    coherentSampleCount: nat,
    numTopics: nat,
    numInstances: nat,
    numIterations: nat
  )

  datatype Sample = Sample(x: int, y: int, shapesize: nat)

  datatype Event = Begin | End | Write(topic: nat, instance: nat, sample: Sample)

  // ----- what a run produces -----

  /** The size written in 0-based iteration `i`. */
  function SizeAt(o: Options, i: nat): nat {
    if o.shapesize != 0 then o.shapesize
    else if o.sizeModulo > 0 then i % o.sizeModulo + 1
    else i + 1
  }

  /** The size after one more iteration. */
  function NextSizeOf(o: Options, size: nat): nat {
    if o.shapesize != 0 then size
    else if o.sizeModulo > 0 then size % o.sizeModulo + 1
    else size + 1
  }

  function SampleAt(o: Options, x: Motion.Axis, y: Motion.Axis, i: nat): Sample {
    Sample(Motion.Run(x, o.daWidth, i + 1).pos, Motion.Run(y, o.daHeight, i + 1).pos, SizeAt(o, i))
  }

  function InstanceWrites(topic: nat, instances: nat, s: Sample): seq<Event> {
    seq(instances, j requires 0 <= j => Write(topic, j, s))
  }

  function Writes(topics: nat, instances: nat, s: Sample): seq<Event> {
    if topics == 0 then [] else Writes(topics - 1, instances, s) + InstanceWrites(topics - 1, instances, s)
  }

  predicate BeginsSet(o: Options, n: nat) {
    o.coherentOrOrdered && o.coherentSampleCount != 0 && n % o.coherentSampleCount == 0
  }

  predicate EndsSet(o: Options, n: nat) {
    o.coherentOrOrdered && o.coherentSampleCount != 0 && n % o.coherentSampleCount == o.coherentSampleCount - 1
  }

  /** The events of one iteration, in which the counter shows `n`. */
  function IterationEvents(o: Options, n: nat, s: Sample): seq<Event> {
    (if BeginsSet(o, n) then [Begin] else [])
    + Writes(o.numTopics, o.numInstances, s)
    + (if EndsSet(o, n) then [End] else [])
  }

  /** The events of the first `count` iterations. */
  function Trace(o: Options, x: Motion.Axis, y: Motion.Axis, count: nat): seq<Event> {
    if count == 0 then []
    else Trace(o, x, y, count - 1) + IterationEvents(o, (count - 1) % TWO32, SampleAt(o, x, y, count - 1))
  }

  function Iterations(o: Options, interrupt: nat): nat {
    if o.numIterations != 0 && o.numIterations < interrupt then o.numIterations else interrupt
  }

  class ShapePublisher {
    const options: Options
    var x: int
    var y: int
    var xvel: int
    var yvel: int
    var shapesize: nat
    var trace: seq<Event>

    constructor (options: Options, x: int, y: int, xvel: int, yvel: int)
      ensures this.options == options && this.x == x && this.y == y && this.xvel == xvel && this.yvel == yvel
      ensures shapesize == options.shapesize && trace == []
    {
      this.options := options;
      this.x, this.y, this.xvel, this.yvel := x, y, xvel, yvel;
      this.shapesize := options.shapesize;
      trace := [];
    }

    method MoveShape()
      modifies this`x, this`y, this`xvel, this`yvel
      ensures Motion.Axis(x, xvel) == Motion.Advance(old(Motion.Axis(x, xvel)), options.daWidth)
      ensures Motion.Axis(y, yvel) == Motion.Advance(old(Motion.Axis(y, yvel)), options.daHeight)
    {
      x := x + xvel;
      y := y + yvel;
      if x < 0 {
        x := 0;
        xvel := -xvel;
      }
      if x > options.daWidth {
        x := options.daWidth;
        xvel := -xvel;
      }
      if y < 0 {
        y := 0;
        yvel := -yvel;
      }
      if y > options.daHeight {
        y := options.daHeight;
        yvel := -yvel;
      }
    }

    method WriteAll()
      modifies this`trace
      ensures trace == old(trace) + Writes(options.numTopics, options.numInstances, Sample(x, y, shapesize))
    {
      ghost var before := trace;
      var s := Sample(x, y, shapesize);
      for i := 0 to options.numTopics
        invariant trace == before + Writes(i, options.numInstances, s)
      {
        ghost var row := trace;
        for j := 0 to options.numInstances
          invariant trace == row + InstanceWrites(i, j, s)
        {
          trace := trace + [Write(i, j, s)];
        }
      }
    }

    method Resize()
      modifies this`shapesize
      ensures shapesize == NextSizeOf(options, old(shapesize))
    {
      if options.shapesize == 0 {
        if options.sizeModulo > 0 {
          shapesize := shapesize % options.sizeModulo + 1;
        } else {
          shapesize := shapesize + 1;
        }
      }
    }

    method BeginIfDue(n: nat)
      modifies this`trace
      ensures trace == old(trace) + if BeginsSet(options, n) then [Begin] else []
    {
      if options.coherentOrOrdered {
        if options.coherentSampleCount != 0 && n % options.coherentSampleCount == 0 {
          trace := trace + [Begin];
        }
      }
    }

    method EndIfDue(n: nat)
      modifies this`trace
      ensures trace == old(trace) + if EndsSet(options, n) then [End] else []
    {
      if options.coherentOrOrdered {
        if options.coherentSampleCount != 0 && n % options.coherentSampleCount == options.coherentSampleCount - 1 {
          trace := trace + [End];
        }
      }
    }

    /** One pass of the loop body, with the counter at `n`. */
    method Iterate(n: nat)
      modifies this`x, this`y, this`xvel, this`yvel, this`shapesize, this`trace
      ensures Motion.Axis(x, xvel) == Motion.Advance(old(Motion.Axis(x, xvel)), options.daWidth)
      ensures Motion.Axis(y, yvel) == Motion.Advance(old(Motion.Axis(y, yvel)), options.daHeight)
      ensures shapesize == NextSizeOf(options, old(shapesize))
      ensures trace == old(trace) + IterationEvents(options, n, Sample(x, y, shapesize))
    {
      MoveShape();
      Resize();
      BeginIfDue(n);
      WriteAll();
      EndIfDue(n);
    }

    /** The fields after `i` iterations from `x0` and `y0`. */
    ghost predicate At(x0: Motion.Axis, y0: Motion.Axis, i: nat)
      reads this
    {
      && Motion.Axis(x, xvel) == Motion.Run(x0, options.daWidth, i)
      && Motion.Axis(y, yvel) == Motion.Run(y0, options.daHeight, i)
      && shapesize == (if i == 0 then options.shapesize else SizeAt(options, i - 1))
      && trace == Trace(options, x0, y0, i)
    }

    method Step(ghost x0: Motion.Axis, ghost y0: Motion.Axis, ghost i: nat, n: nat)
      requires At(x0, y0, i) && n == i % TWO32
      modifies this`x, this`y, this`xvel, this`yvel, this`shapesize, this`trace
      ensures At(x0, y0, i + 1)
    {
      Motion.RunAdd(x0, options.daWidth, i, 1);
      Motion.RunAdd(y0, options.daHeight, i, 1);
      OneStep(Motion.Run(x0, options.daWidth, i), options.daWidth);
      OneStep(Motion.Run(y0, options.daHeight, i), options.daHeight);
      NextSize(options, i);
      Iterate(n);
    }

    /** `run_publisher`, after the shape has been placed. */
    method Run(interrupt: nat) returns (iterations: nat)
      requires options.numIterations < TWO32
      requires trace == [] && shapesize == options.shapesize
      modifies this`x, this`y, this`xvel, this`yvel, this`shapesize, this`trace
      ensures iterations == Iterations(options, interrupt)
      ensures iterations <= interrupt && (options.numIterations != 0 ==> iterations <= options.numIterations)
      ensures iterations == interrupt || (options.numIterations != 0 && iterations == options.numIterations)
      ensures At(old(Motion.Axis(x, xvel)), old(Motion.Axis(y, yvel)), iterations)
    {
      ghost var x0, y0 := Motion.Axis(x, xvel), Motion.Axis(y, yvel);
      iterations := 0;
      var n := 0;
      var allDone := interrupt == 0;
      while !allDone
        invariant iterations <= Iterations(options, interrupt) && n == iterations % TWO32
        invariant allDone <==> iterations == Iterations(options, interrupt)
        invariant At(x0, y0, iterations)
        decreases interrupt - iterations
      {
        Step(x0, y0, iterations, n);
        NextRemainder(iterations, TWO32);
        n := (n + 1) % TWO32;
        iterations := iterations + 1;
        if options.numIterations != 0 && options.numIterations <= n {
          allDone := true;
        }
        if iterations == interrupt {
          allDone := true;
        }
      }
    }
  }

  lemma OneStep(a: Motion.Axis, extent: nat)
    ensures Motion.Run(a, extent, 1) == Motion.Advance(a, extent)
  {
    assert Motion.Run(a, extent, 1) == Motion.Run(Motion.Advance(a, extent), extent, 0);
  }

  /** The size written grows from one iteration to the next by the rule in the loop. */
  lemma NextSize(o: Options, i: nat)
    ensures o.shapesize == 0 && o.sizeModulo > 0 ==>
              SizeAt(o, i) == (if i == 0 then 0 else SizeAt(o, i - 1)) % o.sizeModulo + 1
  {
    var m := o.sizeModulo;
    if o.shapesize == 0 && m > 0 && i > 0 {
      NextRemainder(i - 1, m);
    }
  }

  lemma NextRemainder(a: nat, m: nat)
    requires m > 0
    ensures (a + 1) % m == (a % m + 1) % m == if a % m + 1 == m then 0 else a % m + 1
  {
    NextRemainderOf(a, m, a / m, a % m);
  }

  lemma NextRemainderOf(a: nat, m: nat, q: nat, r: nat)
    requires r < m && a == q * m + r
    ensures (a + 1) % m == (r + 1) % m == if r + 1 == m then 0 else r + 1
  {
    if r + 1 == m {
      assert (q + 1) * m == q * m + m;
      RemainderUnique(a + 1, m, q + 1, 0);
      RemainderUnique(m, m, 1, 0);
    } else {
      RemainderUnique(a + 1, m, q, r + 1);
      RemainderUnique(r + 1, m, 0, r + 1);
    }
  }

  lemma RemainderUnique(a: nat, m: nat, q: nat, r: nat)
    requires r < m && a == q * m + r
    ensures a % m == r && a / m == q
  {
    Motion.DivUnique(a, m, q, r);
  }
}
