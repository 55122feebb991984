/**
  The bouncing shape of `moveShape` (srcCxx/shape_main.cxx), one axis at a time.
 */
module Motion {
  datatype Axis = Axis(pos: int, vel: int)

  /** Move, then bounce off a wall that was passed. */
  function Advance(a: Axis, extent: nat): Axis {
    var p := a.pos + a.vel;
    if p < 0 then Axis(0, -a.vel)
    else if p > extent then Axis(extent, -a.vel)
    else Axis(p, a.vel)
  }

  function Run(a: Axis, extent: nat, n: nat): Axis
    decreases n
  {
    if n == 0 then a else Run(Advance(a, extent), extent, n - 1)
  }

  predicate InBox(a: Axis, extent: nat) {
    0 <= a.pos <= extent
  }

  function Speed(a: Axis): nat {
    if a.vel < 0 then -a.vel else a.vel
  }

  /** Steps from one wall to the other. */
  function Crossing(extent: nat, speed: int): nat
    requires speed > 0
  {
    extent / speed + 1
  }

  lemma {:induction false} RunAdd(a: Axis, extent: nat, m: nat, n: nat)
    ensures Run(a, extent, m + n) == Run(Run(a, extent, m), extent, n)
    decreases m
  {
    if m > 0 {
      RunAdd(Advance(a, extent), extent, m - 1, n);
    }
  }

  /** In every reachable state the shape is in the box with its speed unchanged. */
  lemma {:induction false} StaysInBox(a: Axis, extent: nat, n: nat)
    requires InBox(a, extent)
    ensures InBox(Run(a, extent, n), extent) && Speed(Run(a, extent, n)) == Speed(a)
    decreases n
  {
    if n > 0 {
      StaysInBox(Advance(a, extent), extent, n - 1);
    }
  }

  /** Seen in a mirror, the shape moves the same way. */
  function Mirror(a: Axis, extent: nat): Axis {
    Axis(extent - a.pos, -a.vel)
  }

  lemma {:induction false} MirrorRun(a: Axis, extent: nat, n: nat)
    requires InBox(a, extent)
    ensures Run(Mirror(a, extent), extent, n) == Mirror(Run(a, extent, n), extent)
    decreases n
  {
    if n > 0 {
      MirrorRun(Advance(a, extent), extent, n - 1);
      assert Advance(Mirror(a, extent), extent) == Mirror(Advance(a, extent), extent);
    }
  }

  lemma MultiplesAreApart(d: int, v: nat)
    ensures d >= 1 ==> d * v >= v
    ensures d <= -1 ==> d * v + v <= 0
  {}

  lemma DivUnique(a: nat, v: nat, q: nat, r: nat)
    requires r < v && a == q * v + r
    ensures a / v == q
  {
    var d := a / v - q;
    assert d * v == (a / v) * v - q * v;
    MultiplesAreApart(d, v);
  }

  lemma DivStep(a: nat, v: nat)
    requires 0 < v
    ensures a >= v ==> a / v == (a - v) / v + 1
    ensures a < v ==> a / v == 0
  {
    if a < v {
      DivUnique(a, v, 0, a);
    } else {
      var q := (a - v) / v;
      assert (q + 1) * v == q * v + v;
      DivUnique(a, v, q + 1, (a - v) % v);
    }
  }

  /** Moving right, the shape is turned round at the right wall after exactly this many steps, and not before. */
  lemma {:induction false} ReachesRightWall(a: Axis, extent: nat)
    requires InBox(a, extent) && a.vel > 0
    ensures Run(a, extent, (extent - a.pos) / a.vel + 1) == Axis(extent, -a.vel)
    ensures forall j :: 0 <= j <= (extent - a.pos) / a.vel ==> Run(a, extent, j).vel == a.vel
    decreases extent - a.pos
  {
    var gap := extent - a.pos;
    DivStep(gap, a.vel);
    if gap >= a.vel {
      var next := Advance(a, extent);
      ReachesRightWall(next, extent);
      forall j | 0 <= j <= gap / a.vel ensures Run(a, extent, j).vel == a.vel {
        if j > 0 {
          assert Run(a, extent, j) == Run(next, extent, j - 1);
        }
      }
    } else {
      assert Run(a, extent, 1) == Run(Advance(a, extent), extent, 0);
    }
  }

  lemma CrossesFromLeft(extent: nat, speed: int)
    requires speed > 0
    ensures Run(Axis(0, speed), extent, Crossing(extent, speed)) == Axis(extent, -speed)
  {
    ReachesRightWall(Axis(0, speed), extent);
  }

  lemma CrossesFromRight(extent: nat, speed: int)
    requires speed > 0
    ensures Run(Axis(extent, -speed), extent, Crossing(extent, speed)) == Axis(0, speed)
  {
    CrossesFromLeft(extent, speed);
    MirrorRun(Axis(0, speed), extent, Crossing(extent, speed));
    assert Mirror(Axis(0, speed), extent) == Axis(extent, -speed);
  }

  /** Once it has bounced off a wall, the motion repeats every two crossings. */
  lemma BouncingIsPeriodic(extent: nat, speed: int, n: nat)
    requires speed > 0
    ensures Run(Axis(0, speed), extent, 2 * Crossing(extent, speed) + n) == Run(Axis(0, speed), extent, n)
  {
    var k := Crossing(extent, speed);
    CrossesFromLeft(extent, speed);
    CrossesFromRight(extent, speed);
    RunAdd(Axis(0, speed), extent, k, k);
    RunAdd(Axis(0, speed), extent, k + k, n);
  }

  lemma DivMonotone(a: nat, b: nat, v: nat)
    requires a <= b && 0 < v
    ensures a / v <= b / v
    decreases b
  {
    DivStep(a, v);
    DivStep(b, v);
    if a >= v {
      DivMonotone(a - v, b - v, v);
    }
  }

  /** From any start in the box, moving right, the right wall is met within one crossing and the left within two. */
  lemma MovingRightMeetsBothWalls(a: Axis, extent: nat) returns (right: nat, left: nat)
    requires InBox(a, extent) && a.vel > 0
    ensures right <= Crossing(extent, a.vel) && left == right + Crossing(extent, a.vel)
    ensures Run(a, extent, right) == Axis(extent, -a.vel) && Run(a, extent, left) == Axis(0, a.vel)
  {
    right := (extent - a.pos) / a.vel + 1;
    left := right + Crossing(extent, a.vel);
    ReachesRightWall(a, extent);
    DivMonotone(extent - a.pos, extent, a.vel);
    CrossesFromRight(extent, a.vel);
    RunAdd(a, extent, right, Crossing(extent, a.vel));
  }

  /** From any start in the box and with any non-zero velocity, both walls are met within two crossings. */
  lemma MeetsBothWalls(a: Axis, extent: nat) returns (right: nat, left: nat)
    requires InBox(a, extent) && a.vel != 0
    ensures right <= 2 * Crossing(extent, Speed(a)) && left <= 2 * Crossing(extent, Speed(a))
    ensures Run(a, extent, right).pos == extent && Run(a, extent, left).pos == 0
  {
    if a.vel > 0 {
      right, left := MovingRightMeetsBothWalls(a, extent);
    } else {
      var m := Mirror(a, extent);
      left, right := MovingRightMeetsBothWalls(m, extent);
      MirrorRun(a, extent, right);
      MirrorRun(a, extent, left);
    }
  }
}
