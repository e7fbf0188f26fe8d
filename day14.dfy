/** Day 14: robots moving on a torus-shaped region. Each robot moves by its
    velocity every second and wraps around the edges; the safety score is the
    product of the numbers of robots in the four quadrants. */
module Day14 {
  import opened Common

  datatype Robot = Robot(pos: (int, int), v: (int, int))

  /** The region of the puzzle, `REGION_SIZE` (line 4). */
  const REGION_WIDTH: int := 101
  const REGION_HEIGHT: int := 103

  /** One robot after `t` seconds (lines 104-112). Dafny's `%` by a positive
      modulus is Rust's `rem_euclid`: never negative. */
  function SimulateRobot(r: Robot, w: int, h: int, t: int): Robot
    requires w > 0 && h > 0
  {
    Robot(((r.pos.0 + t * r.v.0) % w, (r.pos.1 + t * r.v.1) % h), r.v)
  }

  /** `simulate_robots` (lines 99-114). */
  function SimulateRobots(robots: seq<Robot>, w: int, h: int, t: int): (r: seq<Robot>)
    requires w > 0 && h > 0
    ensures |r| == |robots|
    ensures forall i :: 0 <= i < |r| ==> r[i] == SimulateRobot(robots[i], w, h, t)
  {
    if |robots| == 0 then [] else [SimulateRobot(robots[0], w, h, t)] + SimulateRobots(robots[1..], w, h, t)
  }

  predicate InRegion(p: (int, int), w: int, h: int)
  {
    0 <= p.0 < w && 0 <= p.1 < h
  }

  /** Simulation keeps every robot's velocity and puts it inside the region. */
  lemma {:induction false} SimulatedInRegion(robots: seq<Robot>, w: int, h: int, t: int)
    requires w > 0 && h > 0
    ensures forall i :: 0 <= i < |robots| ==>
      InRegion(SimulateRobots(robots, w, h, t)[i].pos, w, h) && SimulateRobots(robots, w, h, t)[i].v == robots[i].v
  {
  }

  /** The x coordinates repeat every `w` seconds and the y coordinates every
      `h` seconds (the comments at lines 21 and 35). */
  lemma Periodic(r: Robot, w: int, h: int, t: int)
    requires w > 0 && h > 0
    ensures SimulateRobot(r, w, h, t + w).pos.0 == SimulateRobot(r, w, h, t).pos.0
    ensures SimulateRobot(r, w, h, t + h).pos.1 == SimulateRobot(r, w, h, t).pos.1
  {
    ModShift(r.pos.0 + t * r.v.0, r.v.0, w);
    assert r.pos.0 + (t + w) * r.v.0 == r.pos.0 + t * r.v.0 + r.v.0 * w;
    ModShift(r.pos.1 + t * r.v.1, r.v.1, h);
    assert r.pos.1 + (t + h) * r.v.1 == r.pos.1 + t * r.v.1 + r.v.1 * h;
  }

  // ---------------------------------------------------------------------------
  // Safety score

  datatype Quadrant = TopLeft | TopRight | BottomRight | BottomLeft

  /** The quadrant of a position, or None on the middle column or row
      (the four tests at lines 157-168 with `mid = size / 2`). */
  function QuadrantOf(p: (int, int), w: int, h: int): (q: Option<Quadrant>)
    requires w > 0 && h > 0
    ensures q.None? <==> p.0 == w / 2 || p.1 == h / 2
  {
    var midX, midY := w / 2, h / 2;
    if p.0 < midX && p.1 < midY then Some(TopLeft)
    else if p.0 > midX && p.1 < midY then Some(TopRight)
    else if p.0 > midX && p.1 > midY then Some(BottomRight)
    else if p.0 < midX && p.1 > midY then Some(BottomLeft)
    else None
  }

  /** The robots in quadrant `q`. */
  function CountIn(robots: seq<Robot>, q: Quadrant, w: int, h: int): (n: nat)
    requires w > 0 && h > 0
    ensures n <= |robots|
  {
    if |robots| == 0 then 0
    else (if QuadrantOf(robots[0].pos, w, h) == Some(q) then 1 else 0) + CountIn(robots[1..], q, w, h)
  }

  /** The robots on the middle column or row. */
  function CountMiddle(robots: seq<Robot>, w: int, h: int): nat
    requires w > 0 && h > 0
  {
    if |robots| == 0 then 0
    else (if QuadrantOf(robots[0].pos, w, h).None? then 1 else 0) + CountMiddle(robots[1..], w, h)
  }

  /** Every robot is counted exactly once: in one quadrant or on the middle. */
  lemma {:induction false} QuadrantsPartition(robots: seq<Robot>, w: int, h: int)
    requires w > 0 && h > 0
    ensures CountIn(robots, TopLeft, w, h) + CountIn(robots, TopRight, w, h)
      + CountIn(robots, BottomRight, w, h) + CountIn(robots, BottomLeft, w, h)
      + CountMiddle(robots, w, h) == |robots|
  {
    if |robots| > 0 {
      QuadrantsPartition(robots[1..], w, h);
    }
  }

  function SafetyScoreOf(robots: seq<Robot>, w: int, h: int): nat
    requires w > 0 && h > 0
  {
    CountIn(robots, TopLeft, w, h) * CountIn(robots, TopRight, w, h)
      * CountIn(robots, BottomRight, w, h) * CountIn(robots, BottomLeft, w, h)
  }

  /** `safety_score` (lines 146-172): four counters updated robot by robot. */
  method SafetyScore(robots: seq<Robot>, w: int, h: int) returns (score: int)
    requires w > 0 && h > 0
    ensures score == SafetyScoreOf(robots, w, h)
  {
    var midX, midY := w / 2, h / 2;
    var tl, tr, br, bl := 0, 0, 0, 0;
    for i := 0 to |robots|
      invariant tl + CountIn(robots[i..], TopLeft, w, h) == CountIn(robots, TopLeft, w, h)
      invariant tr + CountIn(robots[i..], TopRight, w, h) == CountIn(robots, TopRight, w, h)
      invariant br + CountIn(robots[i..], BottomRight, w, h) == CountIn(robots, BottomRight, w, h)
      invariant bl + CountIn(robots[i..], BottomLeft, w, h) == CountIn(robots, BottomLeft, w, h)
    {
      var r := robots[i];
      assert robots[i..][1..] == robots[i + 1..];
      if r.pos.0 < midX && r.pos.1 < midY {
        tl := tl + 1;
      }
      if r.pos.0 > midX && r.pos.1 < midY {
        tr := tr + 1;
      }
      if r.pos.0 > midX && r.pos.1 > midY {
        br := br + 1;
      }
      if r.pos.0 < midX && r.pos.1 > midY {
        bl := bl + 1;
      }
    }
    score := tl * tr * br * bl;
  }

  /** The score is the product over the four quadrants; with an empty quadrant
      it is 0. */
  lemma {:induction false} ScoreZeroWhenQuadrantEmpty(robots: seq<Robot>, w: int, h: int, q: Quadrant)
    requires w > 0 && h > 0 && CountIn(robots, q, w, h) == 0
    ensures SafetyScoreOf(robots, w, h) == 0
  {
  }

  // ---------------------------------------------------------------------------
  // Part 2: aligning the two periods (lines 64-74)

  /** The first `n` in `0..h` such that `h` divides `a - b + n * w`, giving
      the time `a + n * w`; 0 when there is none. The x pattern is best at
      time `a` modulo `w` and the y pattern at `b` modulo `h`; `a` and `b`
      come from a floating-point variance minimum that is not modelled. */
  method AlignPeriods(a: int, b: int, w: int, h: int) returns (t: int)
    requires h > 0
    ensures (exists n :: 0 <= n < h && (a - b + n * w) % h == 0) ==>
      exists n :: 0 <= n < h && t == a + n * w && (t - b) % h == 0
        && forall m :: 0 <= m < n ==> (a - b + m * w) % h != 0
    ensures (forall n :: 0 <= n < h ==> (a - b + n * w) % h != 0) ==> t == 0
  {
    for n := 0 to h
      invariant forall m :: 0 <= m < n ==> (a - b + m * w) % h != 0
    {
      if (a - b + n * w) % h == 0 {
        t := a + n * w;
        assert t - b == a - b + n * w;
        return;
      }
    }
    t := 0;
  }

  /** When `w` and `h` are coprime, as 101 and 103 are, a time exists that
      matches both patterns: the search never falls back to 0. */
  lemma AlignmentExists(a: int, b: int)
    ensures exists n :: 0 <= n < REGION_HEIGHT && (a - b + n * REGION_WIDTH) % REGION_HEIGHT == 0
  {
    // 101 * 51 == 5151 == 50 * 103 + 1, so 51 is the inverse of 101 modulo 103.
    var d := (b - a) % REGION_HEIGHT;
    var n := (d * 51) % REGION_HEIGHT;
    var k := (d * 51) / REGION_HEIGHT;
    var j := (b - a) / REGION_HEIGHT;
    assert d * 51 == k * REGION_HEIGHT + n;
    assert b - a == j * REGION_HEIGHT + d;
    assert a - b + n * REGION_WIDTH == (-j - k * 101 + d * 50) * REGION_HEIGHT;
    ModShift(0, -j - k * 101 + d * 50, REGION_HEIGHT);
  }

  // ---------------------------------------------------------------------------
  // The tests at lines 195-231

  /** The wrapping tests: a 3 by 3 region, one second. */
  lemma WrappingExamples()
    ensures SimulateRobot(Robot((1, 1), (2, 0)), 3, 3, 1).pos == (0, 1)
    ensures SimulateRobot(Robot((1, 1), (-2, 0)), 3, 3, 1).pos == (2, 1)
  {
  }

  const TEST_ROBOTS: seq<Robot> := [
    Robot((0, 4), (3, -3)), Robot((6, 3), (-1, -3)), Robot((10, 3), (-1, 2)),
    Robot((2, 0), (2, -1)), Robot((0, 0), (1, 3)), Robot((3, 0), (-2, -2)),
    Robot((7, 6), (-1, -3)), Robot((3, 0), (-1, -2)), Robot((9, 3), (2, 3)),
    Robot((7, 3), (-1, 2)), Robot((2, 4), (2, -3)), Robot((9, 5), (-3, -3))]

  /** The robots of the example after 100 seconds in an 11 by 7 region. */
  const TEST_AFTER_100: seq<Robot> := [
    Robot((3, 5), (3, -3)), Robot((5, 4), (-1, -3)), Robot((9, 0), (-1, 2)),
    Robot((4, 5), (2, -1)), Robot((1, 6), (1, 3)), Robot((1, 3), (-2, -2)),
    Robot((6, 0), (-1, -3)), Robot((2, 3), (-1, -2)), Robot((0, 2), (2, 3)),
    Robot((6, 0), (-1, 2)), Robot((4, 5), (2, -3)), Robot((6, 6), (-3, -3))]

  lemma ExampleRobot(i: int)
    requires 0 <= i < 12
    ensures SimulateRobot(TEST_ROBOTS[i], 11, 7, 100) == TEST_AFTER_100[i]
  {
    if i == 0 {} else if i == 1 {} else if i == 2 {} else if i == 3 {}
    else if i == 4 {} else if i == 5 {} else if i == 6 {} else if i == 7 {}
    else if i == 8 {} else if i == 9 {} else if i == 10 {} else {}
  }

  lemma ExampleSimulation()
    ensures SimulateRobots(TEST_ROBOTS, 11, 7, 100) == TEST_AFTER_100
  {
    forall i | 0 <= i < 12
      ensures SimulateRobots(TEST_ROBOTS, 11, 7, 100)[i] == TEST_AFTER_100[i]
    {
      ExampleRobot(i);
    }
  }

  lemma ExampleTopLeft()
    ensures CountIn(TEST_AFTER_100, TopLeft, 11, 7) == 1
  {
  }

  lemma ExampleTopRight()
    ensures CountIn(TEST_AFTER_100, TopRight, 11, 7) == 3
  {
  }

  lemma ExampleBottomRight()
    ensures CountIn(TEST_AFTER_100, BottomRight, 11, 7) == 1
  {
  }

  lemma ExampleBottomLeft()
    ensures CountIn(TEST_AFTER_100, BottomLeft, 11, 7) == 4
  {
  }

  /** Part 1 of the example scores 12 (lines 195-200). */
  lemma ExampleScore()
    ensures SafetyScoreOf(SimulateRobots(TEST_ROBOTS, 11, 7, 100), 11, 7) == 12
  {
    ExampleSimulation();
    ExampleTopLeft();
    ExampleTopRight();
    ExampleBottomRight();
    ExampleBottomLeft();
  }
}
