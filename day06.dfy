/** Day 6: guard gallivant. A guard walks north on a map of obstacles,
    turning right whenever the cell ahead is an obstacle, until the guard leaves
    the map. Part 1 counts the cells the guard stands on; part 2 counts the cells
    where one more obstacle would trap the guard in a loop. */
module Day06 {
  import opened Common

  datatype MapTile = Visited | NotVisited | Obstacle

  datatype Direction = North | East | South | West

  /** x grows to the east and y to the south. */
  type Pos = (int, int)

  /** `Pos + Direction` (lines 26-37). */
  function Step(p: Pos, d: Direction): (r: Pos)
    ensures Abs(r.0 - p.0) + Abs(r.1 - p.1) == 1
  {
    match d
    case North => (p.0, p.1 - 1)
    case East => (p.0 + 1, p.1)
    case South => (p.0, p.1 + 1)
    case West => (p.0 - 1, p.1)
  }

  /** `turn_right` (lines 39-48). */
  function TurnRight(d: Direction): Direction
  {
    match d
    case North => East
    case East => South
    case South => West
    case West => North
  }

  /** Turning right four times faces the same way again, and no fewer turns
      do; a turn and a step against the new direction lead back. */
  lemma TurnCycle(d: Direction)
    ensures TurnRight(TurnRight(TurnRight(TurnRight(d)))) == d
    ensures TurnRight(d) != d && TurnRight(TurnRight(d)) != d && TurnRight(TurnRight(TurnRight(d))) != d
  {
  }

  // ---------------------------------------------------------------------------
  // The map as a value: a width and the tiles in row-major order

  function Height(w: nat, tiles: seq<MapTile>): nat
    requires w > 0
  {
    |tiles| / w
  }

  /** `contains` (lines 58-61). */
  predicate InMap(w: nat, tiles: seq<MapTile>, p: Pos)
    requires w > 0
  {
    0 <= p.0 < w && 0 <= p.1 < Height(w, tiles)
  }

  /** The index of a cell of the map in `tiles`. */
  function Index(w: nat, tiles: seq<MapTile>, p: Pos): (i: nat)
    requires w > 0 && InMap(w, tiles, p)
    ensures i < |tiles|
  {
    RowsIndexBound(w, |tiles|, p.0, p.1);
    CellIndexIs(w, p.0, p.1);
    CellIndex(w, p.0, p.1)
  }

  /** `get` (lines 63-71). */
  function TileAt(w: nat, tiles: seq<MapTile>, p: Pos): (r: Option<MapTile>)
    requires w > 0
    ensures r.Some? <==> InMap(w, tiles, p)
  {
    if InMap(w, tiles, p) then Some(tiles[Index(w, tiles, p)]) else None
  }

  predicate Blocked(w: nat, tiles: seq<MapTile>, p: Pos)
    requires w > 0
  {
    TileAt(w, tiles, p) == Some(Obstacle)
  }

  /** Different cells of the map have different indices. */
  lemma IndexInjective(w: nat, tiles: seq<MapTile>, p: Pos, q: Pos)
    requires w > 0 && InMap(w, tiles, p) && InMap(w, tiles, q) && p != q
    ensures Index(w, tiles, p) != Index(w, tiles, q)
  {
    CellIndexIs(w, p.0, p.1);
    CellIndexIs(w, q.0, q.1);
    if Index(w, tiles, p) == Index(w, tiles, q) {
      GridIndexUnique(w, p.0, p.1, q.0, q.1);
    }
  }

  // ---------------------------------------------------------------------------
  // The walk

  datatype State = State(pos: Pos, dir: Direction)

  /** The turns of lines 125-128: the first direction, turning right from
      `d`, whose next cell is not an obstacle, trying `tries` directions.
      None when all of them are blocked. */
  function Face(w: nat, tiles: seq<MapTile>, p: Pos, d: Direction, tries: nat): (r: Option<Direction>)
    requires w > 0
    ensures r.Some? ==> !Blocked(w, tiles, Step(p, r.value))
    decreases tries
  {
    if tries == 0 then None
    else if Blocked(w, tiles, Step(p, d)) then Face(w, tiles, p, TurnRight(d), tries - 1)
    else Some(d)
  }

  /** What one step of the guard does: it moves the guard to a cell of the map,
      off the map, or finds the guard boxed in on all four sides (where the source
      turns forever). */
  datatype Move = Moved(s: State) | Left | Stuck

  /** One iteration of the walk (lines 124-133). */
  function Next(w: nat, tiles: seq<MapTile>, s: State): (m: Move)
    requires w > 0
    ensures m.Moved? ==> InMap(w, tiles, m.s.pos) && !Blocked(w, tiles, m.s.pos)
    ensures m.Moved? ==> Abs(m.s.pos.0 - s.pos.0) + Abs(m.s.pos.1 - s.pos.1) == 1
  {
    match Face(w, tiles, s.pos, s.dir, 4)
    case None => Stuck
    case Some(d) =>
      var np := Step(s.pos, d);
      if InMap(w, tiles, np) then Moved(State(np, d)) else Left
  }

  /** Iterating a step function `n` times from `s`; leaving the map and
      being boxed in are final. Kept apart from `Next` so that the facts
      about iteration do not unfold the map. */
  function Iterate(next: State -> Move, s: State, n: nat): Move
  {
    if n == 0 then Moved(s)
    else
      match Iterate(next, s, n - 1)
      case Moved(t) => next(t)
      case other => other
  }

  /** `a + b` steps are `b` steps from where `a` steps lead. */
  lemma {:induction false} IterateShift(next: State -> Move, s: State, a: nat, b: nat)
    requires Iterate(next, s, a).Moved?
    ensures Iterate(next, s, a + b) == Iterate(next, Iterate(next, s, a).s, b)
  {
    if b > 0 {
      IterateShift(next, s, a, b - 1);
    }
  }

  /** Before a step at which the walk is still on the map it always was. */
  lemma {:induction false} MovedBefore(next: State -> Move, s: State, i: nat, k: nat)
    requires i <= k && Iterate(next, s, k).Moved?
    ensures Iterate(next, s, i).Moved?
    decreases k
  {
    if i < k {
      MovedBefore(next, s, i, k - 1);
    }
  }

  /** A state that comes back repeats forever: the walk never ends. */
  lemma {:induction false} RepeatNeverLeaves(next: State -> Move, s: State, i: nat, k: nat, n: nat)
    requires i < k && Iterate(next, s, i) == Iterate(next, s, k) && Iterate(next, s, k).Moved?
    ensures Iterate(next, s, n).Moved?
    decreases n
  {
    if n <= k {
      MovedBefore(next, s, n, k);
    } else {
      var p := k - i;
      MovedBefore(next, s, i, k);
      IterateShift(next, s, k, n - k);
      IterateShift(next, s, i, n - k);
      assert i + (n - k) == n - p;
      RepeatNeverLeaves(next, s, i, k, n - p);
    }
  }

  /** A walk boxed in stays boxed in. */
  lemma {:induction false} StuckStays(next: State -> Move, t: State, b: nat)
    requires next(t) == Stuck
    ensures Iterate(next, t, b + 1) == Stuck
  {
    if b > 0 {
      StuckStays(next, t, b - 1);
    }
  }

  lemma {:induction false} StuckForever(next: State -> Move, s: State, k: nat, n: nat)
    requires Iterate(next, s, k).Moved? && next(Iterate(next, s, k).s) == Stuck
    ensures Iterate(next, s, n) != Left
  {
    if n <= k {
      MovedBefore(next, s, n, k);
    } else {
      StuckStays(next, Iterate(next, s, k).s, n - k - 1);
      IterateShift(next, s, k, n - k);
    }
  }

  /** Two step functions that agree everywhere give the same walks. */
  lemma {:induction false} IterateSameStep(f: State -> Move, g: State -> Move, s: State, n: nat)
    requires forall t :: f(t) == g(t)
    ensures Iterate(f, s, n) == Iterate(g, s, n)
  {
    if n > 0 {
      IterateSameStep(f, g, s, n - 1);
    }
  }

  /** The guard's step on a map. */
  function Walk(w: nat, tiles: seq<MapTile>): (next: State -> Move)
    requires w > 0
    ensures forall s :: next(s) == Next(w, tiles, s)
  {
    s => Next(w, tiles, s)
  }

  /** Where the guard is after `n` iterations. */
  function Run(w: nat, tiles: seq<MapTile>, s: State, n: nat): Move
    requires w > 0
  {
    Iterate(Walk(w, tiles), s, n)
  }

  /** The guard leaves the map after finitely many steps. */
  ghost predicate Escapes(w: nat, tiles: seq<MapTile>, s: State)
    requires w > 0
  {
    exists n: nat :: Run(w, tiles, s, n) == Left
  }

  /** Tiles with the obstacles at the same places. */
  ghost predicate SameObstacles(t1: seq<MapTile>, t2: seq<MapTile>)
  {
    |t1| == |t2| && forall i :: 0 <= i < |t1| ==> (t1[i] == Obstacle <==> t2[i] == Obstacle)
  }

  /** The walk looks at obstacles only: marks left by the guard do not
      change the guard's way. */
  lemma RunSameObstacles(w: nat, t1: seq<MapTile>, t2: seq<MapTile>, s: State, n: nat)
    requires w > 0 && SameObstacles(t1, t2)
    ensures Run(w, t1, s, n) == Run(w, t2, s, n)
  {
    forall t ensures Walk(w, t1)(t) == Walk(w, t2)(t) {
      FaceSameObstacles(w, t1, t2, t.pos, t.dir, 4);
    }
    IterateSameStep(Walk(w, t1), Walk(w, t2), s, n);
  }

  lemma {:induction false} FaceSameObstacles(w: nat, t1: seq<MapTile>, t2: seq<MapTile>, p: Pos, d: Direction, tries: nat)
    requires w > 0 && SameObstacles(t1, t2)
    ensures Face(w, t1, p, d, tries) == Face(w, t2, p, d, tries)
    decreases tries
  {
    if tries > 0 {
      FaceSameObstacles(w, t1, t2, p, TurnRight(d), tries - 1);
    }
  }

  // ---------------------------------------------------------------------------
  // The map object

  /** `Map` (lines 10-13). */
  class Map {
    var width: nat
    var matrix: seq<MapTile>

    constructor(width: nat, matrix: seq<MapTile>)
      ensures this.width == width && this.matrix == matrix
    {
      this.width := width;
      this.matrix := matrix;
    }

    predicate Contains(p: Pos)
      reads this
      requires width > 0
    {
      InMap(width, matrix, p)
    }

    function Get(p: Pos): Option<MapTile>
      reads this
      requires width > 0
    {
      TileAt(width, matrix, p)
    }

    /** `mark` (lines 73-77). */
    method Mark(p: Pos)
      requires width > 0 && Contains(p)
      modifies this
      ensures width == old(width) && matrix == old(matrix)[Index(width, old(matrix), p) := Visited]
    {
      var idx := width * p.1 + p.0;
      assert idx == Index(width, matrix, p) by {
        CellIndexIs(width, p.0, p.1);
      }
      matrix := matrix[idx := Visited];
    }

    /** `add_obstable` (lines 79-83). */
    method AddObstacle(p: Pos)
      requires width > 0 && Contains(p)
      modifies this
      ensures width == old(width) && matrix == old(matrix)[Index(width, old(matrix), p) := Obstacle]
    {
      var idx := width * p.1 + p.0;
      assert idx == Index(width, matrix, p) by {
        CellIndexIs(width, p.0, p.1);
      }
      matrix := matrix[idx := Obstacle];
    }

    /** `remove_obstable` (lines 85-89). */
    method RemoveObstacle(p: Pos)
      requires width > 0 && Contains(p)
      modifies this
      ensures width == old(width) && matrix == old(matrix)[Index(width, old(matrix), p) := NotVisited]
    {
      var idx := width * p.1 + p.0;
      assert idx == Index(width, matrix, p) by {
        CellIndexIs(width, p.0, p.1);
      }
      matrix := matrix[idx := NotVisited];
    }

    /** `count_visited` (lines 91-96). */
    method CountVisited() returns (n: nat)
      ensures n == Count(matrix, Visited)
    {
      n := 0;
      for i := 0 to |matrix|
        invariant n == multiset(matrix[..i])[Visited]
      {
        assert matrix[..i + 1] == matrix[..i] + [matrix[i]];
        if matrix[i] == Visited {
          n := n + 1;
        }
      }
      assert matrix[..|matrix|] == matrix;
    }
  }

  /** An obstacle put on a free cell and taken away again leaves the tiles
      as they were. */
  lemma AddRemoveRestores(tiles: seq<MapTile>, i: nat)
    requires i < |tiles| && tiles[i] == NotVisited
    ensures tiles[i := Obstacle][i := NotVisited] == tiles
  {
  }

  /** Marking a cell adds it to the count of visited cells unless it was
      visited already. */
  lemma CountMark(tiles: seq<MapTile>, i: nat)
    requires i < |tiles|
    ensures Count(tiles[i := Visited], Visited) == Count(tiles, Visited) + (if tiles[i] == Visited then 0 else 1)
  {
    var t := tiles[i := Visited];
    assert tiles == tiles[..i] + [tiles[i]] + tiles[i + 1..];
    assert t == tiles[..i] + [Visited] + tiles[i + 1..];
  }

  // ---------------------------------------------------------------------------
  // Loop detection

  /** The states of a map: its cells in each direction. */
  ghost function GridStates(w: nat, tiles: seq<MapTile>): set<State>
    requires w > 0
  {
    set x: nat, y: nat, d: Direction | x < w && y < Height(w, tiles) :: State((x, y), d)
  }

  lemma InGridStates(w: nat, tiles: seq<MapTile>, s: State)
    requires w > 0 && InMap(w, tiles, s.pos)
    ensures s in GridStates(w, tiles)
  {
    var x: nat, y: nat := s.pos.0, s.pos.1;
    assert s == State((x, y), s.dir);
  }

  /** The turning loop of lines 125-128, 147-150 and 178-181: the direction
      `Face` picks. When the guard is boxed in the source turns forever;
      here the guard stays put facing the way it came. */
  method Turn(m: Map, p: Pos, d: Direction) returns (r: Option<Direction>)
    requires m.width > 0
    ensures r == Face(m.width, m.matrix, p, d, 4)
  {
    var dir := d;
    var tries := 4;
    while tries > 0 && m.Get(Step(p, dir)) == Some(Obstacle)
      invariant Face(m.width, m.matrix, p, dir, tries) == Face(m.width, m.matrix, p, d, 4)
      decreases tries
    {
      dir := TurnRight(dir);
      tries := tries - 1;
    }
    if tries == 0 {
      return None;
    }
    return Some(dir);
  }

  /** `has_loop` (lines 169-189): true exactly when the guard starting at
      `s` never leaves the map. The guard is caught when a (position, direction)
      state comes back. */
  method HasLoop(m: Map, s: State) returns (r: bool)
    requires m.width > 0 && m.Contains(s.pos)
    ensures r <==> !Escapes(m.width, m.matrix, s)
  {
    var w, tiles := m.width, m.matrix;
    var visited: set<State> := {};
    var cur := s;
    ghost var trail: seq<State> := [];
    while true
      invariant Run(w, tiles, s, |trail|) == Moved(cur) && InMap(w, tiles, cur.pos)
      invariant Follows(w, tiles, s, trail) && visited == (set t | t in trail)
      invariant visited <= GridStates(w, tiles)
      decreases GridStates(w, tiles) - visited
    {
      var k := |trail|;
      if cur in visited {
        ghost var i :| 0 <= i < k && trail[i] == cur;
        forall n: nat ensures Run(w, tiles, s, n) != Left {
          RepeatNeverLeaves(Walk(w, tiles), s, i, k, n);
        }
        return true;
      }
      InGridStates(w, tiles, cur);
      ghost var before := visited;
      visited := visited + {cur};
      assert GridStates(w, tiles) - visited < GridStates(w, tiles) - before;
      FollowsAppend(w, tiles, s, trail, cur);
      trail := trail + [cur];
      var face := Turn(m, cur.pos, cur.dir);
      RunStep(w, tiles, s, k, cur);
      match face {
        case None =>
          forall n: nat ensures Run(w, tiles, s, n) != Left {
            StuckForever(Walk(w, tiles), s, k, n);
          }
          return true;
        case Some(d) =>
          var np := Step(cur.pos, d);
          if !m.Contains(np) {
            return false;
          }
          cur := State(np, d);
      }
    }
  }

  // ---------------------------------------------------------------------------
  // The patrol route

  /** Every state of a walk from a free cell of the map lies on a free cell
      of the map. */
  lemma RunOnMap(w: nat, tiles: seq<MapTile>, s: State, i: nat)
    requires w > 0 && InMap(w, tiles, s.pos) && !Blocked(w, tiles, s.pos)
    requires Run(w, tiles, s, i).Moved?
    ensures InMap(w, tiles, Run(w, tiles, s, i).s.pos) && !Blocked(w, tiles, Run(w, tiles, s, i).s.pos)
  {
  }

  /** One more iteration from where `k` of them lead: the guard faces the
      direction `Face` picks and steps, leaving if that is off the map. */
  lemma {:induction false} RunStep(w: nat, tiles: seq<MapTile>, s: State, k: nat, cur: State)
    requires w > 0 && Run(w, tiles, s, k) == Moved(cur)
    ensures Face(w, tiles, cur.pos, cur.dir, 4).None? ==> Next(w, tiles, cur) == Stuck
    ensures Face(w, tiles, cur.pos, cur.dir, 4).Some? ==>
      var d := Face(w, tiles, cur.pos, cur.dir, 4).value;
      Run(w, tiles, s, k + 1) == if InMap(w, tiles, Step(cur.pos, d)) then Moved(State(Step(cur.pos, d), d)) else Left
  {
  }

  /** `trail` holds the first states of the walk from `s`. */
  ghost predicate Follows(w: nat, tiles: seq<MapTile>, s: State, trail: seq<State>)
    requires w > 0
  {
    forall i :: 0 <= i < |trail| ==> Run(w, tiles, s, i) == Moved(trail[i])
  }

  lemma FollowsAppend(w: nat, tiles: seq<MapTile>, s: State, trail: seq<State>, cur: State)
    requires w > 0 && Follows(w, tiles, s, trail) && Run(w, tiles, s, |trail|) == Moved(cur)
    ensures Follows(w, tiles, s, trail + [cur])
  {
  }

  /** The guard is still on the map before the step that leaves it. */
  lemma BeforeExit(w: nat, tiles: seq<MapTile>, s: State, k: nat, exit: nat)
    requires w > 0 && Run(w, tiles, s, k).Moved? && Run(w, tiles, s, exit) == Left
    ensures k < exit
  {
    if exit <= k {
      MovedBefore(Walk(w, tiles), s, exit, k);
    }
  }

  /** The cells the guard stands on, ever. */
  ghost function Patrolled(w: nat, tiles: seq<MapTile>, s: State): set<Pos>
    requires w > 0
  {
    set x: nat, y: nat | x < w && y < Height(w, tiles) &&
      (exists i: nat :: Run(w, tiles, s, i).Moved? && Run(w, tiles, s, i).s.pos == (x, y)) :: (x, y)
  }

  ghost function Positions(states: seq<State>): set<Pos>
  {
    set i | 0 <= i < |states| :: states[i].pos
  }

  lemma PositionsAppend(states: seq<State>, t: State)
    ensures Positions(states + [t]) == Positions(states) + {t.pos}
  {
    var r := states + [t];
    forall p | p in Positions(r) ensures p in Positions(states) + {t.pos} {
      var i :| 0 <= i < |r| && r[i].pos == p;
      if i < |states| {
        assert states[i].pos == p;
      }
    }
    forall p | p in Positions(states) ensures p in Positions(r) {
      var i :| 0 <= i < |states| && states[i].pos == p;
      assert r[i].pos == p;
    }
    assert r[|states|].pos == t.pos;
  }

  /** Once the guard has left after the states of `trail`, the cells of
      `trail` are all the guard ever stands on. */
  lemma PatrolledIs(w: nat, tiles: seq<MapTile>, s: State, trail: seq<State>)
    requires w > 0 && InMap(w, tiles, s.pos) && !Blocked(w, tiles, s.pos)
    requires Follows(w, tiles, s, trail) && Run(w, tiles, s, |trail|) == Left
    ensures Patrolled(w, tiles, s) == Positions(trail)
  {
    forall p | p in Patrolled(w, tiles, s) ensures p in Positions(trail) {
      var i: nat :| Run(w, tiles, s, i).Moved? && Run(w, tiles, s, i).s.pos == p;
      BeforeExit(w, tiles, s, i, |trail|);
      assert trail[i].pos == p;
    }
    forall p | p in Positions(trail) ensures p in Patrolled(w, tiles, s) {
      var i :| 0 <= i < |trail| && trail[i].pos == p;
      RunOnMap(w, tiles, s, i);
      var x: nat, y: nat := p.0, p.1;
      assert Run(w, tiles, s, i).s.pos == (x, y);
    }
  }

  /** No cell is marked yet, as after parsing. */
  predicate NoneVisited(tiles: seq<MapTile>)
  {
    forall i :: 0 <= i < |tiles| ==> tiles[i] != Visited
  }

  /** `t` is `t0` with exactly the cells of `cells` marked. */
  ghost predicate Marked(w: nat, t0: seq<MapTile>, t: seq<MapTile>, cells: set<Pos>)
    requires w > 0
  {
    |t| == |t0| &&
    forall p :: InMap(w, t0, p) ==> TileAt(w, t, p) == (if p in cells then Some(Visited) else TileAt(w, t0, p))
  }

  lemma MarkedStep(w: nat, t0: seq<MapTile>, t: seq<MapTile>, cells: set<Pos>, p: Pos)
    requires w > 0 && InMap(w, t0, p) && Marked(w, t0, t, cells)
    ensures Marked(w, t0, t[Index(w, t, p) := Visited], cells + {p})
  {
    var t' := t[Index(w, t, p) := Visited];
    forall q | InMap(w, t0, q)
      ensures TileAt(w, t', q) == (if q in cells + {p} then Some(Visited) else TileAt(w, t0, q))
    {
      if q != p {
        IndexInjective(w, t, p, q);
      }
    }
  }

  /** Marking a cell the walk may stand on keeps the obstacles. */
  lemma SameObstaclesMark(t0: seq<MapTile>, t: seq<MapTile>, i: nat)
    requires SameObstacles(t0, t) && i < |t| && t[i] != Obstacle
    ensures SameObstacles(t0, t[i := Visited])
  {
  }

  /** The part 1 loop (lines 121-134) from the guard's start: every cell
      the guard stands on is marked until the guard leaves; the answer is the number
      of marked cells. The guard must leave, or the source loops forever. */
  method Patrol(m: Map, s: State) returns (n: nat)
    requires m.width > 0 && m.Contains(s.pos) && m.Get(s.pos) == Some(NotVisited)
    requires NoneVisited(m.matrix) && Escapes(m.width, m.matrix, s)
    modifies m
    ensures m.width == old(m.width)
    ensures Marked(m.width, old(m.matrix), m.matrix, Patrolled(m.width, old(m.matrix), s))
    ensures n == |Patrolled(m.width, old(m.matrix), s)|
  {
    ghost var w, t0 := m.width, m.matrix;
    ghost var exit: nat :| Run(w, t0, s, exit) == Left;
    var cur := s;
    ghost var trail: seq<State> := [];
    ghost var seen: set<Pos> := {};
    while true
      invariant m.width == w && SameObstacles(t0, m.matrix)
      invariant Marked(w, t0, m.matrix, seen) && Count(m.matrix, Visited) == |seen|
      invariant Run(w, t0, s, |trail|) == Moved(cur) && InMap(w, t0, cur.pos) && !Blocked(w, t0, cur.pos)
      invariant Follows(w, t0, s, trail) && seen == Positions(trail)
      decreases exit - |trail|
    {
      var face;
      face, trail, seen := PatrolStep(m, w, t0, s, exit, trail, seen, cur);
      var d := face.value;
      var np := Step(cur.pos, d);
      if !m.Contains(np) {
        PatrolledIs(w, t0, s, trail);
        n := m.CountVisited();
        return;
      }
      cur := State(np, d);
    }
  }

  /** One iteration of lines 121-134: the guard's cell is marked and the guard
      turns until the cell ahead is free, which happens since the guard leaves
      in the end. */
  method PatrolStep(m: Map, ghost w: nat, ghost t0: seq<MapTile>, ghost s: State, ghost exit: nat,
                    ghost trail: seq<State>, ghost seen: set<Pos>, cur: State)
    returns (face: Option<Direction>, ghost trail': seq<State>, ghost seen': set<Pos>)
    requires w > 0 && NoneVisited(t0) && Run(w, t0, s, exit) == Left
    requires m.width == w && SameObstacles(t0, m.matrix)
    requires Marked(w, t0, m.matrix, seen) && Count(m.matrix, Visited) == |seen|
    requires Run(w, t0, s, |trail|) == Moved(cur) && InMap(w, t0, cur.pos) && !Blocked(w, t0, cur.pos)
    requires Follows(w, t0, s, trail) && seen == Positions(trail)
    modifies m
    ensures m.width == w && SameObstacles(t0, m.matrix)
    ensures Marked(w, t0, m.matrix, seen') && Count(m.matrix, Visited) == |seen'|
    ensures Follows(w, t0, s, trail') && seen' == Positions(trail')
    ensures |trail'| == |trail| + 1 <= exit
    ensures face.Some?
    ensures InMap(w, t0, Step(cur.pos, face.value)) ==> !Blocked(w, t0, Step(cur.pos, face.value))
    ensures Run(w, t0, s, |trail'|) ==
      if InMap(w, t0, Step(cur.pos, face.value)) then Moved(State(Step(cur.pos, face.value), face.value)) else Left
  {
    MarkCell(m, w, t0, seen, cur.pos);
    PositionsAppend(trail, cur);
    seen' := seen + {cur.pos};
    trail' := trail + [cur];
    face := Turn(m, cur.pos, cur.dir);
    FaceSameObstacles(w, t0, m.matrix, cur.pos, cur.dir, 4);
    WalkOn(w, t0, s, exit, trail, cur);
  }

  /** The walk goes on from a state it reaches before it leaves: the guard
      finds a free direction, and the next state is the step that way. */
  lemma {:induction false} WalkOn(w: nat, t0: seq<MapTile>, s: State, exit: nat, trail: seq<State>, cur: State)
    requires w > 0 && Run(w, t0, s, exit) == Left
    requires Follows(w, t0, s, trail) && Run(w, t0, s, |trail|) == Moved(cur)
    ensures |trail| < exit && Follows(w, t0, s, trail + [cur])
    ensures Face(w, t0, cur.pos, cur.dir, 4).Some?
    ensures var d := Face(w, t0, cur.pos, cur.dir, 4).value;
      && (InMap(w, t0, Step(cur.pos, d)) ==> !Blocked(w, t0, Step(cur.pos, d)))
      && Run(w, t0, s, |trail| + 1) == if InMap(w, t0, Step(cur.pos, d)) then Moved(State(Step(cur.pos, d), d)) else Left
  {
    BeforeExit(w, t0, s, |trail|, exit);
    RunStep(w, t0, s, |trail|, cur);
    FollowsAppend(w, t0, s, trail, cur);
    if Face(w, t0, cur.pos, cur.dir, 4).None? {
      StuckForever(Walk(w, t0), s, |trail|, exit);
      assert false;
    }
  }

  /** Line 122: marking the guard's cell, with what it does to the count of
      visited cells. */
  method MarkCell(m: Map, ghost w: nat, ghost t0: seq<MapTile>, ghost seen: set<Pos>, p: Pos)
    requires w > 0 && m.width == w && InMap(w, t0, p) && !Blocked(w, t0, p) && NoneVisited(t0)
    requires SameObstacles(t0, m.matrix) && Marked(w, t0, m.matrix, seen) && Count(m.matrix, Visited) == |seen|
    modifies m
    ensures m.width == w && SameObstacles(t0, m.matrix)
    ensures Marked(w, t0, m.matrix, seen + {p}) && Count(m.matrix, Visited) == |seen + {p}|
  {
    MarkFacts(w, t0, m.matrix, seen, p);
    m.Mark(p);
  }

  /** What marking the guard's cell does to the marks and their count. */
  lemma MarkFacts(w: nat, t0: seq<MapTile>, t: seq<MapTile>, seen: set<Pos>, p: Pos)
    requires w > 0 && InMap(w, t0, p) && !Blocked(w, t0, p) && NoneVisited(t0)
    requires SameObstacles(t0, t) && Marked(w, t0, t, seen) && Count(t, Visited) == |seen|
    ensures SameObstacles(t0, t[Index(w, t, p) := Visited])
    ensures Marked(w, t0, t[Index(w, t, p) := Visited], seen + {p})
    ensures Count(t[Index(w, t, p) := Visited], Visited) == |seen + {p}|
  {
    var i := Index(w, t, p);
    assert TileAt(w, t, p) == Some(t[i]);
    assert t[i] == Visited <==> p in seen;
    CountMark(t, i);
    if p in seen {
      assert seen + {p} == seen;
    } else {
      assert |seen + {p}| == |seen| + 1;
    }
    SameObstaclesMark(t0, t, i);
    MarkedStep(w, t0, t, seen, p);
  }

  // ---------------------------------------------------------------------------
  // Obstructions

  /** The tiles with one more obstacle at `p`. */
  function Block(w: nat, tiles: seq<MapTile>, p: Pos): seq<MapTile>
    requires w > 0 && InMap(w, tiles, p)
  {
    tiles[Index(w, tiles, p) := Obstacle]
  }

  /** The cells of `cells`, other than the guard's start, where an obstacle
      keeps the guard from ever leaving. */
  ghost function Trapping(w: nat, tiles: seq<MapTile>, s: State, cells: set<Pos>): set<Pos>
    requires w > 0
  {
    set p | p in cells && InMap(w, tiles, p) && p != s.pos && !Escapes(w, Block(w, tiles, p), s)
  }

  /** The answer to part 2: the cells of the route, other than the start,
      where one more obstacle traps the guard. */
  ghost function Loops(w: nat, tiles: seq<MapTile>, s: State): set<Pos>
    requires w > 0
  {
    Trapping(w, tiles, s, Patrolled(w, tiles, s))
  }

  lemma TrappingAdd(w: nat, tiles: seq<MapTile>, s: State, cells: set<Pos>, p: Pos)
    requires w > 0 && InMap(w, tiles, p)
    ensures Trapping(w, tiles, s, cells + {p}) ==
      Trapping(w, tiles, s, cells) + (if p != s.pos && !Escapes(w, Block(w, tiles, p), s) then {p} else {})
  {
  }

  /** Lines 152-159: with the route's next cell `p` blocked, does the guard
      from the start get caught in a loop? The obstacle is taken away
      again, so the map ends as it was. */
  method TryObstacle(m: Map, s: State, p: Pos, candidates: set<Pos>) returns (c: set<Pos>)
    requires m.width > 0 && m.Contains(s.pos) && m.Contains(p) && m.Get(p) == Some(NotVisited)
    requires p in candidates ==> p != s.pos && !Escapes(m.width, Block(m.width, m.matrix, p), s)
    modifies m
    ensures m.width == old(m.width) && m.matrix == old(m.matrix)
    ensures c == candidates + (if p != s.pos && !Escapes(m.width, Block(m.width, m.matrix, p), s) then {p} else {})
  {
    c := candidates;
    if p != s.pos && p !in candidates {
      ghost var i := Index(m.width, m.matrix, p);
      AddRemoveRestores(m.matrix, i);
      m.AddObstacle(p);
      var trapped := HasLoop(m, s);
      if trapped {
        c := c + {p};
      }
      m.RemoveObstacle(p);
    }
  }

  /** Lines 151-160 for the route's next cell `np`: the candidates found
      so far among `cells` become those among `cells` and `np`. */
  method Visit(m: Map, s: State, np: Pos, candidates: set<Pos>, ghost cells: set<Pos>) returns (c: set<Pos>)
    requires m.width > 0 && m.Contains(s.pos) && m.Contains(np) && m.Get(np) == Some(NotVisited)
    requires candidates == Trapping(m.width, m.matrix, s, cells)
    modifies m
    ensures m.width == old(m.width) && m.matrix == old(m.matrix)
    ensures c == Trapping(m.width, m.matrix, s, cells + {np})
  {
    TrappingAdd(m.width, m.matrix, s, cells, np);
    c := TryObstacle(m, s, np, candidates);
  }

  /** The part 2 loop (lines 144-164): the guard walks the route on the
      unchanged map and every cell stepped onto is tried as an
      obstruction. The guard must leave, or the source loops forever. */
  method Obstructions(m: Map, s: State) returns (n: nat)
    requires m.width > 0 && m.Contains(s.pos) && m.Get(s.pos) == Some(NotVisited)
    requires NoneVisited(m.matrix) && Escapes(m.width, m.matrix, s)
    modifies m
    ensures m.width == old(m.width) && m.matrix == old(m.matrix)
    ensures n == |Loops(m.width, m.matrix, s)|
  {
    ghost var w, t0 := m.width, m.matrix;
    ghost var exit: nat :| Run(w, t0, s, exit) == Left;
    var candidates: set<Pos> := {};
    var cur := s;
    ghost var trail: seq<State> := [];
    assert Positions([s]) == {s.pos} by {
      assert [s][0].pos == s.pos;
    }
    while true
      invariant m.width == w && m.matrix == t0
      invariant OnRoute(w, t0, s, trail, cur, candidates)
      decreases exit - |trail|
    {
      var next;
      next, candidates, trail := Advance(m, s, exit, trail, cur, candidates);
      if next.None? {
        return |candidates|;
      }
      cur := next.value;
    }
  }

  /** The invariant of the part 2 loop: the guard is at `cur` after the
      states of `trail`, and `candidates` holds the trapping cells among
      the cells stood on. */
  ghost predicate OnRoute(w: nat, t0: seq<MapTile>, s: State, trail: seq<State>, cur: State, candidates: set<Pos>)
    requires w > 0
  {
    && Run(w, t0, s, |trail|) == Moved(cur) && InMap(w, t0, cur.pos) && !Blocked(w, t0, cur.pos)
    && Follows(w, t0, s, trail)
    && candidates == Trapping(w, t0, s, Positions(trail + [cur]))
  }

  /** One iteration of lines 146-163: the guard turns and steps; when the guard
      stays on the map the cell stepped onto is tried. Once the guard leaves,
      the candidates are all the cells counted by part 2. */
  method Advance(m: Map, s: State, ghost exit: nat, ghost trail: seq<State>, cur: State, candidates: set<Pos>)
    returns (next: Option<State>, c: set<Pos>, ghost trail': seq<State>)
    requires m.width > 0 && m.Contains(s.pos) && m.Get(s.pos) == Some(NotVisited) && NoneVisited(m.matrix)
    requires Run(m.width, m.matrix, s, exit) == Left
    requires OnRoute(m.width, m.matrix, s, trail, cur, candidates)
    modifies m
    ensures m.width == old(m.width) && m.matrix == old(m.matrix)
    ensures next.None? ==> c == Loops(m.width, m.matrix, s)
    ensures next.Some? ==> OnRoute(m.width, m.matrix, s, trail', next.value, c) && |trail'| == |trail| + 1 <= exit
  {
    ghost var w, t0 := m.width, m.matrix;
    var face := Turn(m, cur.pos, cur.dir);
    WalkOn(w, t0, s, exit, trail, cur);
    var d := face.value;
    var np := Step(cur.pos, d);
    trail' := trail + [cur];
    if !m.Contains(np) {
      PatrolledIs(w, t0, s, trail');
      return None, candidates, trail';
    }
    c := Visit(m, s, np, candidates, Positions(trail'));
    next := Some(State(np, d));
    PositionsAppend(trail', next.value);
  }

  // ---------------------------------------------------------------------------
  // Parsing

  /** The tile a map character stands for; the guard's `^` is free floor. */
  function TileOf(c: char): (t: MapTile)
    ensures t == Obstacle <==> c == '#'
    ensures t != Visited
  {
    if c == '#' then Obstacle else NotVisited
  }

  /** The column of the last `^` of a line. */
  function LastCaret(line: string): (r: Option<nat>)
    ensures r.Some? ==> r.value < |line| && line[r.value] == '^'
    ensures r.Some? ==> forall x :: r.value < x < |line| ==> line[x] != '^'
    ensures r.None? ==> forall x :: 0 <= x < |line| ==> line[x] != '^'
  {
    if |line| == 0 then None
    else if line[|line| - 1] == '^' then Some(|line| - 1)
    else LastCaret(line[..|line| - 1])
  }

  /** Where the guard is once row `y` is read, given where the guard was before. */
  function RowGuard(line: string, y: nat, before: Option<Pos>): Option<Pos>
  {
    match LastCaret(line)
    case Some(x) => Some((x, y))
    case None => before
  }

  /** The last `^` of the text in reading order: later ones overwrite
      earlier ones in lines 106-112. */
  function GuardIn(lines: seq<string>): (r: Option<Pos>)
    ensures r.Some? ==> 0 <= r.value.1 < |lines| && 0 <= r.value.0 < |lines[r.value.1]|
    ensures r.Some? ==> lines[r.value.1][r.value.0] == '^'
    ensures r.Some? ==> forall y, x :: 0 <= y < |lines| && 0 <= x < |lines[y]| && (y > r.value.1 || (y == r.value.1 && x > r.value.0)) ==> lines[y][x] != '^'
    ensures r.None? ==> forall y, x :: 0 <= y < |lines| && 0 <= x < |lines[y]| ==> lines[y][x] != '^'
  {
    if |lines| == 0 then None
    else RowGuard(lines[|lines| - 1], |lines| - 1, GuardIn(lines[..|lines| - 1]))
  }

  datatype Parsed = Parsed(guard: Pos, width: nat, tiles: seq<MapTile>)

  /** The tiles of the padded rows. */
  function TileRows(lines: seq<string>, w: nat): (t: seq<MapTile>)
    requires forall i :: 0 <= i < |lines| ==> |lines[i]| <= w
    ensures |t| == |PaddedRows(lines, w)|
    ensures forall i :: 0 <= i < |t| ==> t[i] == TileOf(PaddedRows(lines, w)[i])
  {
    var p := PaddedRows(lines, w);
    seq(|p|, i requires 0 <= i < |p| => TileOf(p[i]))
  }

  lemma TileRowsCells(lines: seq<string>, w: nat)
    requires w > 0 && forall i :: 0 <= i < |lines| ==> |lines[i]| <= w
    ensures |TileRows(lines, w)| == |lines| * w && Height(w, TileRows(lines, w)) == |lines|
    ensures NoneVisited(TileRows(lines, w))
    ensures forall y: nat, x: nat :: y < |lines| && x < w ==>
      TileAt(w, TileRows(lines, w), (x, y)) == Some(TileOf(Padded(lines, x, y)))
  {
    var t := TileRows(lines, w);
    CellIndexIs(w, 0, |lines|);
    RowsOfProduct(w, |lines|);
    forall y: nat, x: nat | y < |lines| && x < w
      ensures TileAt(w, t, (x, y)) == Some(TileOf(Padded(lines, x, y)))
    {
      PaddedRowsCell(lines, w, x, y);
    }
  }

  /** What `parse_map` (lines 99-116) returns: the guard and the map whose
      rows are the lines padded to the longest, `#` an obstacle and
      everything else free. No lines, or no guard, make the source's
      `unwrap` panic: None. */
  function ParsedMap(s: string): (r: Option<Parsed>)
    ensures r.None? <==> |Lines(s)| == 0 || GuardIn(Lines(s)).None?
    ensures r.Some? ==> r.value.guard == GuardIn(Lines(s)).value && r.value.width == MaxLen(Lines(s)) > 0
    ensures r.Some? ==> |r.value.tiles| == |Lines(s)| * r.value.width && NoneVisited(r.value.tiles)
    ensures r.Some? ==> forall y: nat, x: nat :: y < |Lines(s)| && x < r.value.width ==>
      TileAt(r.value.width, r.value.tiles, (x, y)) == Some(TileOf(Padded(Lines(s), x, y)))
    ensures r.Some? ==> InMap(r.value.width, r.value.tiles, r.value.guard)
    ensures r.Some? ==> TileAt(r.value.width, r.value.tiles, r.value.guard) == Some(NotVisited)
  {
    var lines := Lines(s);
    if |lines| == 0 then None
    else
      match GuardIn(lines)
      case None => None
      case Some(g) =>
        var w := MaxLen(lines);
        var t := TileRows(lines, w);
        TileRowsCells(lines, w);
        var gx: nat, gy: nat := g.0, g.1;
        assert TileAt(w, t, (gx, gy)) == Some(TileOf(Padded(lines, gx, gy)));
        Some(Parsed(g, w, t))
  }

  /** The padding after a line is free floor: the cells of row `y` past the
      line's end, in the padded rows. */
  lemma {:induction false} PaddingAfter(lines: seq<string>, w: nat, y: nat, i: nat)
    requires forall k :: 0 <= k < |lines| ==> |lines[k]| <= w
    requires y < |lines| && CellIndex(w, 0, y) + |lines[y]| <= i < CellIndex(w, 0, y) + w
    ensures i < |PaddedRows(lines, w)| && PaddedRows(lines, w)[i] == ' '
  {
    var x: nat := i - CellIndex(w, 0, y);
    PaddedRowsCell(lines, w, x, y);
    CellIndexRow(w, x, y);
  }

  /** A character of a line, in the padded rows. */
  lemma {:induction false} LineCell(lines: seq<string>, w: nat, y: nat, x: nat)
    requires forall k :: 0 <= k < |lines| ==> |lines[k]| <= w
    requires y < |lines| && x < |lines[y]|
    ensures CellIndex(w, 0, y) + x < |PaddedRows(lines, w)|
    ensures PaddedRows(lines, w)[CellIndex(w, 0, y) + x] == lines[y][x]
  {
    PaddedRowsCell(lines, w, x, y);
    CellIndexRow(w, x, y);
  }

  /** The first `n` tiles are read, the rest still free. */
  ghost predicate ReadUpTo(m: seq<MapTile>, p: seq<char>, n: nat)
  {
    |m| == |p| && forall i :: 0 <= i < |m| ==> m[i] == if i < n then TileOf(p[i]) else NotVisited
  }

  lemma {:induction false} ParsedMapIs(s: string, lines: seq<string>)
    requires lines == Lines(s) && |lines| > 0
    ensures ParsedMap(s) == if GuardIn(lines).None? then None
      else Some(Parsed(GuardIn(lines).value, MaxLen(lines), TileRows(lines, MaxLen(lines))))
  {
  }

  /** `parse_map` (lines 99-116), filling a matrix of free tiles line by
      line. */
  method ParseMap(s: string) returns (r: Option<(Pos, Map)>)
    ensures r.None? <==> ParsedMap(s).None?
    ensures r.Some? ==> r.value.0 == ParsedMap(s).value.guard && fresh(r.value.1)
    ensures r.Some? ==> r.value.1.width == ParsedMap(s).value.width && r.value.1.matrix == ParsedMap(s).value.tiles
  {
    var lines := Lines(s);
    if |lines| == 0 {
      return None;
    }
    var width := MaxLen(lines);
    var height := |lines|;
    var matrix := new MapTile[CellIndex(width, 0, height)](_ => NotVisited);
    var guard: Option<Pos> := None;
    ghost var p := PaddedRows(lines, width);
    for y := 0 to height
      invariant ReadUpTo(matrix[..], p, CellIndex(width, 0, y))
      invariant guard == GuardIn(lines[..y])
    {
      guard := ReadRow(matrix, lines, width, y, guard);
      assert lines[..y + 1][..y] == lines[..y];
    }
    assert lines[..height] == lines;
    assert matrix[..] == TileRows(lines, width);
    ParsedMapIs(s, lines);
    match guard {
      case None =>
        return None;
      case Some(g) =>
        var m := new Map(width, matrix[..]);
        return Some((g, m));
    }
  }

  /** Lines 107-112 for row `y`: its obstacles go into the matrix and a
      `^` moves the guard. */
  method ReadRow(matrix: array<MapTile>, lines: seq<string>, width: nat, y: nat, guard: Option<Pos>) returns (g: Option<Pos>)
    requires y < |lines| && width == MaxLen(lines) && matrix.Length == CellIndex(width, 0, |lines|)
    requires ReadUpTo(matrix[..], PaddedRows(lines, width), CellIndex(width, 0, y))
    modifies matrix
    ensures ReadUpTo(matrix[..], PaddedRows(lines, width), CellIndex(width, 0, y + 1))
    ensures g == RowGuard(lines[y], y, guard)
  {
    ghost var p := PaddedRows(lines, width);
    var line := lines[y];
    g := guard;
    CellIndexRow(width, 0, y);
    for x := 0 to |line|
      invariant ReadUpTo(matrix[..], p, CellIndex(width, 0, y) + x)
      invariant g == RowGuard(line[..x], y, guard)
    {
      LineCell(lines, width, y, x);
      var idx := x + y * width;
      CellIndexIs(width, 0, y);
      match line[x] {
        case '#' => matrix[idx] := Obstacle;
        case '^' => g := Some((x, y));
        case _ =>
      }
      assert line[..x + 1][..x] == line[..x];
    }
    assert line[..|line|] == line;
    forall i | CellIndex(width, 0, y) + |line| <= i < CellIndex(width, 0, y) + width {
      PaddingAfter(lines, width, y, i);
    }
  }

  // ---------------------------------------------------------------------------
  // Answers

  /** The guard of the input leaves the map, as the puzzle promises; the
      source loops forever when the guard does not. */
  ghost predicate GuardLeaves(input: string)
  {
    match ParsedMap(input)
    case None => true
    case Some(p) => Escapes(p.width, p.tiles, State(p.guard, North))
  }

  /** `day06part1` (lines 118-137): the number of cells the guard stands
      on, starting north-bound. */
  method Part1(input: string) returns (r: Option<nat>)
    requires GuardLeaves(input)
    ensures r.None? <==> ParsedMap(input).None?
    ensures r.Some? ==> var p := ParsedMap(input).value;
      r.value == |Patrolled(p.width, p.tiles, State(p.guard, North))|
  {
    var parsed := ParseMap(input);
    match parsed {
      case None =>
        return None;
      case Some((g, m)) =>
        var n := Patrol(m, State(g, North));
        return Some(n);
    }
  }

  /** `day06part2` (lines 139-167): the number of cells where one new
      obstacle traps the guard. */
  method Part2(input: string) returns (r: Option<nat>)
    requires GuardLeaves(input)
    ensures r.None? <==> ParsedMap(input).None?
    ensures r.Some? ==> var p := ParsedMap(input).value;
      r.value == |Loops(p.width, p.tiles, State(p.guard, North))|
  {
    var parsed := ParseMap(input);
    match parsed {
      case None =>
        return None;
      case Some((g, m)) =>
        var n := Obstructions(m, State(g, North));
        return Some(n);
    }
  }
}
