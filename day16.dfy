/** Day 16: reindeer maze. A reindeer starts on the Start tile facing east;
    a step forward costs 1, a quarter turn followed by a step costs 1001.
    A best-first search from the start collects the paths that reach the
    End tile; part 1 is the score of the last one found, part 2 the number
    of cells on the paths found. */
module Day16 {
  import opened Common
  import opened Grid

  /** `Tile` (lines 224-230). */
  datatype Tile = Start | Path | Wall | End

  /** `FromStr for Tile` (lines 232-244). */
  function ParseTile(c: char): (r: Option<Tile>)
    ensures r.Some? <==> c == 'S' || c == '.' || c == '#' || c == 'E'
    ensures r == Some(Start) <==> c == 'S'
    ensures r == Some(End) <==> c == 'E'
    ensures r == Some(Wall) <==> c == '#'
  {
    match c
    case 'S' => Some(Start)
    case '.' => Some(Path)
    case '#' => Some(Wall)
    case 'E' => Some(End)
    case _ => None
  }

  /** A cell the search may enter: on the map and not a wall (lines 89, 101,
      112). */
  predicate Open(w: nat, t: seq<Tile>, p: Pos)
    requires w > 0
  {
    At(w, t, p).Some? && At(w, t, p).value != Wall
  }

  // ---------------------------------------------------------------------------
  // Paths and their cost

  function Last(path: seq<Pos>): Pos
    requires |path| > 0
  {
    path[|path| - 1]
  }

  /** The direction the reindeer faces at the end of a path: east at the
      start, then the direction of the last step. */
  function Heading(path: seq<Pos>): Direction
  {
    if |path| <= 1 then East
    else match Delta(path[|path| - 2], path[|path| - 1])
      case Some(d) => d
      case None => East
  }

  /** The steps the search takes (lines 88-117): each one a step ahead, or a
      quarter turn to either side and a step. */
  ghost predicate Route(path: seq<Pos>)
    decreases |path|
  {
    |path| > 0 &&
    (|path| == 1 ||
      var front := path[..|path| - 1];
      var h := Heading(front);
      && Route(front)
      && Delta(path[|path| - 2], path[|path| - 1]).Some?
      && Turnable(h, Delta(path[|path| - 2], path[|path| - 1]).value))
  }

  /** The ways the reindeer may step when facing `h`: ahead or after a
      quarter turn, never back. */
  predicate Turnable(h: Direction, d: Direction)
  {
    d == h || d == TurnLeft(h) || d == TurnRight(h)
  }

  /** The score of a path (lines 93-116): 1 per step ahead, 1001 per turn
      and step. */
  function Cost(path: seq<Pos>): nat
  {
    if |path| <= 1 then 0
    else
      var front := path[..|path| - 1];
      Cost(front) + if Delta(path[|path| - 2], path[|path| - 1]) == Some(Heading(front)) then 1 else 1001
  }

  /** The number of steps of a path that follow a turn. */
  function TurnCount(path: seq<Pos>): nat
  {
    if |path| <= 1 then 0
    else
      var front := path[..|path| - 1];
      TurnCount(front) + if Delta(path[|path| - 2], path[|path| - 1]) == Some(Heading(front)) then 0 else 1
  }

  /** A path's score is its number of steps plus a thousand per turn. */
  lemma {:induction false} CostIsStepsAndTurns(path: seq<Pos>)
    requires |path| > 0
    ensures Cost(path) == |path| - 1 + 1000 * TurnCount(path)
    decreases |path|
  {
    if |path| > 1 {
      CostIsStepsAndTurns(path[..|path| - 1]);
    }
  }

  /** Consecutive cells of a route are neighbours. */
  lemma {:induction false} RouteAdjacent(path: seq<Pos>, i: nat)
    requires Route(path) && 0 < i < |path|
    ensures Delta(path[i - 1], path[i]).Some?
    decreases |path|
  {
    if i < |path| - 1 {
      var front := path[..|path| - 1];
      RouteAdjacent(front, i);
      assert front[i - 1] == path[i - 1] && front[i] == path[i];
    }
  }

  /** Extending a route by a step ahead or a turn and step gives a route
      facing the new way, dearer by 1 or 1001. */
  lemma {:induction false} RouteExtend(path: seq<Pos>, d: Direction)
    requires Route(path) && Turnable(Heading(path), d)
    ensures var next := path + [Step(Last(path), d)];
      && Route(next) && Heading(next) == d
      && Cost(next) == Cost(path) + if d == Heading(path) then 1 else 1001
  {
    var next := path + [Step(Last(path), d)];
    assert next[..|next| - 1] == path;
    DeltaStep(Last(path), d);
  }

  // ---------------------------------------------------------------------------
  // The search (`get_best_paths`, lines 50-121)

  /** The estimate of lines 54-59. As written, `y_dist` is computed from the
      x coordinates like `x_dist`, so the estimate never looks at rows. */
  function Distance(end: Pos, p: Pos): int
  {
    var xDist := Abs(p.0 - end.0);
    var yDist := Abs(p.0 - end.0);
    var turnPenalty := if xDist != 0 && yDist != 0 then 1000 else 0;
    xDist + yDist + turnPenalty
  }

  /** A queue entry (line 62): the priority, the negated score so far, the
      cells walked and the direction faced. */
  datatype Entry = Entry(priority: int, balance: int, path: seq<Pos>, dir: Direction)

  /** A path from the start that only enters open cells, moving as the
      reindeer does. */
  ghost predicate Walk(w: nat, t: seq<Tile>, start: Pos, path: seq<Pos>)
    requires w > 0
  {
    && |path| > 0 && path[0] == start && Route(path)
    && forall i :: 0 <= i < |path| ==> Open(w, t, path[i])
  }

  /** A walk from the start that ends on the End tile. */
  ghost predicate Arrives(w: nat, t: seq<Tile>, start: Pos, path: seq<Pos>)
    requires w > 0
  {
    Walk(w, t, start, path) && At(w, t, Last(path)) == Some(End)
  }

  /** What every queue entry holds: a walk from the start, the direction it
      ends facing, minus its score as balance and the priority the source
      gives it. */
  ghost predicate Sound(w: nat, t: seq<Tile>, start: Pos, end: Pos, e: Entry)
    requires w > 0
  {
    && Walk(w, t, start, e.path)
    && e.dir == Heading(e.path)
    && e.balance == -(Cost(e.path) as int)
    && e.priority == e.balance - Distance(end, Last(e.path))
  }

  /** `BinaryHeap::pop`: an entry of highest priority. The heap breaks ties
      by the rest of the tuple; here the first such entry is taken. */
  method Highest(queue: seq<Entry>) returns (i: nat)
    requires |queue| > 0
    ensures i < |queue|
    ensures forall j :: 0 <= j < |queue| ==> queue[j].priority <= queue[i].priority
  {
    i := 0;
    for k := 1 to |queue|
      invariant i < |queue|
      invariant forall j :: 0 <= j < k ==> queue[j].priority <= queue[i].priority
    {
      if queue[k].priority > queue[i].priority {
        i := k;
      }
    }
  }

  /** Line 69: take an entry of highest priority out of the queue. */
  method Pop(queue: seq<Entry>) returns (e: Entry, rest: seq<Entry>)
    requires |queue| > 0
    ensures forall x :: x in queue ==> x.priority <= e.priority
    ensures multiset(rest) + multiset{e} == multiset(queue)
  {
    var i := Highest(queue);
    e, rest := queue[i], queue[..i] + queue[i + 1..];
    assert queue == queue[..i] + [e] + queue[i + 1..];
  }

  /** The entry the search extends by a step in direction `d` at a price of
      `price`. */
  function Extend(end: Pos, e: Entry, d: Direction, price: int): Entry
    requires |e.path| > 0
  {
    var q := Step(Last(e.path), d);
    Entry(-Distance(end, q) + e.balance - price, e.balance - price, e.path + [q], d)
  }

  /** The search may take a step from `e` in direction `d` at a price of
      `price`: a turn costs 1001, a step ahead 1, and the cell stepped on
      is open. */
  predicate Move(w: nat, t: seq<Tile>, e: Entry, d: Direction, price: int)
    requires w > 0 && |e.path| > 0
  {
    && Turnable(e.dir, d)
    && price == (if d == e.dir then 1 else 1001)
    && Open(w, t, Step(Last(e.path), d))
  }

  /** Lines 88-117: the entries pushed after `e`, a turn right, a turn left
      and a step ahead, each only onto an open cell. */
  function Successors(w: nat, t: seq<Tile>, end: Pos, e: Entry): (r: seq<Entry>)
    requires w > 0 && |e.path| > 0
    ensures forall x :: x in r ==> exists d, price :: Move(w, t, e, d, price) && x == Extend(end, e, d, price)
  {
    var pos := Last(e.path);
    var right, left := TurnRight(e.dir), TurnLeft(e.dir);
    Turns(e.dir);
    assert Open(w, t, Step(pos, right)) ==> Move(w, t, e, right, 1001);
    assert Open(w, t, Step(pos, left)) ==> Move(w, t, e, left, 1001);
    assert Open(w, t, Step(pos, e.dir)) ==> Move(w, t, e, e.dir, 1);
    (if Open(w, t, Step(pos, right)) then [Extend(end, e, right, 1001)] else [])
    + (if Open(w, t, Step(pos, left)) then [Extend(end, e, left, 1001)] else [])
    + (if Open(w, t, Step(pos, e.dir)) then [Extend(end, e, e.dir, 1)] else [])
  }

  /** Extending a sound entry by a move of the search gives a sound entry:
      one more open cell, facing the way it stepped, its balance lower by
      the price. */
  lemma ExtendSound(w: nat, t: seq<Tile>, start: Pos, end: Pos, e: Entry, d: Direction, price: int)
    requires w > 0 && Sound(w, t, start, end, e) && Move(w, t, e, d, price)
    ensures Sound(w, t, start, end, Extend(end, e, d, price))
  {
    RouteExtend(e.path, d);
    var next := e.path + [Step(Last(e.path), d)];
    assert forall i :: 0 <= i < |e.path| ==> next[i] == e.path[i];
  }

  /** Every entry the search pushes after a sound one is sound. */
  lemma SuccessorsSound(w: nat, t: seq<Tile>, start: Pos, end: Pos, e: Entry)
    requires w > 0 && Sound(w, t, start, end, e)
    ensures forall x :: x in Successors(w, t, end, e) ==> Sound(w, t, start, end, x)
  {
    forall x | x in Successors(w, t, end, e)
      ensures Sound(w, t, start, end, x)
    {
      var d, price :| Move(w, t, e, d, price) && x == Extend(end, e, d, price);
      ExtendSound(w, t, start, end, e, d, price);
    }
  }

  /** The paths collected so far: each a walk to the End tile, each costing
      no more than the one before, the score that of the last. */
  ghost predicate Collected(w: nat, t: seq<Tile>, start: Pos, paths: seq<seq<Pos>>, score: Option<int>)
    requires w > 0
  {
    && (forall i :: 0 <= i < |paths| ==> Arrives(w, t, start, paths[i]))
    && NonIncreasing(Costs(paths))
    && (score.None? <==> paths == [])
    && (score.Some? ==> score.value == Cost(paths[|paths| - 1]))
  }

  /** The cost of each path. */
  function Costs(paths: seq<seq<Pos>>): (r: seq<int>)
    ensures |r| == |paths|
  {
    seq(|paths|, i requires 0 <= i < |paths| => Cost(paths[i]) as int)
  }

  predicate NonIncreasing(s: seq<int>)
  {
    forall i, j :: 0 <= i < j < |s| ==> s[j] <= s[i]
  }

  lemma AppendNonIncreasing(s: seq<int>, x: int)
    requires NonIncreasing(s) && (|s| > 0 ==> x <= s[|s| - 1])
    ensures NonIncreasing(s + [x])
  {
    forall i, j | 0 <= i < j < |s| + 1
      ensures (s + [x])[j] <= (s + [x])[i]
    {
      if j == |s| && i < |s| - 1 {
        assert s[|s| - 1] <= s[i];
      }
    }
  }

  /** Lines 80-86: a walk to the End that costs no more than the score so
      far joins the paths and sets the score. */
  lemma {:induction false} CollectPath(w: nat, t: seq<Tile>, start: Pos, paths: seq<seq<Pos>>, score: Option<int>, path: seq<Pos>)
    requires w > 0 && Collected(w, t, start, paths, score)
    requires Arrives(w, t, start, path)
    requires score.Some? ==> Cost(path) <= score.value
    ensures Collected(w, t, start, paths + [path], Some(Cost(path)))
  {
    ArrivesAppend(w, t, start, paths, path);
    CostsAppend(paths, path);
  }

  lemma ArrivesAppend(w: nat, t: seq<Tile>, start: Pos, paths: seq<seq<Pos>>, path: seq<Pos>)
    requires w > 0 && forall i :: 0 <= i < |paths| ==> Arrives(w, t, start, paths[i])
    requires Arrives(w, t, start, path)
    ensures forall i :: 0 <= i < |paths + [path]| ==> Arrives(w, t, start, (paths + [path])[i])
  {
    forall i | 0 <= i < |paths + [path]|
      ensures Arrives(w, t, start, (paths + [path])[i])
    {
      if i < |paths| {
        assert (paths + [path])[i] == paths[i];
      }
    }
  }

  lemma {:induction false} CostsAppend(paths: seq<seq<Pos>>, path: seq<Pos>)
    requires NonIncreasing(Costs(paths))
    requires paths != [] ==> Cost(path) <= Cost(paths[|paths| - 1])
    ensures NonIncreasing(Costs(paths + [path]))
  {
    var cs := Costs(paths);
    assert Costs(paths + [path]) == cs + [Cost(path) as int];
    if paths != [] {
      assert cs[|paths| - 1] == Cost(paths[|paths| - 1]);
    }
    AppendNonIncreasing(cs, Cost(path));
  }

  /** What the search returns: walks from the start to the End tile, each
      costing no more than the one found before it, and the score, which
      is the cost of the last path, hence the least, or -1 when there is
      none. */
  ghost predicate BestPaths(w: nat, t: seq<Tile>, start: Pos, score: int, paths: seq<seq<Pos>>)
    requires w > 0
  {
    && (forall i :: 0 <= i < |paths| ==> Arrives(w, t, start, paths[i]))
    && (forall i, j :: 0 <= i < j < |paths| ==> Cost(paths[j]) <= Cost(paths[i]))
    && (score == -1 <==> paths == [])
    && (paths != [] ==> score == Cost(paths[|paths| - 1]))
    && (forall i :: 0 <= i < |paths| ==> score <= Cost(paths[i]))
  }

  /** Line 120: the score returned is -1 without paths, and otherwise the
      cost of the last path, which no path undercuts. */
  lemma Scored(w: nat, t: seq<Tile>, start: Pos, paths: seq<seq<Pos>>, score: Option<int>)
    requires w > 0 && Collected(w, t, start, paths, score)
    ensures BestPaths(w, t, start, if score.Some? then score.value else -1, paths)
  {
    var cs := Costs(paths);
    forall i, j | 0 <= i < j < |paths|
      ensures Cost(paths[j]) <= Cost(paths[i])
    {
      assert cs[j] <= cs[i];
    }
    if paths != [] {
      forall i | 0 <= i < |paths| - 1
        ensures cs[|paths| - 1] <= cs[i]
      {
      }
    }
  }

  /** `get_best_paths` from `start`, heading for `end`, with at most `fuel`
      entries taken from the queue: nothing when the fuel runs out. Every
      path returned walks from the start through open cells to the End
      tile, each costs no more than the one found before it, and the score
      is the cost of the last, hence the least, or -1 when there is none. */
  method Search(w: nat, t: seq<Tile>, start: Pos, end: Pos, fuel: nat) returns (r: Option<(int, seq<seq<Pos>>)>)
    requires w > 0 && Open(w, t, start)
    ensures r.Some? ==> BestPaths(w, t, start, r.value.0, r.value.1)
  {
    var queue := [Entry(-Distance(end, start), 0, [start], East)];
    var minScore: map<(Pos, Direction), int> := map[];
    var paths: seq<seq<Pos>> := [];
    var score: Option<int> := None;
    var taken := 0;
    while queue != []
      invariant forall x :: x in queue ==> Sound(w, t, start, end, x)
      invariant Collected(w, t, start, paths, score)
      invariant taken <= fuel
      decreases fuel - taken
    {
      if taken == fuel {
        return None;
      }
      taken := taken + 1;
      var e;
      e, queue := Pop(queue);
      assert Sound(w, t, start, end, e) && forall x :: x in queue ==> Sound(w, t, start, end, x) by {
        assert e in multiset(queue) + multiset{e};
        forall x | x in queue
          ensures Sound(w, t, start, end, x)
        {
          assert x in multiset(queue) + multiset{e};
        }
      }
      var pos := Last(e.path);
      var least := if (pos, e.dir) in minScore then minScore[(pos, e.dir)] else -e.balance;
      if least < -e.balance {
        continue;
      }
      minScore := minScore[(pos, e.dir) := -e.balance];
      if score.Some? && -e.balance > score.value {
        break;
      }
      if At(w, t, pos) == Some(End) {
        CollectPath(w, t, start, paths, score, e.path);
        paths := paths + [e.path];
        score := Some(-e.balance);
        continue;
      }
      SuccessorsSound(w, t, start, end, e);
      queue := queue + Successors(w, t, end, e);
    }
    Scored(w, t, start, paths, score);
    r := Some((if score.Some? then score.value else -1, paths));
  }

  // ---------------------------------------------------------------------------
  // The puzzle (`day16`, lines 11-22)

  /** Every cell on one of the paths. */
  function Cells(paths: seq<seq<Pos>>): (r: set<Pos>)
  {
    if paths == [] then {} else Cells(paths[..|paths| - 1]) + Spots(paths[|paths| - 1])
  }

  /** The cells of one path. */
  function Spots(path: seq<Pos>): (r: set<Pos>)
    ensures forall c :: c in r <==> c in path
  {
    set i | 0 <= i < |path| :: path[i]
  }

  /** A cell is counted exactly when it lies on one of the paths. */
  lemma {:induction false} CellsOf(paths: seq<seq<Pos>>, c: Pos)
    ensures c in Cells(paths) <==> exists k, i :: 0 <= k < |paths| && 0 <= i < |paths[k]| && paths[k][i] == c
    decreases |paths|
  {
    if paths != [] {
      var front := paths[..|paths| - 1];
      CellsOf(front, c);
      if c in Cells(paths) && c !in Cells(front) {
        var i :| 0 <= i < |paths[|paths| - 1]| && paths[|paths| - 1][i] == c;
      }
      if exists k, i :: 0 <= k < |paths| && 0 <= i < |paths[k]| && paths[k][i] == c {
        var k, i :| 0 <= k < |paths| && 0 <= i < |paths[k]| && paths[k][i] == c;
        if k < |front| {
          assert front[k][i] == c;
        }
      }
    }
  }

  /** Lines 16-19: the best spots, gathered path by path. */
  method BestSpots(paths: seq<seq<Pos>>) returns (spots: set<Pos>)
    ensures spots == Cells(paths)
  {
    spots := {};
    for k := 0 to |paths|
      invariant spots == Cells(paths[..k])
    {
      assert paths[..k + 1][..k] == paths[..k];
      spots := spots + Spots(paths[k]);
    }
    assert paths[..|paths|] == paths;
  }

  /** `day16`: the score and the number of best spots. Nothing where the
      source panics (a map that does not parse, no Start or no End tile) or
      when the search runs out of fuel. */
  method Day16(input: string, fuel: nat) returns (r: Option<(int, nat)>, ghost paths: seq<seq<Pos>>)
    ensures var g := ParseGrid(input, ParseTile);
      (g.None? || FindFirst(g.value.0, g.value.1, Start).None? || FindFirst(g.value.0, g.value.1, End).None?)
        ==> r.None?
    ensures r.Some? ==> var (w, t) := ParseGrid(input, ParseTile).value; var start := FindFirst(w, t, Start).value;
      && w > 0
      && BestPaths(w, t, start, r.value.0, paths)
      && r.value.1 == |Cells(paths)|
  {
    paths := [];
    var g := ParseGrid(input, ParseTile);
    if g.None? {
      return None, paths;
    }
    var (w, t) := g.value;
    ParseGridCells(input, ParseTile, 0, 0);
    var start := FindFirst(w, t, Start);
    var end := FindFirst(w, t, End);
    if start.None? || end.None? {
      return None, paths;
    }
    var found := Search(w, t, start.value, end.value, fuel);
    if found.None? {
      return None, paths;
    }
    var (score, best) := found.value;
    var spots := BestSpots(best);
    return Some((score, |spots|)), best;
  }
}
