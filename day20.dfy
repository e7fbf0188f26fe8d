/** Day 20 (src/day20.rs): a race track is a single lane from `S` to `E`.
    `trace_map` walks it by always stepping onto the one unexplored
    neighbour, writing each cell's distance from the start into the map;
    `find_shortcuts` then tries, from every track cell, the eight cells two
    steps away, and a cheat onto a later track cell saves the difference of
    the distances minus the two steps the cheat takes. */
module Day20 {
  import opened Common
  import opened Grid

  /** `RaceTrackTile`. */
  datatype Tile = Start | End | Wall | Unexplored | Path(dist: int)

  /** `RaceTrackTile::from_str`: `S`, `.`, `#` and `E`; no character reads
      as a distance. */
  function ParseTile(c: char): (r: Option<Tile>)
    ensures r == Some(Start) <==> c == 'S'
    ensures r == Some(Unexplored) <==> c == '.'
    ensures r == Some(Wall) <==> c == '#'
    ensures r == Some(End) <==> c == 'E'
    ensures r.Some? ==> !r.value.Path?
  {
    match c
    case 'S' => Some(Start)
    case '.' => Some(Unexplored)
    case '#' => Some(Wall)
    case 'E' => Some(End)
    case _ => None
  }

  /** `Map<RaceTrackTile>`: the tiles in row-major order, which `trace_map`
      overwrites with distances. */
  class Map {
    var width: nat
    var matrix: seq<Tile>

    predicate Valid()
      reads this
    {
      width > 0
    }

    constructor (w: nat, t: seq<Tile>)
      requires w > 0
      ensures Valid() && width == w && matrix == t
    {
      width := w;
      matrix := t;
    }

    /** `Map::set`: inside the grid the old tile comes back and the new one
        takes its place (and, by `AtUpdate`, no other cell changes);
        outside it nothing comes back and nothing changes. */
    method Set(p: Pos, v: Tile) returns (prev: Option<Tile>)
      requires Valid()
      modifies this
      ensures Valid() && width == old(width) && |matrix| == |old(matrix)|
      ensures prev == At(width, old(matrix), p)
      ensures prev.Some? ==> matrix == old(matrix)[Index(width, old(matrix), p) := v]
      ensures prev.None? ==> matrix == old(matrix)
    {
      prev := At(width, matrix, p);
      if prev.Some? {
        matrix := matrix[Index(width, matrix, p) := v];
      }
    }
  }

  // ---------------------------------------------------------------------------
  // Tracing the track

  /** A cell `trace_map` may step onto: unexplored track or the end. */
  predicate Open(w: nat, t: seq<Tile>, q: Pos)
    requires w > 0
  {
    At(w, t, q) == Some(Unexplored) || At(w, t, q) == Some(End)
  }

  /** The only open neighbour of `p` that is not in `seen` is `next`. */
  predicate OnlyNext(w: nat, t: seq<Tile>, p: Pos, seen: seq<Pos>, next: Pos)
    requires w > 0
  {
    forall d :: Open(w, t, Step(p, d)) && Step(p, d) !in seen ==> Step(p, d) == next
  }

  /** `p` has no open neighbour at all. */
  predicate DeadEnd(w: nat, t: seq<Tile>, p: Pos)
    requires w > 0
  {
    forall d :: !Open(w, t, Step(p, d))
  }

  /** Cell `i + 1` of the track is a neighbour of cell `i`. */
  predicate Linked(track: seq<Pos>, i: nat)
    requires i + 1 < |track|
  {
    Delta(track[i], track[i + 1]).Some?
  }

  /** From `track[i]` the one open neighbour that is not on the track yet is
      `track[i + 1]`: the `assert!` on a second candidate holds. */
  predicate OnlyWay(w: nat, t: seq<Tile>, track: seq<Pos>, i: nat)
    requires w > 0 && i + 1 < |track|
  {
    OnlyNext(w, t, track[i], track[..i + 1], track[i + 1])
  }

  /** `track` is how `trace_map` walks the map `t` so far: it starts at the
      first Start in reading order, every later cell is unexplored (the last
      may be the End), no cell comes twice, and each is a neighbour of the
      one before and the only open new neighbour there is. */
  predicate Walked(w: nat, t: seq<Tile>, track: seq<Pos>)
    requires w > 0
  {
    && |track| > 0
    && FindFirst(w, t, Start) == Some(track[0])
    && (forall i :: 0 < i < |track| - 1 ==> At(w, t, track[i]) == Some(Unexplored))
    && (|track| > 1 ==> Open(w, t, track[|track| - 1]))
    && Distinct(track)
    && (forall i :: 0 <= i < |track| - 1 ==> Linked(track, i) && OnlyWay(w, t, track, i))
  }

  /** The whole track: walked, and ending on an End tile. */
  predicate Traced(w: nat, t: seq<Tile>, track: seq<Pos>)
    requires w > 0
  {
    Walked(w, t, track) && At(w, t, track[|track| - 1]) == Some(End)
  }

  /** `t` is `t0` with `track[i]` marked `Path(i)` for `0 < i < n`, and
      every other cell as it was. */
  ghost predicate Marked(w: nat, t0: seq<Tile>, t: seq<Tile>, track: seq<Pos>, n: nat)
    requires w > 0 && n <= |track|
  {
    && |t| == |t0|
    && (forall i :: 0 < i < n ==> At(w, t, track[i]) == Some(Path(i)))
    && (n > 0 ==> At(w, t, track[0]) == At(w, t0, track[0]))
    && (forall q :: q !in track[..n] ==> At(w, t, q) == At(w, t0, q))
  }

  /** A track is a path of distinct grid cells from the Start to an End,
      each a single step from the one before. */
  lemma TracedShape(w: nat, t: seq<Tile>, track: seq<Pos>)
    requires w > 0 && Traced(w, t, track)
    ensures |track| >= 2 && At(w, t, track[0]) == Some(Start)
    ensures forall i :: 0 <= i < |track| ==> InGrid(w, t, track[i])
    ensures forall i :: 0 <= i < |track| - 1 ==> Abs(track[i + 1].0 - track[i].0) + Abs(track[i + 1].1 - track[i].1) == 1
    ensures Distinct(track)
  {
    forall i | 0 <= i < |track| - 1
      ensures Abs(track[i + 1].0 - track[i].0) + Abs(track[i + 1].1 - track[i].1) == 1
    {
      assert Linked(track, i);
      assert Step(track[i], Delta(track[i], track[i + 1]).value) == track[i + 1];
    }
    forall i | 0 < i < |track|
      ensures InGrid(w, t, track[i])
    {
      assert At(w, t, track[i]).Some?;
    }
  }

  /** Along a track that `trace` follows as far as `track`, the next cell
      is the one open new neighbour of the last. */
  lemma TraceNext(w: nat, t: seq<Tile>, track: seq<Pos>, last: Pos, trace: seq<Pos>)
    requires w > 0 && Traced(w, t, trace)
    requires 0 < |track| <= |trace| && trace[..|track|] == track
    requires last == track[|track| - 1] && At(w, t, last) != Some(End)
    ensures |track| < |trace|
    ensures Open(w, t, trace[|track|]) && trace[|track|] !in track
    ensures Delta(last, trace[|track|]).Some?
    ensures OnlyNext(w, t, last, track, trace[|track|])
  {
    var k := |track| - 1;
    assert trace[k] == track[k];
    assert OnlyWay(w, t, trace, k) && Linked(trace, k);
    if k + 1 < |trace| - 1 {
      assert At(w, t, trace[k + 1]) == Some(Unexplored);
    }
    forall j | 0 <= j <= k
      ensures track[j] != trace[k + 1]
    {
      assert track[j] == trace[j];
    }
  }

  /** Two tracks of the same map agree on their common length. */
  lemma {:induction false} TracePrefix(w: nat, t: seq<Tile>, a: seq<Pos>, b: seq<Pos>, n: nat)
    requires w > 0 && Traced(w, t, a) && Traced(w, t, b)
    requires 0 < n <= |a| && n <= |b|
    ensures a[..n] == b[..n]
  {
    if n > 1 {
      TracePrefix(w, t, a, b, n - 1);
      var track := a[..n - 1];
      var last := a[n - 2];
      if n - 2 > 0 {
        assert At(w, t, last) == Some(Unexplored);
      }
      TraceNext(w, t, track, last, b);
      TraceNext(w, t, track, last, a);
      assert a[..n] == track + [a[n - 1]];
      assert b[..n] == b[..n - 1] + [b[n - 1]];
    }
  }

  /** A map has at most one track: the walk is forced at every step. */
  lemma TraceUnique(w: nat, t: seq<Tile>, a: seq<Pos>, b: seq<Pos>)
    requires w > 0 && Traced(w, t, a) && Traced(w, t, b)
    ensures a == b
  {
    if |a| <= |b| {
      TracePrefix(w, t, a, b, |a|);
      assert a == b[..|a|];
    } else {
      TracePrefix(w, t, a, b, |b|);
    }
  }

  /** While walking, a cell is open in the current map exactly when it was
      open in the original and is not on the track yet. */
  lemma OpenNow(w: nat, t0: seq<Tile>, t: seq<Tile>, track: seq<Pos>, q: Pos)
    requires w > 0 && Walked(w, t0, track) && Marked(w, t0, t, track, |track|)
    ensures Open(w, t, q) <==> Open(w, t0, q) && q !in track
  {
    assert track[..|track|] == track;
    if q in track {
      var i :| 0 <= i < |track| && track[i] == q;
      if i == 0 {
        assert At(w, t0, q) == Some(Start);
      }
    }
  }

  /** Marking the next cell with its distance extends the marking. */
  lemma MarkNext(w: nat, t0: seq<Tile>, t: seq<Tile>, track: seq<Pos>, pos: Pos)
    requires w > 0 && Marked(w, t0, t, track, |track|)
    requires |track| > 0 && InGrid(w, t, pos) && pos !in track
    ensures Marked(w, t0, t[Index(w, t, pos) := Path(|track|)], track + [pos], |track| + 1)
  {
    var t' := t[Index(w, t, pos) := Path(|track|)];
    var track' := track + [pos];
    assert track'[..|track|] == track;
    assert track'[..|track| + 1] == track';
    forall q
      ensures At(w, t', q) == if q == pos then Some(Path(|track|)) else At(w, t, q)
    {
      AtUpdate(w, t, pos, Path(|track|), q);
    }
  }

  /** At the first cell nothing is marked yet. */
  lemma MarkStart(w: nat, t0: seq<Tile>, t: seq<Tile>, pos: Pos)
    requires w > 0 && Marked(w, t0, t, [], 0)
    ensures Marked(w, t0, t, [pos], 1)
  {
    assert [pos][..1] == [pos];
  }

  /** Reaching the End leaves the track's marks as they are. */
  lemma MarkedOnEnd(w: nat, t0: seq<Tile>, t: seq<Tile>, track: seq<Pos>, pos: Pos)
    requires w > 0 && Marked(w, t0, t, track, |track|)
    ensures Marked(w, t0, t, track + [pos], |track|)
  {
    assert (track + [pos])[..|track|] == track;
  }

  /** The number of unexplored tiles: what bounds the walk. */
  function UnexploredCount(t: seq<Tile>): nat
  {
    if |t| == 0 then 0 else UnexploredCount(t[..|t| - 1]) + if t[|t| - 1] == Unexplored then 1 else 0
  }

  /** Overwriting an unexplored cell leaves one fewer. */
  lemma {:induction false} Explored(t: seq<Tile>, i: nat, v: Tile)
    requires i < |t| && t[i] == Unexplored && v != Unexplored
    ensures UnexploredCount(t[i := v]) == UnexploredCount(t) - 1
  {
    var n := |t| - 1;
    assert t[i := v][..n] == if i < n then t[..n][i := v] else t[..n];
    if i < n {
      Explored(t[..n], i, v);
    }
  }

  /** Everything `trace_map` needs to step on to `next`. */
  lemma Advance(w: nat, t0: seq<Tile>, t: seq<Tile>, track: seq<Pos>, last: Pos, next: Pos)
    requires w > 0 && Walked(w, t0, track) && Marked(w, t0, t, track, |track|)
    requires last == track[|track| - 1] && At(w, t0, last) != Some(End)
    requires Open(w, t, next) && Delta(last, next).Some?
    requires OnlyNext(w, t, last, [], next)
    requires forall trace :: Traced(w, t0, trace) ==> |track| <= |trace| && trace[..|track|] == track
    ensures Walked(w, t0, track + [next])
    ensures At(w, t, next) == At(w, t0, next)
    ensures forall trace :: Traced(w, t0, trace) ==> |track| < |trace| && trace[..|track| + 1] == track + [next]
  {
    WalkOn(w, t0, t, track, last, next);
    FollowOn(w, t0, t, track, last, next);
    OpenNow(w, t0, t, track, next);
  }

  /** The walk steps on to the one open neighbour `next` it found. */
  lemma WalkOn(w: nat, t0: seq<Tile>, t: seq<Tile>, track: seq<Pos>, last: Pos, next: Pos)
    requires w > 0 && Walked(w, t0, track) && Marked(w, t0, t, track, |track|)
    requires last == track[|track| - 1] && At(w, t0, last) != Some(End)
    requires Open(w, t, next) && Delta(last, next).Some?
    requires OnlyNext(w, t, last, [], next)
    ensures Walked(w, t0, track + [next])
  {
    var k := |track| - 1;
    var track' := track + [next];
    OpenNow(w, t0, t, track, next);
    assert track'[..k + 1] == track;
    forall d | Open(w, t0, Step(last, d)) && Step(last, d) !in track
      ensures Step(last, d) == next
    {
      OpenNow(w, t0, t, track, Step(last, d));
    }
    assert OnlyWay(w, t0, track', k) && Linked(track', k);
    forall i | 0 <= i < k
      ensures Linked(track', i) && OnlyWay(w, t0, track', i)
    {
      assert track'[..i + 1] == track[..i + 1];
      assert Linked(track, i) && OnlyWay(w, t0, track, i);
    }
  }

  /** Every track of the map goes on through `next`. */
  lemma FollowOn(w: nat, t0: seq<Tile>, t: seq<Tile>, track: seq<Pos>, last: Pos, next: Pos)
    requires w > 0 && Walked(w, t0, track) && Marked(w, t0, t, track, |track|)
    requires last == track[|track| - 1] && At(w, t0, last) != Some(End)
    requires Open(w, t, next) && Delta(last, next).Some?
    requires forall trace :: Traced(w, t0, trace) ==> |track| <= |trace| && trace[..|track|] == track
    ensures forall trace :: Traced(w, t0, trace) ==> |track| < |trace| && trace[..|track| + 1] == track + [next]
  {
    forall trace | Traced(w, t0, trace)
      ensures |track| < |trace| && trace[..|track| + 1] == track + [next]
    {
      TraceNext(w, t0, track, last, trace);
      OpenNow(w, t0, t, track, next);
      assert Step(last, Delta(last, next).value) == next;
      PrefixSnoc(trace, track, next);
    }
  }

  /** No open neighbour, or two different ones: no track goes on from
      here, so there is none at all. */
  lemma Stuck(w: nat, t0: seq<Tile>, t: seq<Tile>, track: seq<Pos>, last: Pos, a: Option<Pos>, b: Option<Pos>)
    requires w > 0 && Walked(w, t0, track) && Marked(w, t0, t, track, |track|)
    requires last == track[|track| - 1] && At(w, t0, last) != Some(End)
    requires forall trace :: Traced(w, t0, trace) ==> |track| <= |trace| && trace[..|track|] == track
    requires a.None? ==> DeadEnd(w, t, last)
    requires a.Some? ==> b.Some? && a != b
    requires a.Some? ==> Open(w, t, a.value) && Delta(last, a.value).Some?
    requires b.Some? ==> Open(w, t, b.value) && Delta(last, b.value).Some?
    ensures forall trace :: !Traced(w, t0, trace)
  {
    forall trace | Traced(w, t0, trace)
      ensures false
    {
      TraceNext(w, t0, track, last, trace);
      var next := trace[|track|];
      OpenNow(w, t0, t, track, next);
      assert Step(last, Delta(last, next).value) == next;
      if a.Some? {
        OpenNow(w, t0, t, track, a.value);
        OpenNow(w, t0, t, track, b.value);
      }
    }
  }

  /** What the scan of the four neighbours finds. */
  datatype Scan = Next(cell: Pos) | Blocked | Fork(first: Pos, second: Pos)

  /** The `for dir in DIRS` scan of `trace_map`: the one open neighbour of
      `pos`; `Fork` as soon as a second one trips the `assert!`, `Blocked`
      when there is none. */
  method Neighbour(m: Map, pos: Pos) returns (r: Scan)
    requires m.Valid()
    ensures r.Next? ==> Open(m.width, m.matrix, r.cell) && Delta(pos, r.cell).Some?
    ensures r.Next? ==> OnlyNext(m.width, m.matrix, pos, [], r.cell)
    ensures r.Blocked? ==> DeadEnd(m.width, m.matrix, pos)
    ensures r.Fork? ==> r.first != r.second
    ensures r.Fork? ==> Open(m.width, m.matrix, r.first) && Delta(pos, r.first).Some?
    ensures r.Fork? ==> Open(m.width, m.matrix, r.second) && Delta(pos, r.second).Some?
  {
    var w, t := m.width, m.matrix;
    var dirs := [North, South, East, West];
    var next: Option<Pos> := None;
    for k := 0 to 4
      invariant forall j :: 0 <= j < k && Open(w, t, Step(pos, dirs[j])) ==> next == Some(Step(pos, dirs[j]))
      invariant next.Some? ==> Open(w, t, next.value) && Delta(pos, next.value).Some? && Delta(pos, next.value).value in dirs[..k]
    {
      var candidate := Step(pos, dirs[k]);
      if Open(w, t, candidate) {
        DeltaStep(pos, dirs[k]);
        if next.Some? {
          return Fork(next.value, candidate);
        }
        next := Some(candidate);
      }
    }
    forall d | Open(w, t, Step(pos, d))
      ensures next == Some(Step(pos, d))
    {
      Compass(d);
      assert d == dirs[0] || d == dirs[1] || d == dirs[2] || d == dirs[3];
    }
    if next.None? {
      return Blocked;
    }
    return Next(next.value);
  }

  /** The `match` that opens each round of `trace_map`: the End stops the
      walk, the Start is passed over, and an unexplored cell is overwritten
      with its distance `dist`. */
  method Visit(m: Map, ghost t0: seq<Tile>, ghost track: seq<Pos>, pos: Pos, dist: int) returns (atEnd: bool)
    requires m.Valid() && dist == |track|
    requires Walked(m.width, t0, track + [pos])
    requires Marked(m.width, t0, m.matrix, track, |track|)
    requires At(m.width, m.matrix, pos) == At(m.width, t0, pos)
    modifies m
    ensures m.Valid() && m.width == old(m.width)
    ensures atEnd <==> At(m.width, t0, pos) == Some(End)
    ensures atEnd ==> m.matrix == old(m.matrix)
    ensures !atEnd ==> Marked(m.width, t0, m.matrix, track + [pos], |track| + 1)
    ensures !atEnd ==> UnexploredCount(m.matrix) + (if track == [] then 0 else 1) <= old(UnexploredCount(m.matrix))
  {
    var w := m.width;
    ghost var before := m.matrix;
    var tile: Option<Tile> := At(w, m.matrix, pos);
    match tile {
      case Some(End) =>
        return true;
      case Some(Start) =>
        MarkStart(w, t0, m.matrix, pos);
      case Some(Unexplored) =>
        var _ := m.Set(pos, Path(dist));
        MarkNext(w, t0, before, track, pos);
        Explored(before, Index(w, before, pos), Path(dist));
      case _ =>
        assert false;
    }
    return false;
  }

  /** What the scan of the neighbours of the track's last cell decides:
      the walk goes on to the one open cell, or there is no track at all. */
  lemma Onward(w: nat, t0: seq<Tile>, t: seq<Tile>, track: seq<Pos>, last: Pos, scan: Scan)
    requires w > 0 && Walked(w, t0, track) && Marked(w, t0, t, track, |track|)
    requires last == track[|track| - 1] && At(w, t0, last) != Some(End)
    requires forall trace :: Traced(w, t0, trace) ==> |track| <= |trace| && trace[..|track|] == track
    requires scan.Next? ==> Open(w, t, scan.cell) && Delta(last, scan.cell).Some?
    requires scan.Next? ==> OnlyNext(w, t, last, [], scan.cell)
    requires scan.Blocked? ==> DeadEnd(w, t, last)
    requires scan.Fork? ==> scan.first != scan.second
    requires scan.Fork? ==> Open(w, t, scan.first) && Delta(last, scan.first).Some?
    requires scan.Fork? ==> Open(w, t, scan.second) && Delta(last, scan.second).Some?
    ensures scan.Next? ==> Walked(w, t0, track + [scan.cell])
    ensures scan.Next? ==> At(w, t, scan.cell) == At(w, t0, scan.cell)
    ensures scan.Next? ==> forall trace :: Traced(w, t0, trace) ==> |track| < |trace| && trace[..|track| + 1] == track + [scan.cell]
    ensures !scan.Next? ==> forall trace :: !Traced(w, t0, trace)
  {
    match scan {
      case Next(cell) => Advance(w, t0, t, track, last, cell);
      case Blocked => Stuck(w, t0, t, track, last, None, None);
      case Fork(a, b) => Stuck(w, t0, t, track, last, Some(a), Some(b));
    }
  }

  /** `RaceTrack::trace_map`, walking `m` in place. The result is the
      map's track, with every cell between Start and End marked with its
      distance from the start; nothing comes back exactly where the source
      panics: no Start, or a step with no open neighbour or with two. */
  method TraceMap(m: Map) returns (r: Option<seq<Pos>>)
    requires m.Valid()
    modifies m
    ensures m.Valid() && m.width == old(m.width)
    ensures r.Some? ==> Traced(m.width, old(m.matrix), r.value)
    ensures r.Some? ==> Marked(m.width, old(m.matrix), m.matrix, r.value, |r.value| - 1)
    ensures r.None? ==> forall trace :: !Traced(m.width, old(m.matrix), trace)
  {
    var w, t0 := m.width, m.matrix;
    var start := FindFirst(w, m.matrix, Start);
    if start.None? {
      return None;
    }
    var track: seq<Pos> := [];
    var pos := start.value;
    var dist := 0;
    while true
      invariant m.Valid() && m.width == w
      invariant dist == |track|
      invariant Walked(w, t0, track + [pos])
      invariant Marked(w, t0, m.matrix, track, |track|)
      invariant At(w, m.matrix, pos) == At(w, t0, pos)
      invariant forall trace :: Traced(w, t0, trace) ==> |track| < |trace| && trace[..|track| + 1] == track + [pos]
      decreases UnexploredCount(m.matrix), if track == [] then 1 else 0
    {
      ghost var prior := track;
      var atEnd := Visit(m, t0, track, pos, dist);
      track := track + [pos];
      if atEnd {
        MarkedOnEnd(w, t0, m.matrix, prior, pos);
        return Some(track);
      }
      var next := Neighbour(m, pos);
      Onward(w, t0, m.matrix, track, pos, next);
      if !next.Next? {
        return None;
      }
      pos := next.cell;
      dist := dist + 1;
    }
  }

  // ---------------------------------------------------------------------------
  // Shortcuts

  /** `Shortcut`. */
  datatype Shortcut = Shortcut(saved: int, from: Pos, to: Pos)

  /** The eight `possible_destinations` of a cell, two steps away, in the
      order they are tried (`DestinationsAreSteps` spells out the steps). */
  function Destinations(p: Pos): (r: seq<Pos>)
    ensures |r| == 8
  {
    var (x, y) := p;
    [(x, y - 2), (x + 1, y - 1), (x + 2, y), (x + 1, y + 1),
     (x, y + 2), (x - 1, y + 1), (x - 2, y), (x - 1, y - 1)]
  }

  /** The destinations are `pos + North + North`, `pos + North + East`,
      `pos + East + East`, `pos + East + South`, `pos + South + South`,
      `pos + South + West`, `pos + West + West` and `pos + West + North`. */
  lemma DestinationsAreSteps(p: Pos)
    ensures Destinations(p) ==
      [ Step(Step(p, North), North), Step(Step(p, North), East)
      , Step(Step(p, East), East), Step(Step(p, East), South)
      , Step(Step(p, South), South), Step(Step(p, South), West)
      , Step(Step(p, West), West), Step(Step(p, West), North) ]
  {
  }

  /** The destinations are exactly the cells at Manhattan distance 2. */
  lemma DestinationsAtTwo(p: Pos, q: Pos)
    ensures q in Destinations(p) <==> Abs(q.0 - p.0) + Abs(q.1 - p.1) == 2
  {
    var dx, dy := q.0 - p.0, q.1 - p.1;
    assert q == (p.0 + dx, p.1 + dy);
  }

  /** The cheat from `from`, the `i`-th cell of the track, to `to`, where
      the last cell of the track is number `last`: onto a `Path(d2)` it
      saves `d2 - (i + 2)`, onto the End `last - (i + 2)`, and it is kept
      only when that is positive. */
  function Cheat(w: nat, t: seq<Tile>, last: int, i: int, from: Pos, to: Pos): (r: Option<Shortcut>)
    requires w > 0
    ensures r.Some? ==> r.value.saved > 0 && r.value.from == from && r.value.to == to
  {
    var tile: Option<Tile> := At(w, t, to);
    match tile
    case Some(Path(d2)) => if d2 - (i + 2) > 0 then Some(Shortcut(d2 - (i + 2), from, to)) else None
    case Some(End) => if last - (i + 2) > 0 then Some(Shortcut(last - (i + 2), from, to)) else None
    case _ => None
  }

  /** The cheats from track cell `i` to its eight destinations, in the
      order they are tried. */
  function CheatRow(w: nat, t: seq<Tile>, last: int, i: int, from: Pos): (r: seq<Option<Shortcut>>)
    requires w > 0
    ensures |r| == 8
  {
    var dests := Destinations(from);
    seq(8, j requires 0 <= j < 8 => Cheat(w, t, last, i, from, dests[j]))
  }

  /** The cheats from track cell `i`; the last cell is the End. */
  function TrackRow(w: nat, t: seq<Tile>, track: seq<Pos>, i: nat): (r: seq<Option<Shortcut>>)
    requires w > 0 && i < |track|
    ensures |r| == 8
  {
    CheatRow(w, t, |track| - 1, i, track[i])
  }

  /** The shortcut rows of every track cell. */
  function CheatRows(w: nat, t: seq<Tile>, track: seq<Pos>): (r: seq<seq<Shortcut>>)
    requires w > 0
    ensures |r| == |track|
  {
    seq(|track|, i requires 0 <= i < |track| => Somes(TrackRow(w, t, track, i)))
  }

  /** All shortcuts of the track, in the order `find_shortcuts` finds them. */
  function Shortcuts(w: nat, t: seq<Tile>, track: seq<Pos>): seq<Shortcut>
    requires w > 0
  {
    Flatten(CheatRows(w, t, track))
  }

  /** The eight destinations are eight different cells. */
  lemma DestinationsDistinct(p: Pos)
    ensures Distinct(Destinations(p))
  {
  }

  /** A track without repeated cells has no shortcut twice: the cheats of
      one cell go to different destinations, those of different cells leave
      from different cells. */
  lemma ShortcutsDistinct(w: nat, t: seq<Tile>, track: seq<Pos>)
    requires w > 0 && Distinct(track)
    ensures Distinct(Shortcuts(w, t, track))
  {
    var rows := CheatRows(w, t, track);
    forall i | 0 <= i < |rows|
      ensures Distinct(rows[i])
    {
      var row := TrackRow(w, t, track, i);
      DestinationsDistinct(track[i]);
      forall j, k | 0 <= j < k < 8 && row[j].Some? && row[k].Some?
        ensures row[j] != row[k]
      {
        assert row[j].value.to == Destinations(track[i])[j];
      }
      SomesDistinct(row);
    }
    forall i, j | 0 <= i < j < |rows|
      ensures Apart(rows[i], rows[j])
    {
      forall s | s in rows[i]
        ensures s !in rows[j]
      {
        SomesHas(TrackRow(w, t, track, i), s);
        SomesHas(TrackRow(w, t, track, j), s);
      }
    }
    FlattenDistinct(rows);
  }

  /** A shortcut is found exactly when it is the cheat from some track cell
      to one of its destinations. */
  lemma ShortcutsHas(w: nat, t: seq<Tile>, track: seq<Pos>, s: Shortcut)
    requires w > 0
    ensures s in Shortcuts(w, t, track) <==>
      exists i, j :: 0 <= i < |track| && 0 <= j < 8 && TrackRow(w, t, track, i)[j] == Some(s)
  {
    var rows := CheatRows(w, t, track);
    FlattenHas(rows, s);
    forall i | 0 <= i < |track|
      ensures s in rows[i] <==> exists j :: 0 <= j < 8 && TrackRow(w, t, track, i)[j] == Some(s)
    {
      SomesHas(TrackRow(w, t, track, i), s);
    }
  }

  /** `RaceTrack::find_shortcuts`. */
  method FindShortcuts(m: Map, track: seq<Pos>) returns (s: seq<Shortcut>)
    requires m.Valid()
    ensures s == Shortcuts(m.width, m.matrix, track)
  {
    var w, t := m.width, m.matrix;
    ghost var rows := CheatRows(w, t, track);
    s := [];
    for i := 0 to |track|
      invariant s == Flatten(rows[..i])
    {
      var found := CheatsFrom(w, t, |track| - 1, i, track[i]);
      FlattenPrefix(rows, i);
      s := s + found;
    }
    assert rows[..|track|] == rows;
  }

  /** The inner loop of `find_shortcuts`: the cheats from one track cell,
      tried towards each destination in turn. */
  method CheatsFrom(w: nat, t: seq<Tile>, last: int, i: int, pos: Pos) returns (s: seq<Shortcut>)
    requires w > 0
    ensures s == Somes(CheatRow(w, t, last, i, pos))
  {
    var dests := Destinations(pos);
    ghost var row := CheatRow(w, t, last, i, pos);
    s := [];
    for k := 0 to 8
      invariant s == Somes(row[..k])
    {
      SomesPrefix(row, k);
      match Cheat(w, t, last, i, pos, dests[k]) {
        case Some(shortcut) => s := s + [shortcut];
        case None =>
      }
    }
    assert row[..8] == row;
  }

  /** No tile of the map is a distance: true of every parsed map. */
  ghost predicate Unmarked(w: nat, t: seq<Tile>)
    requires w > 0
  {
    forall q :: At(w, t, q).Some? ==> !At(w, t, q).value.Path?
  }

  /** What a cheat from track cell `i` means on the traced map: it saves
      something, and either lands on track cell `j` between Start and End,
      saving `j - i - 2`, or on an End tile, saving `|track| - 1 - i - 2`. */
  predicate Saves(w: nat, t0: seq<Tile>, track: seq<Pos>, i: int, s: Shortcut)
    requires w > 0
  {
    && s.saved > 0
    && ((exists j :: 0 < j < |track| - 1 && s.to == track[j] && s.saved == j - i - 2)
        || (At(w, t0, s.to) == Some(End) && s.saved == |track| - 1 - i - 2))
  }

  /** A shortcut of the traced map: it leaves a track cell, lands two steps
      away, and saves what `Saves` says. */
  predicate OnTrack(w: nat, t0: seq<Tile>, track: seq<Pos>, s: Shortcut)
    requires w > 0
  {
    && Abs(s.to.0 - s.from.0) + Abs(s.to.1 - s.from.1) == 2
    && exists i :: 0 <= i < |track| && s.from == track[i] && Saves(w, t0, track, i, s)
  }

  /** On the marked map a distance `d` sits exactly on track cell `d`, and
      the End tiles are those of the original map. */
  lemma MarkedTiles(w: nat, t0: seq<Tile>, t: seq<Tile>, track: seq<Pos>, q: Pos)
    requires w > 0 && Traced(w, t0, track) && Unmarked(w, t0)
    requires Marked(w, t0, t, track, |track| - 1)
    ensures forall d :: At(w, t, q) == Some(Path(d)) <==> 0 < d < |track| - 1 && q == track[d]
    ensures At(w, t, q) == Some(End) <==> At(w, t0, q) == Some(End)
  {
    TracedShape(w, t0, track);
    var n := |track| - 1;
    if q in track[..n] {
      var i :| 0 <= i < n && track[..n][i] == q;
      if i == 0 {
        assert At(w, t0, q) == Some(Start);
      } else {
        assert At(w, t0, q) == Some(Unexplored);
      }
      forall d | 0 < d < n && q == track[d]
        ensures d == i
      {
      }
    } else {
      forall d | 0 < d < n
        ensures q != track[d]
      {
        assert track[d] == track[..n][d];
      }
    }
  }

  /** What the marked map tells `find_shortcuts`: distance `i` sits on
      track cell `i` between Start and End and nowhere else, and the End
      tiles are those of the original map `t0`. */
  ghost predicate Signposted(w: nat, t0: seq<Tile>, t: seq<Tile>, track: seq<Pos>)
    requires w > 0
  {
    && (forall i :: 0 < i < |track| - 1 ==> At(w, t, track[i]) == Some(Path(i)))
    && (forall q :: At(w, t, q).Some? && At(w, t, q).value.Path? ==>
          0 < At(w, t, q).value.dist < |track| - 1 && track[At(w, t, q).value.dist] == q)
    && (forall q :: At(w, t, q) == Some(End) <==> At(w, t0, q) == Some(End))
  }

  /** `trace_map` leaves a parsed map signposted. */
  lemma Signposts(w: nat, t0: seq<Tile>, t: seq<Tile>, track: seq<Pos>)
    requires w > 0 && Traced(w, t0, track) && Unmarked(w, t0)
    requires Marked(w, t0, t, track, |track| - 1)
    ensures Signposted(w, t0, t, track)
  {
    forall q
      ensures At(w, t, q).Some? && At(w, t, q).value.Path? ==>
          0 < At(w, t, q).value.dist < |track| - 1 && track[At(w, t, q).value.dist] == q
      ensures At(w, t, q) == Some(End) <==> At(w, t0, q) == Some(End)
    {
      MarkedTiles(w, t0, t, track, q);
    }
  }

  /** On a signposted map the cheat from track cell `i` is kept exactly
      when it saves what `Saves` says. */
  lemma CheatMeans(w: nat, t0: seq<Tile>, t: seq<Tile>, track: seq<Pos>, i: nat, s: Shortcut)
    requires w > 0 && Signposted(w, t0, t, track) && i < |track|
    ensures Cheat(w, t, |track| - 1, i, track[i], s.to) == Some(s) <==> s.from == track[i] && Saves(w, t0, track, i, s)
  {
    var tile: Option<Tile> := At(w, t, s.to);
    if s.from == track[i] && Saves(w, t0, track, i, s) && At(w, t0, s.to) != Some(End) {
      var j :| 0 < j < |track| - 1 && s.to == track[j] && s.saved == j - i - 2;
      assert tile == Some(Path(j));
    }
  }

  /** Every cheat kept on the signposted map cuts from a track cell two
      steps onto a later part of the track. */
  lemma CheatSound(w: nat, t0: seq<Tile>, t: seq<Tile>, track: seq<Pos>, i: nat, k: nat, s: Shortcut)
    requires w > 0 && Signposted(w, t0, t, track)
    requires i < |track| && k < 8
    requires Cheat(w, t, |track| - 1, i, track[i], Destinations(track[i])[k]) == Some(s)
    ensures OnTrack(w, t0, track, s)
  {
    DestinationsAtTwo(track[i], s.to);
    CheatMeans(w, t0, t, track, i, s);
    assert s.from == track[i] && Saves(w, t0, track, i, s);
  }

  /** Every such cut is found. */
  lemma ShortcutFound(w: nat, t0: seq<Tile>, t: seq<Tile>, track: seq<Pos>, s: Shortcut)
    requires w > 0 && Signposted(w, t0, t, track)
    requires OnTrack(w, t0, track, s)
    ensures s in Shortcuts(w, t, track)
  {
    var i :| 0 <= i < |track| && s.from == track[i] && Saves(w, t0, track, i, s);
    DestinationsAtTwo(track[i], s.to);
    var k :| 0 <= k < 8 && Destinations(track[i])[k] == s.to;
    CheatMeans(w, t0, t, track, i, s);
    assert TrackRow(w, t, track, i)[k] == Some(s);
    ShortcutsHas(w, t, track, s);
  }

  /** `find_shortcuts` on the signposted map finds exactly the shortcuts
      that cut from a track cell two steps onto a later part of the track. */
  lemma ShortcutsOnTrack(w: nat, t0: seq<Tile>, t: seq<Tile>, track: seq<Pos>, s: Shortcut)
    requires w > 0 && Signposted(w, t0, t, track)
    ensures s in Shortcuts(w, t, track) <==> OnTrack(w, t0, track, s)
  {
    if s in Shortcuts(w, t, track) {
      ShortcutsHas(w, t, track, s);
      var i, k :| 0 <= i < |track| && 0 <= k < 8 && TrackRow(w, t, track, i)[k] == Some(s);
      CheatSound(w, t0, t, track, i, k, s);
    }
    if OnTrack(w, t0, track, s) {
      ShortcutFound(w, t0, t, track, s);
    }
  }

  /** A parsed map holds no distances. */
  lemma ParsedUnmarked(input: string)
    requires ParseGrid(input, ParseTile).Some?
    ensures var (w, t) := ParseGrid(input, ParseTile).value; w > 0 && Unmarked(w, t)
  {
    var (w, t) := ParseGrid(input, ParseTile).value;
    ParseGridCells(input, ParseTile, 0, 0);
    forall q | At(w, t, q).Some?
      ensures !At(w, t, q).value.Path?
    {
      ParseGridCells(input, ParseTile, q.0, q.1);
    }
  }

  /** The number of shortcuts that save at least `min`. */
  function SavingAtLeast(s: seq<Shortcut>, min: int): (n: nat)
    ensures n <= |s|
    ensures n == 0 <==> forall x :: x in s ==> x.saved < min
    ensures n == |s| <==> forall x :: x in s ==> x.saved >= min
  {
    if s == [] then 0
    else SavingAtLeast(s[..|s| - 1], min) + if s[|s| - 1].saved >= min then 1 else 0
  }

  /** Over shortcuts without repetition the count is the number of
      different shortcuts that save at least `min`. */
  lemma {:induction false} SavingAtLeastCard(s: seq<Shortcut>, min: int)
    requires Distinct(s)
    ensures SavingAtLeast(s, min) == |set x | x in s && x.saved >= min|
  {
    if s != [] {
      var init, last := s[..|s| - 1], s[|s| - 1];
      DistinctInit(s);
      SavingAtLeastCard(init, min);
      assert s == init + [last];
      AtLeastSnoc(init, last, min);
    }
  }

  /** Dropping the last of distinct shortcuts keeps them distinct, and the
      last is not among the others. */
  lemma DistinctInit(s: seq<Shortcut>)
    requires Distinct(s) && s != []
    ensures Distinct(s[..|s| - 1]) && s[|s| - 1] !in s[..|s| - 1]
  {
    var init, last := s[..|s| - 1], s[|s| - 1];
    forall i, j | 0 <= i < j < |init|
      ensures init[i] != init[j]
    {
      assert init[i] == s[i] && init[j] == s[j];
    }
    forall i | 0 <= i < |init|
      ensures init[i] != last
    {
      assert init[i] == s[i];
    }
  }

  /** The shortcuts saving at least `min` after one more is listed. */
  lemma AtLeastSnoc(init: seq<Shortcut>, last: Shortcut, min: int)
    ensures (set x | x in init + [last] && x.saved >= min)
         == (set x | x in init && x.saved >= min) + (if last.saved >= min then {last} else {})
  {
  }

  /** `day20part1`: the shortcuts of the input's track that save at least
      100. Nothing when the input is no map (`parse().unwrap()`) or the map
      has no track (a panic in `trace_map`). */
  method Part1(input: string) returns (r: Option<nat>, ghost track: seq<Pos>, ghost shortcuts: seq<Shortcut>)
    ensures ParseGrid(input, ParseTile).None? ==> r.None?
    ensures ParseGrid(input, ParseTile).Some? ==>
      var (w, t) := ParseGrid(input, ParseTile).value;
      && w > 0
      && (r.Some? <==> exists trace :: Traced(w, t, trace))
      && (r.Some? ==> Traced(w, t, track) && (forall s :: s in shortcuts <==> OnTrack(w, t, track, s)))
      && (r.Some? ==> r.value == SavingAtLeast(shortcuts, 100))
      && (r.Some? ==> Distinct(shortcuts) && r.value == |set s | s in shortcuts && s.saved >= 100|)
  {
    track, shortcuts := [], [];
    var parsed := ParseGrid(input, ParseTile);
    if parsed.None? {
      return None, track, shortcuts;
    }
    var (w, t) := parsed.value;
    ParsedUnmarked(input);
    var m := new Map(w, t);
    var traced := TraceMap(m);
    if traced.None? {
      return None, track, shortcuts;
    }
    var found := FindShortcuts(m, traced.value);
    Signposts(w, t, m.matrix, traced.value);
    forall s
      ensures s in found <==> OnTrack(w, t, traced.value, s)
    {
      ShortcutsOnTrack(w, t, m.matrix, traced.value, s);
    }
    TracedShape(w, t, traced.value);
    ShortcutsDistinct(w, m.matrix, traced.value);
    SavingAtLeastCard(found, 100);
    track, shortcuts := traced.value, found;
    r := Some(SavingAtLeast(found, 100));
  }
}
