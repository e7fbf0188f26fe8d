/** Day 8: resonant collinearity. Antennas of one frequency sit on a grid;
    part 1 counts the cells that are the reflection of one antenna through
    another of the same frequency, part 2 the cells on the lines through
    any two of them, both within the bounds of the map. */
module Day08 {
  import opened Common

  /** Grid coordinates: x to the right, y downwards. */
  datatype Point = Point(x: int, y: int)

  /** Width and height of the map. */
  datatype Size = Size(w: int, h: int)

  datatype Vec2 = Vec2(dx: int, dy: int)

  // ---------------------------------------------------------------------------
  // Componentwise arithmetic (lines 39-72)

  function AddVec(u: Vec2, v: Vec2): Vec2
  {
    Vec2(u.dx + v.dx, u.dy + v.dy)
  }

  function SubVec(u: Vec2, v: Vec2): Vec2
  {
    Vec2(u.dx - v.dx, u.dy - v.dy)
  }

  /** `Point + Vec2`. */
  function Plus(p: Point, v: Vec2): Point
  {
    Point(p.x + v.dx, p.y + v.dy)
  }

  /** `Point - Vec2` undoes `Point + Vec2`. */
  function Minus(p: Point, v: Vec2): (r: Point)
    ensures Plus(r, v) == p
  {
    Point(p.x - v.dx, p.y - v.dy)
  }

  /** `Point - Point` is the vector that leads from `q` to `p`. */
  function Diff(p: Point, q: Point): (r: Vec2)
    ensures Plus(q, r) == p
  {
    Vec2(p.x - q.x, p.y - q.y)
  }

  /** The vector pointing the other way. */
  function Neg(v: Vec2): (r: Vec2)
    ensures forall p :: Minus(p, v) == Plus(p, r)
  {
    Vec2(-v.dx, -v.dy)
  }

  /** Vector sums chain, and subtraction undoes addition. */
  lemma VecAlgebra(a: Point, b: Point, c: Point, u: Vec2, v: Vec2)
    ensures AddVec(Diff(b, a), Diff(c, b)) == Diff(c, a)
    ensures SubVec(AddVec(u, v), v) == u
    ensures Plus(Plus(a, u), v) == Plus(a, AddVec(u, v))
  {
  }

  /** `a - (b - a)`: the reflection of `b` through `a`. It lies on the line
      through both, as far from `a` as `b` is on the other side, so twice as
      far from `b` as from `a`. */
  function Reflect(a: Point, b: Point): (r: Point)
    ensures r == Point(2 * a.x - b.x, 2 * a.y - b.y)
    ensures Diff(r, a) == Diff(a, b)
    ensures Diff(b, r) == AddVec(Diff(b, a), Diff(b, a))
  {
    Minus(a, Diff(b, a))
  }

  /** `in_bounds` (lines 74-78): both coordinates inside the half-open
      ranges `0..w` and `0..h`. */
  predicate InBounds(p: Point, size: Size)
  {
    0 <= p.x < size.w && 0 <= p.y < size.h
  }

  // ---------------------------------------------------------------------------
  // Parsing (lines 80-105)

  /** Every character other than '.' and whitespace is an antenna, its
      frequency the character itself. */
  predicate IsAntenna(c: char)
  {
    c != '.' && !IsWhitespace(c)
  }

  /** The antennas of frequency `c` among the first `n` characters of row
      `y`, left to right. */
  function RowTowers(line: string, y: int, c: char, n: nat): (r: seq<Point>)
    requires n <= |line|
    ensures forall i :: 0 <= i < |r| ==> r[i].y == y && 0 <= r[i].x < n
  {
    if n == 0 then []
    else RowTowers(line, y, c, n - 1) + (if line[n - 1] == c then [Point(n - 1, y)] else [])
  }

  /** The antennas of frequency `c` in the first `n` rows, in reading order. */
  function Towers(lines: seq<string>, c: char, n: nat): (r: seq<Point>)
    requires n <= |lines|
    ensures forall i :: 0 <= i < |r| ==> 0 <= r[i].y < n
  {
    if n == 0 then []
    else Towers(lines, c, n - 1) + RowTowers(lines[n - 1], n - 1, c, |lines[n - 1]|)
  }

  /** A tower of frequency `c` is exactly a cell of the text holding `c`. */
  lemma {:induction false} RowTowersAre(line: string, y: int, c: char, n: nat, p: Point)
    requires n <= |line|
    ensures p in RowTowers(line, y, c, n) <==> p.y == y && 0 <= p.x < n && line[p.x] == c
  {
    if n > 0 {
      RowTowersAre(line, y, c, n - 1, p);
    }
  }

  lemma {:induction false} TowersAre(lines: seq<string>, c: char, n: nat, p: Point)
    requires n <= |lines|
    ensures p in Towers(lines, c, n) <==>
      0 <= p.y < n && 0 <= p.x < |lines[p.y]| && lines[p.y][p.x] == c
  {
    if n > 0 {
      TowersAre(lines, c, n - 1, p);
      RowTowersAre(lines[n - 1], n - 1, c, |lines[n - 1]|, p);
    }
  }

  /** Reading order: row by row, left to right within a row. */
  predicate ReadingOrder(s: seq<Point>)
  {
    forall i, j :: 0 <= i < j < |s| ==> s[i].y < s[j].y || (s[i].y == s[j].y && s[i].x < s[j].x)
  }

  lemma {:induction false} RowTowersOrdered(line: string, y: int, c: char, n: nat)
    requires n <= |line|
    ensures ReadingOrder(RowTowers(line, y, c, n))
  {
    if n > 0 {
      RowTowersOrdered(line, y, c, n - 1);
    }
  }

  lemma {:induction false} TowersOrdered(lines: seq<string>, c: char, n: nat)
    requires n <= |lines|
    ensures ReadingOrder(Towers(lines, c, n))
  {
    if n > 0 {
      TowersOrdered(lines, c, n - 1);
      RowTowersOrdered(lines[n - 1], n - 1, c, |lines[n - 1]|);
    }
  }

  /** The towers of one frequency are distinct cells of the map. */
  lemma {:induction false} TowersPlaced(lines: seq<string>, c: char)
    ensures Distinct(Towers(lines, c, |lines|))
    ensures forall p :: p in Towers(lines, c, |lines|) ==> InBounds(p, Size(MaxLen(lines), |lines|))
  {
    TowersOrdered(lines, c, |lines|);
    forall p | p in Towers(lines, c, |lines|)
      ensures InBounds(p, Size(MaxLen(lines), |lines|))
    {
      TowersAre(lines, c, |lines|, p);
    }
  }

  /** `TowerMap`: the size of the map and the antennas of each frequency in
      reading order. */
  datatype TowerMap = TowerMap(size: Size, locations: map<char, seq<Point>>)

  /** The antennas of frequency `c` in the first `y` rows and the first `x`
      characters of `line`, row `y`. */
  function SoFar(lines: seq<string>, y: nat, line: string, x: nat, c: char): seq<Point>
    requires y <= |lines| && x <= |line|
  {
    Towers(lines, c, y) + RowTowers(line, y, c, x)
  }

  /** The map after the first `y` rows and the first `x` characters of
      `line`, row `y`. */
  ghost predicate Collected(locs: map<char, seq<Point>>, lines: seq<string>, y: nat, line: string, x: nat)
    requires y <= |lines| && x <= |line|
  {
    forall c ::
      && (c in locs <==> IsAntenna(c) && SoFar(lines, y, line, x, c) != [])
      && (c in locs ==> locs[c] == SoFar(lines, y, line, x, c))
  }

  lemma SoFarNext(lines: seq<string>, y: nat, line: string, x: nat, c: char)
    requires y <= |lines| && x < |line|
    ensures SoFar(lines, y, line, x + 1, c) ==
      SoFar(lines, y, line, x, c) + (if line[x] == c then [Point(x, y)] else [])
  {
    assert RowTowers(line, y, c, x + 1) == RowTowers(line, y, c, x) + (if line[x] == c then [Point(x, y)] else []);
  }

  /** One more character of the row. */
  method Collect(locs: map<char, seq<Point>>, ghost lines: seq<string>, y: nat, line: string, x: nat)
    returns (locs': map<char, seq<Point>>)
    requires y <= |lines| && x < |line|
    requires Collected(locs, lines, y, line, x)
    ensures Collected(locs', lines, y, line, x + 1)
  {
    var c := line[x];
    locs' := locs;
    if IsAntenna(c) {
      var prev := if c in locs then locs[c] else [];
      locs' := locs[c := prev + [Point(x, y)]];
    }
    forall c' ensures
      && (c' in locs' <==> IsAntenna(c') && SoFar(lines, y, line, x + 1, c') != [])
      && (c' in locs' ==> locs'[c'] == SoFar(lines, y, line, x + 1, c'))
    {
      SoFarNext(lines, y, line, x, c');
      if c' != c {
        assert SoFar(lines, y, line, x + 1, c') == SoFar(lines, y, line, x, c');
      }
    }
  }

  /** A finished row joins the rows before it. */
  lemma NextRow(locs: map<char, seq<Point>>, lines: seq<string>, y: nat)
    requires y < |lines| && Collected(locs, lines, y, lines[y], |lines[y]|)
    ensures Collected(locs, lines, y + 1, [], 0)
  {
    forall c ensures SoFar(lines, y + 1, [], 0, c) == SoFar(lines, y, lines[y], |lines[y]|, c)
    {
    }
  }

  /** One row, character by character. */
  method CollectRow(locs: map<char, seq<Point>>, lines: seq<string>, y: nat)
    returns (locs': map<char, seq<Point>>)
    requires y < |lines| && Collected(locs, lines, y, [], 0)
    ensures Collected(locs', lines, y + 1, [], 0)
  {
    var line := lines[y];
    locs' := locs;
    var x := 0;
    while x < |line|
      invariant x <= |line|
      invariant Collected(locs', lines, y, line, x)
    {
      locs' := Collect(locs', lines, y, line, x);
      x := x + 1;
    }
    NextRow(locs', lines, y);
  }

  /** After the last row, the map holds every frequency's towers. */
  lemma {:induction false} AllRows(locs: map<char, seq<Point>>, lines: seq<string>)
    requires Collected(locs, lines, |lines|, [], 0)
    ensures forall c :: c in locs <==> IsAntenna(c) && Towers(lines, c, |lines|) != []
    ensures forall c :: c in locs ==> locs[c] == Towers(lines, c, |lines|)
  {
    forall c ensures SoFar(lines, |lines|, [], 0, c) == Towers(lines, c, |lines|)
    {
    }
  }

  /** `parse_tower_locations`: the width is the longest line and the height
      the number of lines; each antenna frequency maps to its positions in
      reading order, and no other character appears. */
  method ParseTowerLocations(input: string) returns (m: TowerMap)
    ensures m.size == Size(MaxLen(Lines(input)), |Lines(input)|)
    ensures forall c :: c in m.locations <==> IsAntenna(c) && Towers(Lines(input), c, |Lines(input)|) != []
    ensures forall c :: c in m.locations ==> m.locations[c] == Towers(Lines(input), c, |Lines(input)|)
  {
    var lines := Lines(input);
    var locations: map<char, seq<Point>> := map[];
    var width := 0;
    var height := 0;
    var y := 0;
    while y < |lines|
      invariant y <= |lines|
      invariant width == MaxLen(lines[..y]) && height == y
      invariant Collected(locations, lines, y, [], 0)
    {
      var line := lines[y];
      assert lines[..y + 1][..y] == lines[..y];
      width := if width < |line| then |line| else width;
      height := if height < y + 1 then y + 1 else height;
      locations := CollectRow(locations, lines, y);
      y := y + 1;
    }
    assert lines[..y] == lines;
    AllRows(locations, lines);
    m := TowerMap(Size(width, height), locations);
  }

  // ---------------------------------------------------------------------------
  // Pairs of towers

  /** The union of `f(a, b)` over the pairs of `towers` whose first tower is
      among the first `i`, the second one after it: the order of the loops
      `for i in 0..len - 1 { for j in i + 1..len { .. } }`. */
  function PairsUnion(towers: seq<Point>, f: (Point, Point) -> set<Point>, i: nat): set<Point>
    requires i <= |towers|
  {
    if i == 0 then {} else PairsUnion(towers, f, i - 1) + WithFirst(towers[i - 1], towers[i..], f)
  }

  /** The union of `f(a, b)` over the towers `b` of `bs`. */
  function WithFirst(a: Point, bs: seq<Point>, f: (Point, Point) -> set<Point>): set<Point>
  {
    if |bs| == 0 then {} else WithFirst(a, bs[..|bs| - 1], f) + f(a, bs[|bs| - 1])
  }

  lemma {:induction false} WithFirstIs(a: Point, bs: seq<Point>, f: (Point, Point) -> set<Point>, p: Point)
    ensures p in WithFirst(a, bs, f) <==> exists k :: 0 <= k < |bs| && p in f(a, bs[k])
  {
    if |bs| > 0 {
      var init := bs[..|bs| - 1];
      WithFirstIs(a, init, f, p);
      if p in WithFirst(a, bs, f) {
        if p !in f(a, bs[|bs| - 1]) {
          var k :| 0 <= k < |init| && p in f(a, init[k]);
          assert bs[k] == init[k];
        }
      } else {
        forall k | 0 <= k < |bs| ensures p !in f(a, bs[k]) {
          if k < |init| {
            assert bs[k] == init[k];
          }
        }
      }
    }
  }

  /** A point comes from some pair `i < j` exactly. */
  lemma {:induction false} PairsUnionIs(towers: seq<Point>, f: (Point, Point) -> set<Point>, i: nat, p: Point)
    requires i <= |towers|
    ensures p in PairsUnion(towers, f, i) <==>
      exists i', j :: 0 <= i' < i && i' < j < |towers| && p in f(towers[i'], towers[j])
  {
    if i > 0 {
      PairsUnionIs(towers, f, i - 1, p);
      var bs := towers[i..];
      WithFirstIs(towers[i - 1], bs, f, p);
      if p in WithFirst(towers[i - 1], bs, f) {
        var k :| 0 <= k < |bs| && p in f(towers[i - 1], bs[k]);
        assert bs[k] == towers[i + k];
      }
      if exists i', j :: 0 <= i' < i && i' < j < |towers| && p in f(towers[i'], towers[j]) {
        var i', j :| 0 <= i' < i && i' < j < |towers| && p in f(towers[i'], towers[j]);
        if i' == i - 1 {
          assert bs[j - i] == towers[j];
        }
      }
    }
  }

  /** The inner loop's prefix grows by one pair. */
  lemma WithFirstNext(towers: seq<Point>, f: (Point, Point) -> set<Point>, i: nat, j: nat)
    requires i < j < |towers|
    ensures WithFirst(towers[i], towers[i + 1..j + 1], f) ==
      WithFirst(towers[i], towers[i + 1..j], f) + f(towers[i], towers[j])
  {
    assert towers[i + 1..j + 1][..j - i - 1] == towers[i + 1..j];
  }

  /** The outer loop stops one short: the last tower starts no pair. */
  lemma {:induction false} PairsUnionLast(towers: seq<Point>, f: (Point, Point) -> set<Point>)
    requires |towers| >= 1
    ensures PairsUnion(towers, f, |towers|) == PairsUnion(towers, f, |towers| - 1)
  {
  }

  // ---------------------------------------------------------------------------
  // Part 1: reflections (lines 107-127)

  /** `p` is the reflection of one of `a`, `b` through the other. */
  predicate IsAntinode(p: Point, a: Point, b: Point)
  {
    p == Reflect(a, b) || p == Reflect(b, a)
  }

  /** The loop body of `find_antinodes`: `a - v` and `b + v` for `v = b - a`,
      kept when on the map. */
  function PairNodes(size: Size, a: Point, b: Point): (r: set<Point>)
  {
    var v := Diff(b, a);
    var node1 := Minus(a, v);
    var node2 := Plus(b, v);
    (if InBounds(node1, size) then {node1} else {}) + (if InBounds(node2, size) then {node2} else {})
  }

  /** `a - v` and `b + v` are the two reflections. */
  lemma PairNodesAre(size: Size, a: Point, b: Point, p: Point)
    ensures p in PairNodes(size, a, b) <==> InBounds(p, size) && IsAntinode(p, a, b)
  {
  }

  /** The pairs of the towers, in bounds and reflected. */
  function Reflections(size: Size): (Point, Point) -> set<Point>
  {
    (a, b) => PairNodes(size, a, b)
  }

  /** The antinodes of every pair are the in-bounds reflections. */
  lemma {:induction false} ReflectionsAre(size: Size, towers: seq<Point>, p: Point)
    ensures p in PairsUnion(towers, Reflections(size), |towers|) <==>
      (InBounds(p, size) && exists i, j :: 0 <= i < j < |towers| && IsAntinode(p, towers[i], towers[j]))
  {
    PairsUnionIs(towers, Reflections(size), |towers|, p);
    if p in PairsUnion(towers, Reflections(size), |towers|) {
      var i, j :| 0 <= i < j < |towers| && p in Reflections(size)(towers[i], towers[j]);
      PairNodesAre(size, towers[i], towers[j], p);
    }
    if InBounds(p, size) && exists i, j :: 0 <= i < j < |towers| && IsAntinode(p, towers[i], towers[j]) {
      var i, j :| 0 <= i < j < |towers| && IsAntinode(p, towers[i], towers[j]);
      PairNodesAre(size, towers[i], towers[j], p);
    }
  }

  /** `find_antinodes`: the in-bounds reflections over every pair of the
      towers. `towers.len() - 1` underflows on an empty list, so there must
      be a tower. */
  method FindAntinodes(size: Size, towers: seq<Point>) returns (antinodes: set<Point>)
    requires |towers| >= 1
    ensures antinodes == PairsUnion(towers, Reflections(size), |towers|)
  {
    antinodes := {};
    for i := 0 to |towers| - 1
      invariant antinodes == PairsUnion(towers, Reflections(size), i)
    {
      antinodes := ReflectPairs(size, towers, i, antinodes);
    }
    PairsUnionLast(towers, Reflections(size));
  }

  /** The inner loop of `find_antinodes`: the pairs that start at tower `i`. */
  method ReflectPairs(size: Size, towers: seq<Point>, i: nat, antinodes: set<Point>) returns (antinodes': set<Point>)
    requires i < |towers|
    ensures antinodes' == antinodes + WithFirst(towers[i], towers[i + 1..], Reflections(size))
  {
    antinodes' := antinodes;
    for j := i + 1 to |towers|
      invariant antinodes' == antinodes + WithFirst(towers[i], towers[i + 1..j], Reflections(size))
    {
      antinodes' := ReflectPair(size, towers[i], towers[j], antinodes');
      assert Reflections(size)(towers[i], towers[j]) == PairNodes(size, towers[i], towers[j]);
      WithFirstNext(towers, Reflections(size), i, j);
    }
    assert towers[i + 1..|towers|] == towers[i + 1..];
  }

  /** The body of the inner loop of `find_antinodes`. */
  method ReflectPair(size: Size, a: Point, b: Point, antinodes: set<Point>) returns (antinodes': set<Point>)
    ensures antinodes' == antinodes + PairNodes(size, a, b)
  {
    antinodes' := antinodes;
    var v := Diff(b, a);
    var node1 := Minus(a, v);
    var node2 := Plus(b, v);
    if InBounds(node1, size) {
      antinodes' := antinodes' + {node1};
    }
    if InBounds(node2, size) {
      antinodes' := antinodes' + {node2};
    }
  }

  // ---------------------------------------------------------------------------
  // Part 2: every grid point on the line through two towers (lines 129-153)

  /** How far `p` may still walk by `d` before it leaves the map: the
      distance to the edge it heads for. */
  function Headroom(size: Size, p: Point, d: Vec2): int
  {
    if d.dx > 0 then size.w - p.x
    else if d.dx < 0 then p.x + 1
    else if d.dy > 0 then size.h - p.y
    else p.y + 1
  }

  /** The points visited by `while node.in_bounds(size) { .. node = node + d }`
      from `p`. */
  function Ray(size: Size, p: Point, d: Vec2): set<Point>
    requires d != Vec2(0, 0)
    decreases Headroom(size, p, d)
  {
    if !InBounds(p, size) then {} else {p} + Ray(size, Plus(p, d), d)
  }

  /** `k` steps of `d` from `p`. */
  function Along(p: Point, d: Vec2, k: nat): Point
  {
    Point(p.x + k * d.dx, p.y + k * d.dy)
  }

  lemma AlongNext(p: Point, d: Vec2, k: nat)
    requires k > 0
    ensures Along(p, d, k) == Along(Plus(p, d), d, k - 1)
  {
    assert k * d.dx == (k - 1) * d.dx + d.dx;
    assert k * d.dy == (k - 1) * d.dy + d.dy;
  }

  /** Every point of the ray is on the map, some whole number of steps from
      its start. */
  lemma {:induction false} RaySound(size: Size, p: Point, d: Vec2, q: Point)
    requires d != Vec2(0, 0)
    requires q in Ray(size, p, d)
    ensures InBounds(q, size) && exists k: nat :: q == Along(p, d, k)
    decreases Headroom(size, p, d)
  {
    if q == p {
      assert q == Along(p, d, 0);
    } else {
      RaySound(size, Plus(p, d), d, q);
      var k: nat :| q == Along(Plus(p, d), d, k);
      AlongNext(p, d, k + 1);
    }
  }

  /** A coordinate that starts inside `0..n` and is inside it again after
      `k` steps of `e` is inside it after the first step. */
  lemma Between(a: int, e: int, k: nat, n: int)
    requires k >= 1 && 0 <= a < n && 0 <= a + k * e < n
    ensures 0 <= a + e < n
  {
    if e > 0 {
      MulAtLeast(k, e);
    } else if e < 0 {
      MulAtLeast(k, -e);
      assert k * -e == -(k * e);
    }
  }

  /** The map is a rectangle, so a walk from a point on it never comes back
      once it has left: the ray holds every point on the map that is a whole
      number of steps from its start. */
  lemma {:induction false} RayComplete(size: Size, p: Point, d: Vec2, k: nat)
    requires d != Vec2(0, 0)
    requires InBounds(p, size) && InBounds(Along(p, d, k), size)
    ensures Along(p, d, k) in Ray(size, p, d)
    decreases k
  {
    if k > 0 {
      Between(p.x, d.dx, k, size.w);
      Between(p.y, d.dy, k, size.h);
      AlongNext(p, d, k);
      RayComplete(size, Plus(p, d), d, k - 1);
    }
  }

  /** `q` is `k` steps of `v = b - a` back from `a` or on from `b`. */
  predicate OnLine(q: Point, a: Point, b: Point, k: nat)
  {
    var v := Diff(b, a);
    q == Point(a.x - k * v.dx, a.y - k * v.dy) || q == Point(b.x + k * v.dx, b.y + k * v.dy)
  }

  /** The body of the inner loop of `find_antinodes2`: the walk back from `a`
      by `v = b - a` and the walk on from `b`. The towers of one frequency
      sit in distinct cells, so `v` is never zero; for `a == b` the walks
      would not end and the set is left empty. */
  function PairLine(size: Size, a: Point, b: Point): set<Point>
  {
    if a == b then {} else Ray(size, a, Neg(Diff(b, a))) + Ray(size, b, Diff(b, a))
  }

  lemma AlongBack(a: Point, v: Vec2, k: nat)
    ensures Along(a, Neg(v), k) == Point(a.x - k * v.dx, a.y - k * v.dy)
  {
    assert k * -v.dx == -(k * v.dx);
    assert k * -v.dy == -(k * v.dy);
  }

  /** For two towers on the map, the walks cover exactly the points on the
      map a whole number of steps beyond either tower. */
  lemma PairLineIs(size: Size, a: Point, b: Point, q: Point)
    requires a != b && InBounds(a, size) && InBounds(b, size)
    ensures q in PairLine(size, a, b) <==> InBounds(q, size) && exists k: nat :: OnLine(q, a, b, k)
  {
    if q in PairLine(size, a, b) {
      PairLineSound(size, a, b, q);
    }
    if InBounds(q, size) && exists k: nat :: OnLine(q, a, b, k) {
      var k: nat :| OnLine(q, a, b, k);
      PairLineComplete(size, a, b, q, k);
    }
  }

  /** Two distinct towers are a non-zero step apart, either way. */
  lemma StepNonZero(a: Point, b: Point)
    requires a != b
    ensures Diff(b, a) != Vec2(0, 0) && Neg(Diff(b, a)) != Vec2(0, 0)
  {
  }

  lemma PairLineSound(size: Size, a: Point, b: Point, q: Point)
    requires a != b && q in PairLine(size, a, b)
    ensures InBounds(q, size) && exists k: nat :: OnLine(q, a, b, k)
  {
    var v := Diff(b, a);
    StepNonZero(a, b);
    if q in Ray(size, a, Neg(v)) {
      RaySound(size, a, Neg(v), q);
      var k: nat :| q == Along(a, Neg(v), k);
      AlongBack(a, v, k);
      assert OnLine(q, a, b, k);
    } else {
      RaySound(size, b, v, q);
      var k: nat :| q == Along(b, v, k);
      assert OnLine(q, a, b, k);
    }
  }

  lemma PairLineComplete(size: Size, a: Point, b: Point, q: Point, k: nat)
    requires a != b && InBounds(a, size) && InBounds(b, size)
    requires InBounds(q, size) && OnLine(q, a, b, k)
    ensures q in PairLine(size, a, b)
  {
    var v := Diff(b, a);
    StepNonZero(a, b);
    AlongBack(a, v, k);
    if q == Along(a, Neg(v), k) {
      RayComplete(size, a, Neg(v), k);
    } else {
      assert q == Along(b, v, k);
      RayComplete(size, b, v, k);
    }
  }

  function Harmonics(size: Size): (Point, Point) -> set<Point>
  {
    (a, b) => PairLine(size, a, b)
  }

  /** The antinodes of part 2 over distinct towers on the map: the points on
      the map a whole number of steps of `b - a` beyond `a` or `b`, for some
      pair `a`, `b` of the towers. */
  lemma {:induction false} HarmonicsAre(size: Size, towers: seq<Point>, q: Point)
    requires Distinct(towers) && forall t :: t in towers ==> InBounds(t, size)
    ensures q in PairsUnion(towers, Harmonics(size), |towers|) <==>
      (InBounds(q, size) && exists i, j, k: nat :: 0 <= i < j < |towers| && OnLine(q, towers[i], towers[j], k))
  {
    PairsUnionIs(towers, Harmonics(size), |towers|, q);
    if q in PairsUnion(towers, Harmonics(size), |towers|) {
      var i, j :| 0 <= i < j < |towers| && q in Harmonics(size)(towers[i], towers[j]);
      PairLineIs(size, towers[i], towers[j], q);
    }
    if InBounds(q, size) && exists i, j, k: nat :: 0 <= i < j < |towers| && OnLine(q, towers[i], towers[j], k) {
      var i, j, k: nat :| 0 <= i < j < |towers| && OnLine(q, towers[i], towers[j], k);
      PairLineIs(size, towers[i], towers[j], q);
    }
  }

  /** With two or more towers on the map, every tower is an antinode of
      part 2: it is zero steps beyond itself. */
  lemma {:induction false} TowersAreHarmonics(size: Size, towers: seq<Point>, t: Point)
    requires |towers| >= 2 && Distinct(towers) && forall t :: t in towers ==> InBounds(t, size)
    requires t in towers
    ensures t in PairsUnion(towers, Harmonics(size), |towers|)
  {
    var i :| 0 <= i < |towers| && towers[i] == t;
    if i == 0 {
      assert OnLine(t, towers[0], towers[1], 0);
    } else {
      assert OnLine(t, towers[0], towers[i], 0);
    }
    HarmonicsAre(size, towers, t);
  }

  /** `find_antinodes2`: the in-bounds points on the lines through every pair
      of the towers. */
  method FindAntinodes2(size: Size, towers: seq<Point>) returns (antinodes: set<Point>)
    requires |towers| >= 1 && Distinct(towers)
    ensures antinodes == PairsUnion(towers, Harmonics(size), |towers|)
  {
    antinodes := {};
    for i := 0 to |towers| - 1
      invariant antinodes == PairsUnion(towers, Harmonics(size), i)
    {
      antinodes := LinePairs(size, towers, i, antinodes);
    }
    PairsUnionLast(towers, Harmonics(size));
  }

  /** The inner loop of `find_antinodes2`. */
  method LinePairs(size: Size, towers: seq<Point>, i: nat, antinodes: set<Point>) returns (antinodes': set<Point>)
    requires i < |towers| && Distinct(towers)
    ensures antinodes' == antinodes + WithFirst(towers[i], towers[i + 1..], Harmonics(size))
  {
    antinodes' := antinodes;
    for j := i + 1 to |towers|
      invariant antinodes' == antinodes + WithFirst(towers[i], towers[i + 1..j], Harmonics(size))
    {
      antinodes' := LinePair(size, towers[i], towers[j], antinodes');
      assert Harmonics(size)(towers[i], towers[j]) == PairLine(size, towers[i], towers[j]);
      WithFirstNext(towers, Harmonics(size), i, j);
    }
    assert towers[i + 1..|towers|] == towers[i + 1..];
  }

  /** The body of the inner loop of `find_antinodes2`: the two walks. */
  method LinePair(size: Size, a: Point, b: Point, antinodes: set<Point>) returns (antinodes': set<Point>)
    requires a != b
    ensures antinodes' == antinodes + PairLine(size, a, b)
  {
    antinodes' := antinodes;
    var v := Diff(b, a);
    var node := a;
    while InBounds(node, size)
      invariant antinodes' + Ray(size, node, Neg(v)) == antinodes + Ray(size, a, Neg(v))
      decreases Headroom(size, node, Neg(v))
    {
      antinodes' := antinodes' + {node};
      node := Minus(node, v);
    }
    ghost var back := antinodes';
    node := b;
    while InBounds(node, size)
      invariant antinodes' + Ray(size, node, v) == back + Ray(size, b, v)
      decreases Headroom(size, node, v)
    {
      antinodes' := antinodes' + {node};
      node := Plus(node, v);
    }
  }

  // ---------------------------------------------------------------------------
  // Both parts: the union over the frequencies (lines 6-28)

  /** What `parse_tower_locations` promises about its result. */
  ghost predicate ParsedFrom(lines: seq<string>, m: TowerMap)
  {
    && m.size == Size(MaxLen(lines), |lines|)
    && (forall c :: c in m.locations <==> IsAntenna(c) && Towers(lines, c, |lines|) != [])
    && (forall c :: c in m.locations ==> m.locations[c] == Towers(lines, c, |lines|))
  }

  /** The union, over the frequencies in `keys`, of `f` over the pairs of
      that frequency's towers. */
  ghost function FreqUnion(locs: map<char, seq<Point>>, keys: set<char>, f: (Point, Point) -> set<Point>): set<Point>
  {
    set c, p | c in keys && c in locs && p in PairsUnion(locs[c], f, |locs[c]|) :: p
  }

  lemma FreqUnionAdd(locs: map<char, seq<Point>>, keys: set<char>, f: (Point, Point) -> set<Point>, c: char)
    requires c in locs
    ensures FreqUnion(locs, keys + {c}, f) == FreqUnion(locs, keys, f) + PairsUnion(locs[c], f, |locs[c]|)
  {
  }

  /** The answer of part 1, read off the text: the cells of the map that are
      the reflection of one antenna through another of the same frequency. */
  ghost function ReflectionCells(lines: seq<string>): set<Point>
  {
    set x, y | 0 <= x < MaxLen(lines) && 0 <= y < |lines| && ReflectsPair(lines, Point(x, y)) :: Point(x, y)
  }

  ghost predicate ReflectsPair(lines: seq<string>, p: Point)
  {
    exists c, i, j :: IsAntenna(c) && 0 <= i < j < |Towers(lines, c, |lines|)| &&
      IsAntinode(p, Towers(lines, c, |lines|)[i], Towers(lines, c, |lines|)[j])
  }

  /** The answer of part 2, read off the text: the cells of the map a whole
      number of steps of `b - a` beyond `a` or `b`, for two antennas `a`
      before `b` of the same frequency. */
  ghost function LineCells(lines: seq<string>): set<Point>
  {
    set x, y | 0 <= x < MaxLen(lines) && 0 <= y < |lines| && LinesUpPair(lines, Point(x, y)) :: Point(x, y)
  }

  ghost predicate LinesUpPair(lines: seq<string>, p: Point)
  {
    exists c, i, j, k: nat :: IsAntenna(c) && 0 <= i < j < |Towers(lines, c, |lines|)| &&
      OnLine(p, Towers(lines, c, |lines|)[i], Towers(lines, c, |lines|)[j], k)
  }

  lemma ReflectionCellsAre(lines: seq<string>, m: TowerMap)
    requires ParsedFrom(lines, m)
    ensures FreqUnion(m.locations, m.locations.Keys, Reflections(m.size)) == ReflectionCells(lines)
  {
    var f := Reflections(m.size);
    forall p ensures p in FreqUnion(m.locations, m.locations.Keys, f) <==> p in ReflectionCells(lines) {
      if p in FreqUnion(m.locations, m.locations.Keys, f) {
        var c :| c in m.locations && p in PairsUnion(m.locations[c], f, |m.locations[c]|);
        ReflectionsAre(m.size, m.locations[c], p);
        assert ReflectsPair(lines, p);
      }
      if p in ReflectionCells(lines) {
        var c, i, j :| IsAntenna(c) && 0 <= i < j < |Towers(lines, c, |lines|)| &&
          IsAntinode(p, Towers(lines, c, |lines|)[i], Towers(lines, c, |lines|)[j]);
        ReflectionsAre(m.size, m.locations[c], p);
      }
    }
  }

  lemma LineCellsAre(lines: seq<string>, m: TowerMap)
    requires ParsedFrom(lines, m)
    ensures FreqUnion(m.locations, m.locations.Keys, Harmonics(m.size)) == LineCells(lines)
  {
    var f := Harmonics(m.size);
    forall p ensures p in FreqUnion(m.locations, m.locations.Keys, f) <==> p in LineCells(lines) {
      if p in FreqUnion(m.locations, m.locations.Keys, f) {
        var c :| c in m.locations && p in PairsUnion(m.locations[c], f, |m.locations[c]|);
        TowersPlaced(lines, c);
        HarmonicsAre(m.size, m.locations[c], p);
        assert LinesUpPair(lines, p);
      }
      if p in LineCells(lines) {
        var c, i, j, k: nat :| IsAntenna(c) && 0 <= i < j < |Towers(lines, c, |lines|)| &&
          OnLine(p, Towers(lines, c, |lines|)[i], Towers(lines, c, |lines|)[j], k);
        TowersPlaced(lines, c);
        HarmonicsAre(m.size, m.locations[c], p);
      }
    }
  }

  /** `day08part1`: the number of cells that are an antinode of part 1. */
  method Part1(input: string) returns (n: nat)
    ensures n == |ReflectionCells(Lines(input))|
  {
    var m := ParseTowerLocations(input);
    var antinodes := AllReflections(m);
    ReflectionCellsAre(Lines(input), m);
    n := |antinodes|;
  }

  /** The loop of `day08part1` over the frequencies, in any order. */
  method AllReflections(m: TowerMap) returns (antinodes: set<Point>)
    requires forall c :: c in m.locations ==> m.locations[c] != []
    ensures antinodes == FreqUnion(m.locations, m.locations.Keys, Reflections(m.size))
  {
    antinodes := {};
    var freqs := m.locations.Keys;
    while freqs != {}
      invariant freqs <= m.locations.Keys
      invariant antinodes == FreqUnion(m.locations, m.locations.Keys - freqs, Reflections(m.size))
    {
      var c :| c in freqs;
      var found := FindAntinodes(m.size, m.locations[c]);
      FreqUnionAdd(m.locations, m.locations.Keys - freqs, Reflections(m.size), c);
      antinodes := antinodes + found;
      assert m.locations.Keys - (freqs - {c}) == m.locations.Keys - freqs + {c};
      freqs := freqs - {c};
    }
    assert m.locations.Keys - freqs == m.locations.Keys;
  }

  /** `day08part2`: the number of cells that are an antinode of part 2. */
  method Part2(input: string) returns (n: nat)
    ensures n == |LineCells(Lines(input))|
  {
    var m := ParseTowerLocations(input);
    ghost var lines := Lines(input);
    forall c | c in m.locations
      ensures Distinct(m.locations[c])
    {
      TowersPlaced(lines, c);
    }
    var antinodes := AllHarmonics(m);
    LineCellsAre(lines, m);
    n := |antinodes|;
  }

  /** The loop of `day08part2` over the frequencies, in any order. */
  method AllHarmonics(m: TowerMap) returns (antinodes: set<Point>)
    requires forall c :: c in m.locations ==> m.locations[c] != [] && Distinct(m.locations[c])
    ensures antinodes == FreqUnion(m.locations, m.locations.Keys, Harmonics(m.size))
  {
    antinodes := {};
    var freqs := m.locations.Keys;
    while freqs != {}
      invariant freqs <= m.locations.Keys
      invariant antinodes == FreqUnion(m.locations, m.locations.Keys - freqs, Harmonics(m.size))
    {
      var c :| c in freqs;
      var found := FindAntinodes2(m.size, m.locations[c]);
      FreqUnionAdd(m.locations, m.locations.Keys - freqs, Harmonics(m.size), c);
      antinodes := antinodes + found;
      assert m.locations.Keys - (freqs - {c}) == m.locations.Keys - freqs + {c};
      freqs := freqs - {c};
    }
    assert m.locations.Keys - freqs == m.locations.Keys;
  }
}
