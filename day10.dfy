/** Day 10: hoof it. A topographic map of digit heights; a hiking trail climbs
    by exactly one at each orthogonal step from a 0 to a 9. The solver walks
    down from every peak and counts, for each cell, the downhill walks that
    reach it. */
module Day10 {
  import opened Common

  type Pos = (nat, nat)

  /** `Map<Item>` (lines 74-81): a row-major matrix of the given width. */
  datatype Grid<T> = Grid(width: nat, matrix: seq<T>)

  /** `Map::height` (lines 123-125). */
  function Rows<T>(g: Grid<T>): nat
    requires g.width > 0
  {
    |g.matrix| / g.width
  }

  predicate InBox<T>(g: Grid<T>, p: Pos)
  {
    g.width > 0 && p.0 < g.width && p.1 < Rows(g)
  }

  function Idx(w: nat, p: Pos): nat
  {
    w * p.1 + p.0
  }

  /** `Map::get` (lines 127-133). */
  function Get<T>(g: Grid<T>, p: Pos): (r: Option<T>)
    requires g.width > 0
    ensures r.Some? <==> InBox(g, p)
    ensures r.Some? ==> Idx(g.width, p) < |g.matrix| && r.value == g.matrix[Idx(g.width, p)]
  {
    if p.0 >= g.width || p.1 >= Rows(g) then None
    else
      GridIndexBound(g.width, Rows(g), p.0, p.1);
      assert g.width * Rows(g) <= |g.matrix|;
      var idx := Idx(g.width, p);
      if idx < |g.matrix| then Some(g.matrix[idx]) else None
  }

  /** `Map::default` (lines 156-162): `w * h` zeros. */
  function Default(w: nat, h: nat): (g: Grid<nat>)
    requires w > 0
    ensures g.width == w && |g.matrix| == w * h && Rows(g) == h
    ensures forall p :: InBox(g, p) ==> Get(g, p) == Some(0)
  {
    DivModUnique(w * h, w, h, 0);
    Grid(w, seq(w * h, _ => 0))
  }

  /** A parsed height map: positive width and single-digit heights. */
  predicate HeightMap(g: Grid<nat>)
  {
    g.width > 0 && forall i :: 0 <= i < |g.matrix| ==> g.matrix[i] < 10
  }

  function H(g: Grid<nat>, p: Pos): nat
    requires HeightMap(g) && InBox(g, p)
  {
    Get(g, p).value
  }

  /** `Height::can_walk_up_to` (lines 86-90): `other` is one above `h`. */
  predicate CanWalkUpTo(h: nat, other: nat)
  {
    other as int - h as int == 1
  }

  /** The cell (x, y) when both coordinates are non-negative. */
  function At(x: int, y: int): Option<Pos>
  {
    if x >= 0 && y >= 0 then Some((x, y)) else None
  }

  /** Lines 57-68: the neighbours, in the order they are queued, that lie on
      the map one below `p`. */
  function Children(g: Grid<nat>, p: Pos): (r: seq<Pos>)
    requires HeightMap(g) && InBox(g, p)
    ensures forall i :: 0 <= i < |r| ==> InBox(g, r[i]) && H(g, r[i]) + 1 == H(g, p)
    ensures |r| <= 4
  {
    Keep(g, H(g, p), Candidates(p))
  }

  function Candidates(p: Pos): seq<Option<Pos>>
  {
    [At(p.0 + 1, p.1), At(p.0 - 1, p.1), At(p.0, p.1 + 1), At(p.0, p.1 - 1)]
  }

  /** Exactly the orthogonal neighbours one below `p` are queued after it. */
  lemma ChildrenExact(g: Grid<nat>, p: Pos, n: Pos)
    requires HeightMap(g) && InBox(g, p)
    ensures n in Children(g, p) <==> Abs(p.0 - n.0) + Abs(p.1 - n.1) == 1 && InBox(g, n) && CanWalkUpTo(H(g, n), H(g, p))
  {
    var cand := Candidates(p);
    assert Some(n) in cand <==> Abs(p.0 - n.0) + Abs(p.1 - n.1) == 1;
  }

  function Keep(g: Grid<nat>, h: nat, cand: seq<Option<Pos>>): (r: seq<Pos>)
    requires HeightMap(g)
    ensures forall i :: 0 <= i < |r| ==> InBox(g, r[i]) && H(g, r[i]) + 1 == h
    ensures forall n: Pos :: n in r <==> Some(n) in cand && InBox(g, n) && CanWalkUpTo(H(g, n), h)
    ensures |r| <= |cand|
  {
    if |cand| == 0 then []
    else
      var rest := Keep(g, h, cand[1..]);
      assert forall c :: c in cand <==> c == cand[0] || c in cand[1..];
      match cand[0]
      case Some(n) =>
        if Get(g, n).Some? && CanWalkUpTo(Get(g, n).value, h) then [n] + rest else rest
      case None => rest
  }

  // ---------------------------------------------------------------------------
  // Counting downhill walks

  /** The number of walks from `a` that go down by one at each orthogonal step and
      end at `c`. The walk that stays at `a` counts when `a == c`. */
  function Down(g: Grid<nat>, a: Pos, c: Pos): nat
    requires HeightMap(g) && InBox(g, a)
    decreases H(g, a), 1
  {
    (if a == c then 1 else 0) + DownAll(g, Children(g, a), c, H(g, a))
  }

  /** `Down` summed over a list of cells, each lower than `top`. */
  function DownAll(g: Grid<nat>, cells: seq<Pos>, c: Pos, top: nat): nat
    requires HeightMap(g) && forall i :: 0 <= i < |cells| ==> InBox(g, cells[i]) && H(g, cells[i]) < top
    decreases top, 0, |cells|
  {
    if |cells| == 0 then 0 else Down(g, cells[0], c) + DownAll(g, cells[1..], c, top)
  }

  /** The number of downhill walks from `a`, whatever their end. */
  function Weight(g: Grid<nat>, a: Pos): nat
    requires HeightMap(g) && InBox(g, a)
    decreases H(g, a), 1
  {
    1 + WeightAll(g, Children(g, a), H(g, a))
  }

  function WeightAll(g: Grid<nat>, cells: seq<Pos>, top: nat): nat
    requires HeightMap(g) && forall i :: 0 <= i < |cells| ==> InBox(g, cells[i]) && H(g, cells[i]) < top
    decreases top, 0, |cells|
  {
    if |cells| == 0 then 0 else Weight(g, cells[0]) + WeightAll(g, cells[1..], top)
  }

  predicate Below(g: Grid<nat>, cells: seq<Pos>, top: nat)
    requires HeightMap(g)
  {
    forall i :: 0 <= i < |cells| ==> InBox(g, cells[i]) && H(g, cells[i]) < top
  }

  /** The bound `top` only serves termination: it does not change the sum. */
  lemma {:induction false} DownAllTop(g: Grid<nat>, cells: seq<Pos>, c: Pos, t1: nat, t2: nat)
    requires HeightMap(g) && Below(g, cells, t1) && Below(g, cells, t2)
    ensures DownAll(g, cells, c, t1) == DownAll(g, cells, c, t2)
    ensures WeightAll(g, cells, t1) == WeightAll(g, cells, t2)
  {
    if |cells| > 0 {
      DownAllTop(g, cells[1..], c, t1, t2);
    }
  }

  lemma {:induction false} DownAllAppend(g: Grid<nat>, a: seq<Pos>, b: seq<Pos>, c: Pos, top: nat)
    requires HeightMap(g) && Below(g, a, top) && Below(g, b, top)
    ensures DownAll(g, a + b, c, top) == DownAll(g, a, c, top) + DownAll(g, b, c, top)
    ensures WeightAll(g, a + b, top) == WeightAll(g, a, top) + WeightAll(g, b, top)
  {
    if |a| == 0 {
      assert a + b == b;
    } else {
      assert (a + b)[1..] == a[1..] + b;
      DownAllAppend(g, a[1..], b, c, top);
    }
  }

  /** The peak is reached by exactly one walk from itself. */
  lemma {:induction false} DownSelf(g: Grid<nat>, a: Pos)
    requires HeightMap(g) && InBox(g, a)
    ensures Down(g, a, a) == 1
  {
    DownAllAbove(g, Children(g, a), a, H(g, a));
  }

  /** Walks only go down: no cell at or above the top height is reached. */
  lemma {:induction false} DownAllAbove(g: Grid<nat>, cells: seq<Pos>, c: Pos, top: nat)
    requires HeightMap(g) && Below(g, cells, top) && InBox(g, c) && H(g, c) >= top
    ensures DownAll(g, cells, c, top) == 0
    decreases top, |cells|
  {
    if |cells| > 0 {
      var a := cells[0];
      DownAllAbove(g, Children(g, a), c, H(g, a));
      DownAllAbove(g, cells[1..], c, top);
    }
  }

  /** A cell higher than `a` is never reached from `a`. */
  lemma {:induction false} DownOnlyLower(g: Grid<nat>, a: Pos, c: Pos)
    requires HeightMap(g) && InBox(g, a) && InBox(g, c) && H(g, c) > H(g, a)
    ensures Down(g, a, c) == 0
  {
    DownAllAbove(g, Children(g, a), c, H(g, a));
  }

  /** Every cell's count plus the walks still pending in the queue that end
      at it make up the walks from the peak that end there. */
  ghost predicate Accounted(g: Grid<nat>, peak: Pos, pm: Grid<nat>, queue: seq<Pos>)
    requires HeightMap(g) && InBox(g, peak)
  {
    && pm.width == g.width && Rows(pm) == Rows(g) && Below(g, queue, 10)
    && forall c :: InBox(g, c) ==> Get(pm, c).value + DownAll(g, queue, c, 10) == Down(g, peak, c)
  }

  /** `backtrack_from_peak` (lines 42-72): every cell of the result holds the
      number of downhill walks from the peak that end there. */
  method BacktrackFromPeak(g: Grid<nat>, peak: Pos) returns (pm: Grid<nat>)
    requires HeightMap(g) && InBox(g, peak)
    ensures pm.width == g.width && Rows(pm) == Rows(g)
    ensures forall c :: InBox(g, c) ==> Get(pm, c) == Some(Down(g, peak, c))
  {
    var w, h := g.width, Rows(g);
    pm := Default(w, h);
    var queue := [peak];
    AccountedInit(g, peak);
    while queue != []
      invariant Accounted(g, peak, pm, queue)
      decreases WeightAll(g, queue, 10)
    {
      var p := queue[0];
      var children := Children(g, p);
      PopStep(g, queue, p, children);
      var idx := Idx(w, p);
      GridIndexBound(w, h, p.0, p.1);
      ghost var before := pm;
      pm := pm.(matrix := pm.matrix[idx := pm.matrix[idx] + 1]);
      CountStep(g, peak, before, pm, queue, p, children);
      queue := queue[1..] + children;
    }
  }

  lemma AccountedInit(g: Grid<nat>, peak: Pos)
    requires HeightMap(g) && InBox(g, peak)
    ensures Accounted(g, peak, Default(g.width, Rows(g)), [peak])
  {
    var q := [peak];
    assert q[1..] == [];
    forall c | InBox(g, c)
      ensures DownAll(g, q, c, 10) == Down(g, peak, c)
    {
    }
  }

  lemma {:induction false} CountStep(g: Grid<nat>, peak: Pos, pm: Grid<nat>, pm': Grid<nat>, queue: seq<Pos>, p: Pos, children: seq<Pos>)
    requires HeightMap(g) && InBox(g, peak) && Accounted(g, peak, pm, queue)
    requires |queue| > 0 && p == queue[0] && children == Children(g, p) && Below(g, queue[1..] + children, 10)
    requires forall c :: DownAll(g, queue, c, 10) == (if c == p then 1 else 0) + DownAll(g, queue[1..] + children, c, 10)
    requires InBox(g, p) && Idx(g.width, p) < |pm.matrix|
    requires pm' == pm.(matrix := pm.matrix[Idx(g.width, p) := pm.matrix[Idx(g.width, p)] + 1])
    ensures Accounted(g, peak, pm', queue[1..] + children)
  {
    var w := g.width;
    assert Rows(pm') == Rows(pm);
    forall c | InBox(g, c)
      ensures Get(pm', c).value + DownAll(g, queue[1..] + children, c, 10) == Down(g, peak, c)
    {
      if c != p && Idx(w, c) == Idx(w, p) {
        GridIndexUnique(w, c.0, c.1, p.0, p.1);
      }
    }
  }

  /** Taking the front cell off the queue and queueing its children moves one
      walk from the queue to the counts and makes the queue one walk lighter. */
  lemma {:induction false} PopStep(g: Grid<nat>, queue: seq<Pos>, p: Pos, children: seq<Pos>)
    requires HeightMap(g) && |queue| > 0 && Below(g, queue, 10) && p == queue[0]
    requires children == Children(g, p)
    ensures Below(g, queue[1..] + children, 10)
    ensures forall c :: DownAll(g, queue, c, 10)
                     == (if c == p then 1 else 0) + DownAll(g, queue[1..] + children, c, 10)
    ensures WeightAll(g, queue, 10) == 1 + WeightAll(g, queue[1..] + children, 10)
  {
    forall c
      ensures DownAll(g, queue, c, 10) == (if c == p then 1 else 0) + DownAll(g, queue[1..] + children, c, 10)
    {
      DownAllAppend(g, queue[1..], children, c, 10);
      DownAllTop(g, children, c, H(g, p), 10);
    }
    DownAllAppend(g, queue[1..], children, p, 10);
    DownAllTop(g, children, p, H(g, p), 10);
  }

  // ---------------------------------------------------------------------------
  // Trailheads and peaks

  /** `Map::find_all` (lines 143-153) for one height: the cells holding it,
      row by row. */
  function FindAll(g: Grid<nat>, v: nat): (r: seq<Pos>)
    requires HeightMap(g)
    ensures forall p: Pos :: p in r <==> InBox(g, p) && H(g, p) == v
  {
    FindFrom(g, v, 0, 0)
  }

  function FindFrom(g: Grid<nat>, v: nat, x: nat, y: nat): (r: seq<Pos>)
    requires HeightMap(g) && x <= g.width
    ensures forall p: Pos :: p in r <==> InBox(g, p) && H(g, p) == v && (p.1 > y || (p.1 == y && p.0 >= x))
    decreases Rows(g) - y, g.width - x
  {
    if y >= Rows(g) then []
    else if x == g.width then FindFrom(g, v, 0, y + 1)
    else
      var rest := FindFrom(g, v, x + 1, y);
      if H(g, (x, y)) == v then [(x, y)] + rest else rest
  }

  /** What one peak adds to a trailhead's score: 1 when some trail joins
      them (part 1, lines 14-16), or the number of trails (part 2, lines
      34-35). */
  function Contribution(trails: nat, rating: bool): nat
  {
    if rating then trails else if trails > 0 then 1 else 0
  }

  /** The score of a trailhead over the given peaks. */
  function Score(g: Grid<nat>, peaks: seq<Pos>, th: Pos, rating: bool): nat
    requires HeightMap(g) && forall k :: 0 <= k < |peaks| ==> InBox(g, peaks[k])
  {
    if |peaks| == 0 then 0
    else Score(g, peaks[..|peaks| - 1], th, rating) + Contribution(Down(g, peaks[|peaks| - 1], th), rating)
  }

  function Total(g: Grid<nat>, peaks: seq<Pos>, ths: seq<Pos>, rating: bool): nat
    requires HeightMap(g) && forall k :: 0 <= k < |peaks| ==> InBox(g, peaks[k])
  {
    if |ths| == 0 then 0
    else Total(g, peaks, ths[..|ths| - 1], rating) + Score(g, peaks, ths[|ths| - 1], rating)
  }

  /** Lines 13-17 and 33-36: each trailhead's score gains the contribution of
      one peak's counts. */
  method AddPeak(g: Grid<nat>, peak: Pos, pm: Grid<nat>, ths: seq<Pos>, scores: seq<nat>, rating: bool)
    returns (scores': seq<nat>)
    requires HeightMap(g) && InBox(g, peak) && |scores| == |ths|
    requires forall i :: 0 <= i < |ths| ==> InBox(g, ths[i])
    requires pm.width == g.width && Rows(pm) == Rows(g)
    requires forall c :: InBox(g, c) ==> Get(pm, c) == Some(Down(g, peak, c))
    ensures |scores'| == |ths|
    ensures forall i :: 0 <= i < |ths| ==> scores'[i] == scores[i] + Contribution(Down(g, peak, ths[i]), rating)
  {
    scores' := scores;
    for i := 0 to |ths|
      invariant |scores'| == |ths|
      invariant forall j :: 0 <= j < i ==> scores'[j] == scores[j] + Contribution(Down(g, peak, ths[j]), rating)
      invariant forall j :: i <= j < |ths| ==> scores'[j] == scores[j]
    {
      var count := Get(pm, ths[i]).value;
      scores' := scores'[i := scores'[i] + Contribution(count, rating)];
    }
  }

  /** `day10part1` (rating false, lines 3-21) and `day10part2` (rating true,
      lines 23-40) after parsing. */
  method SumScores(g: Grid<nat>, rating: bool) returns (total: nat)
    requires HeightMap(g)
    ensures total == Total(g, FindAll(g, 9), FindAll(g, 0), rating)
  {
    var peaks := FindAll(g, 9);
    var ths := FindAll(g, 0);
    assert forall k :: 0 <= k < |peaks| ==> peaks[k] in peaks;
    assert forall k :: 0 <= k < |ths| ==> ths[k] in ths;
    var scores := TrailheadScores(g, peaks, ths, rating);
    total := 0;
    for i := 0 to |ths|
      invariant total == Total(g, peaks, ths[..i], rating)
    {
      assert ths[..i + 1][..i] == ths[..i];
      total := total + scores[i];
    }
    assert ths[..|ths|] == ths;
  }

  /** Lines 9-18 and 29-37: the score of every trailhead. */
  method TrailheadScores(g: Grid<nat>, peaks: seq<Pos>, ths: seq<Pos>, rating: bool) returns (scores: seq<nat>)
    requires HeightMap(g)
    requires forall k :: 0 <= k < |peaks| ==> InBox(g, peaks[k])
    requires forall i :: 0 <= i < |ths| ==> InBox(g, ths[i])
    ensures |scores| == |ths|
    ensures forall i :: 0 <= i < |ths| ==> scores[i] == Score(g, peaks, ths[i], rating)
  {
    scores := seq(|ths|, _ => 0);
    for k := 0 to |peaks|
      invariant |scores| == |ths|
      invariant forall i :: 0 <= i < |ths| ==> scores[i] == Score(g, peaks[..k], ths[i], rating)
    {
      var pm := BacktrackFromPeak(g, peaks[k]);
      scores := AddPeak(g, peaks[k], pm, ths, scores, rating);
      assert peaks[..k + 1][..k] == peaks[..k];
    }
    assert peaks[..|peaks|] == peaks;
  }

  /** A trail counted for part 1 is counted at least once in part 2: the
      rating never falls below the score. */
  lemma {:induction false} ScoreBelowRating(g: Grid<nat>, peaks: seq<Pos>, ths: seq<Pos>)
    requires HeightMap(g) && forall k :: 0 <= k < |peaks| ==> InBox(g, peaks[k])
    ensures Total(g, peaks, ths, false) <= Total(g, peaks, ths, true)
  {
    if |ths| > 0 {
      ScoreBelowRating(g, peaks, ths[..|ths| - 1]);
      ScoreBelowRatingOne(g, peaks, ths[|ths| - 1]);
    }
  }

  lemma {:induction false} ScoreBelowRatingOne(g: Grid<nat>, peaks: seq<Pos>, th: Pos)
    requires HeightMap(g) && forall k :: 0 <= k < |peaks| ==> InBox(g, peaks[k])
    ensures Score(g, peaks, th, false) <= Score(g, peaks, th, true)
  {
    if |peaks| > 0 {
      ScoreBelowRatingOne(g, peaks[..|peaks| - 1], th);
    }
  }

  // ---------------------------------------------------------------------------
  // Parsing

  /** `input.parse()` (lines 4 and 24, then lines 100-116): the map of the
      trimmed input's lines; an input that trims to nothing has no line and
      fails, where the source panics at `lines[0]`. */
  function Parse(input: string): (r: Option<Grid<nat>>)
    ensures Trim(input) == [] ==> r.None?
    ensures r.Some? ==> HeightMap(r.value) && r.value.width > 0
    ensures r.Some? ==> Rows(r.value) == |Lines(Trim(input))|
  {
    var lines := Lines(Trim(input));
    if ParseMap(lines).Some? then ParseMapCell(lines, 0, 0); ParseMap(lines)
    else None
  }

  /** `day10part1` (rating false) and `day10part2` (rating true) on the
      input: `None` where parsing fails and the source's `unwrap` panics,
      otherwise the sum of the trailhead scores. */
  method Solve(input: string, rating: bool) returns (r: Option<nat>)
    ensures r.Some? <==> Parse(input).Some?
    ensures r.Some? ==> r.value == Total(Parse(input).value, FindAll(Parse(input).value, 9), FindAll(Parse(input).value, 0), rating)
  {
    match Parse(input)
    case None => r := None;
    case Some(g) =>
      var total := SumScores(g, rating);
      r := Some(total);
  }

  /** `Map::from_str` (lines 100-116) on the trimmed input's lines: the width
      of the first line, every line as long, and each character a digit;
      `None` where the source panics or fails to parse: no line
      (`lines[0]`), an empty first line (`height` would divide by zero), a
      line of another width (the `assert!`), a character that is no digit. */
  function ParseMap(lines: seq<string>): (r: Option<Grid<nat>>)
    ensures r.Some? <==>
      && |lines| > 0 && |lines[0]| > 0
      && (forall i :: 0 <= i < |lines| ==> |lines[i]| == |lines[0]|)
      && (forall i :: 0 <= i < |lines| ==> AllDigits(lines[i]))
    ensures r.Some? ==> HeightMap(r.value) && r.value.width == |lines[0]|
    ensures r.Some? ==> |r.value.matrix| == r.value.width * |lines|
  {
    if |lines| == 0 || |lines[0]| == 0 then None
    else if exists i :: 0 <= i < |lines| && |lines[i]| != |lines[0]| then None
    else
      match ParseRows(lines, |lines[0]|)
      case None => None
      case Some(m) => Some(Grid(|lines[0]|, m))
  }

  /** The digits of the lines, row after row; `None` as soon as a line holds
      a character that is no digit. */
  function ParseRows(lines: seq<string>, w: nat): (r: Option<seq<nat>>)
    requires forall i :: 0 <= i < |lines| ==> |lines[i]| == w
    ensures r.Some? <==> forall i :: 0 <= i < |lines| ==> AllDigits(lines[i])
    ensures r.Some? ==> |r.value| == w * |lines| && forall i :: 0 <= i < |r.value| ==> r.value[i] < 10
  {
    if |lines| == 0 then Some([])
    else if !AllDigits(lines[0]) then None
    else
      match ParseRows(lines[1..], w)
      case None => None
      case Some(rest) =>
        var row := seq(w, i requires 0 <= i < w => DigitValue(lines[0][i]));
        Some(row + rest)
  }

  /** Row `y`, column `x` of the parsed rows is the digit at column `x` of
      line `y`. */
  lemma {:induction false} ParseRowsCell(lines: seq<string>, w: nat, x: nat, y: nat)
    requires forall i :: 0 <= i < |lines| ==> |lines[i]| == w && AllDigits(lines[i])
    requires x < w && y < |lines|
    ensures ParseRows(lines, w).Some? && CellIndex(w, x, y) < |ParseRows(lines, w).value|
    ensures ParseRows(lines, w).value[CellIndex(w, x, y)] == DigitValue(lines[y][x])
  {
    if y > 0 {
      ParseRowsCell(lines[1..], w, x, y - 1);
      CellIndexRow(w, x, y - 1);
    }
  }

  /** Every cell of the parsed map holds the digit written there, and the
      map has one row per line. */
  lemma ParseMapCell(lines: seq<string>, x: nat, y: nat)
    requires ParseMap(lines).Some?
    ensures Rows(ParseMap(lines).value) == |lines|
    ensures x < |lines[0]| && y < |lines| ==> Get(ParseMap(lines).value, (x, y)) == Some(DigitValue(lines[y][x]))
  {
    var g := ParseMap(lines).value;
    DivModUnique(|g.matrix|, g.width, |lines|, 0);
    if x < |lines[0]| && y < |lines| {
      ParseRowsCell(lines, g.width, x, y);
      CellIndexIs(g.width, x, y);
    }
  }
}
