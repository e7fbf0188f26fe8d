/** The character maps of days 16 and 20: a width and the tiles in
    row-major order, read from text one character per tile, with a
    bounds-checked `get` and a reading-order `find_all`. */
module Grid {
  import opened Common

  /** A column and a row, `i32` in the source; rows grow downwards. */
  type Pos = (int, int)

  // ---------------------------------------------------------------------------
  // Directions

  /** `Direction`. */
  datatype Direction = North | East | South | West

  /** There are four directions. */
  lemma Compass(d: Direction)
    ensures d == North || d == East || d == South || d == West
  {
  }

  /** `Direction::turn_right`. */
  function TurnRight(d: Direction): Direction
  {
    match d
    case North => East
    case East => South
    case South => West
    case West => North
  }

  /** `Direction::turn_left`. */
  function TurnLeft(d: Direction): Direction
  {
    match d
    case North => West
    case East => North
    case South => East
    case West => South
  }

  /** The two turns undo each other, four of either come back to where they
      started, and neither keeps or reverses the direction. */
  lemma Turns(d: Direction)
    ensures TurnLeft(TurnRight(d)) == d && TurnRight(TurnLeft(d)) == d
    ensures TurnRight(TurnRight(TurnRight(TurnRight(d)))) == d
    ensures TurnLeft(TurnLeft(TurnLeft(TurnLeft(d)))) == d
    ensures TurnRight(d) != d && TurnLeft(d) != d && TurnLeft(d) != TurnRight(d)
    ensures TurnRight(TurnRight(d)) == TurnLeft(TurnLeft(d))
  {
  }

  /** `Pos + Direction`: one cell along `d`. */
  function Step(p: Pos, d: Direction): (q: Pos)
    ensures Abs(q.0 - p.0) + Abs(q.1 - p.1) == 1
    ensures d == North || d == South <==> q.0 == p.0
  {
    match d
    case North => (p.0, p.1 - 1)
    case East => (p.0 + 1, p.1)
    case South => (p.0, p.1 + 1)
    case West => (p.0 - 1, p.1)
  }

  /** The direction of the step from `a` to `b`, if they are neighbours. */
  function Delta(a: Pos, b: Pos): (r: Option<Direction>)
    ensures r.Some? ==> Step(a, r.value) == b
    ensures r.None? ==> forall d :: Step(a, d) != b
  {
    if b == (a.0, a.1 - 1) then Some(North)
    else if b == (a.0 + 1, a.1) then Some(East)
    else if b == (a.0, a.1 + 1) then Some(South)
    else if b == (a.0 - 1, a.1) then Some(West)
    else None
  }

  /** A step is undone only by the step back; the direction of a step is
      the one it was taken in. */
  lemma DeltaStep(p: Pos, d: Direction)
    ensures Delta(p, Step(p, d)) == Some(d)
  {
  }

  // ---------------------------------------------------------------------------
  // The map

  /** `Map::height`: the number of full rows. */
  function Rows<T>(w: nat, t: seq<T>): nat
    requires w > 0
  {
    |t| / w
  }

  predicate InGrid<T>(w: nat, t: seq<T>, p: Pos)
    requires w > 0
  {
    0 <= p.0 < w && 0 <= p.1 < Rows(w, t)
  }

  /** The position of a cell in the matrix, `width * y + x`. */
  function Index<T>(w: nat, t: seq<T>, p: Pos): (i: nat)
    requires w > 0 && InGrid(w, t, p)
    ensures i < |t|
  {
    RowsIndexBound(w, |t|, p.0, p.1);
    CellIndexIs(w, p.0, p.1);
    CellIndex(w, p.0, p.1)
  }

  /** Two cells of the grid share no entry of the matrix. */
  lemma IndexInjective<T>(w: nat, t: seq<T>, p: Pos, q: Pos)
    requires w > 0 && InGrid(w, t, p) && InGrid(w, t, q) && p != q
    ensures Index(w, t, p) != Index(w, t, q)
  {
    CellIndexIs(w, p.0, p.1);
    CellIndexIs(w, q.0, q.1);
    if Index(w, t, p) == Index(w, t, q) {
      GridIndexUnique(w, p.0, p.1, q.0, q.1);
    }
  }

  /** `Map::get`: nothing exactly when `x < 0`, `y < 0`, `x >= width` or
      `y >= height`, otherwise entry `width * y + x`. */
  function At<T>(w: nat, t: seq<T>, p: Pos): (r: Option<T>)
    requires w > 0
    ensures r.None? <==> p.0 < 0 || p.1 < 0 || p.0 >= w || p.1 >= |t| / w
    ensures r.Some? ==> r.value == t[Index(w, t, p)]
  {
    if InGrid(w, t, p) then Some(t[Index(w, t, p)]) else None
  }

  /** Writing one cell of the grid changes what `get` sees there and
      nowhere else. */
  lemma AtUpdate<T>(w: nat, t: seq<T>, p: Pos, v: T, q: Pos)
    requires w > 0 && InGrid(w, t, p)
    ensures At(w, t[Index(w, t, p) := v], q) == if q == p then Some(v) else At(w, t, q)
  {
    if q != p && InGrid(w, t, q) {
      IndexInjective(w, t, p, q);
    }
  }

  /** Entry `i` of the full rows is the cell `(i % w, i / w)`, and no
      other cell has that index. */
  lemma CellOfIndex<T>(w: nat, t: seq<T>, i: nat)
    requires w > 0 && i < Rows(w, t) * w
    ensures InGrid(w, t, (i % w, i / w)) && Index(w, t, (i % w, i / w)) == i
    ensures forall q :: InGrid(w, t, q) && Index(w, t, q) == i ==> q == (i % w, i / w)
  {
    var p := (i % w, i / w);
    GridIndexCell(w, Rows(w, t), i);
    CellIndexIs(w, p.0, p.1);
    forall q | InGrid(w, t, q) && Index(w, t, q) == i
      ensures q == p
    {
      if q != p {
        IndexInjective(w, t, q, p);
      }
    }
  }

  /** Every cell of the grid has an index below the size of the full rows. */
  lemma IndexInRows<T>(w: nat, t: seq<T>, p: Pos)
    requires w > 0 && InGrid(w, t, p)
    ensures Index(w, t, p) < Rows(w, t) * w
  {
    CellIndexIs(w, p.0, p.1);
    GridIndexBound(w, Rows(w, t), p.0, p.1);
  }

  /** The first index from `i` on, below `n`, whose entry is `x`. */
  function FirstFrom<T(==)>(t: seq<T>, x: T, i: nat, n: nat): (r: Option<nat>)
    requires n <= |t|
    ensures r.Some? ==> i <= r.value < n && t[r.value] == x
    ensures r.Some? ==> forall j :: i <= j < r.value ==> t[j] != x
    ensures r.None? ==> forall j :: i <= j < n ==> t[j] != x
    decreases n - i
  {
    if i >= n then None
    else if t[i] == x then Some(i)
    else FirstFrom(t, x, i + 1, n)
  }

  /** `find_all(..).next()`: the first cell holding `x` in reading order,
      nothing when no cell does. */
  function FindFirst<T(==)>(w: nat, t: seq<T>, x: T): (r: Option<Pos>)
    requires w > 0
    ensures r.Some? ==> At(w, t, r.value) == Some(x)
    ensures r.Some? ==> forall p :: InGrid(w, t, p) && Index(w, t, p) < Index(w, t, r.value) ==> At(w, t, p) != Some(x)
    ensures r.None? ==> forall p :: InGrid(w, t, p) ==> At(w, t, p) != Some(x)
  {
    var n := Rows(w, t) * w;
    assert n <= |t| by {
      assert |t| == Rows(w, t) * w + |t| % w;
    }
    forall p | InGrid(w, t, p)
      ensures Index(w, t, p) < n
    {
      IndexInRows(w, t, p);
    }
    match FirstFrom(t, x, 0, n)
    case None => None
    case Some(k) =>
      CellOfIndex(w, t, k);
      Some((k % w, k / w))
  }

  // ---------------------------------------------------------------------------
  // Reading a map (`FromStr for Map`)

  /** Every character of the line reads as a tile. */
  predicate RowParses<T>(line: string, parse: char -> Option<T>)
  {
    forall i :: 0 <= i < |line| ==> parse(line[i]).Some?
  }

  /** The tiles of the lines, row after row. */
  function ParseRows<T>(lines: seq<string>, parse: char -> Option<T>): (r: seq<T>)
    requires forall y :: 0 <= y < |lines| ==> RowParses(lines[y], parse)
  {
    if |lines| == 0 then []
    else
      assert RowParses(lines[0], parse);
      seq(|lines[0]|, i requires 0 <= i < |lines[0]| => parse(lines[0][i]).value)
      + ParseRows(lines[1..], parse)
  }

  /** Lines of width `w` give `w` tiles each. */
  lemma {:induction false} ParseRowsLength<T>(lines: seq<string>, parse: char -> Option<T>, w: nat)
    requires forall i :: 0 <= i < |lines| ==> |lines[i]| == w && RowParses(lines[i], parse)
    ensures |ParseRows(lines, parse)| == CellIndex(w, 0, |lines|)
  {
    if |lines| > 0 {
      ParseRowsLength(lines[1..], parse, w);
      CellIndexRow(w, 0, |lines| - 1);
    }
  }

  /** Row `y`, column `x` of the parsed rows is character `x` of line `y`. */
  lemma {:induction false} ParseRowsCell<T>(lines: seq<string>, parse: char -> Option<T>, w: nat, x: nat, y: nat)
    requires forall i :: 0 <= i < |lines| ==> |lines[i]| == w && RowParses(lines[i], parse)
    requires x < w && y < |lines|
    ensures CellIndex(w, x, y) < |ParseRows(lines, parse)|
    ensures ParseRows(lines, parse)[CellIndex(w, x, y)] == parse(lines[y][x]).value
  {
    var rest := lines[1..];
    ParseRowsLength(rest, parse, w);
    if y > 0 {
      ParseRowsCell(rest, parse, w, x, y - 1);
      CellIndexRow(w, x, y - 1);
    }
  }

  /** `Map::from_str` on the input: the trimmed input's lines, the width of
      the first, every character a tile. Nothing where the source panics
      or fails: no line (`lines[0]`), an empty first line (`height` would
      divide by zero), a line of another width (the `assert!`), a character
      that is no tile. */
  function ParseGrid<T>(s: string, parse: char -> Option<T>): (r: Option<(nat, seq<T>)>)
    ensures var lines := Lines(Trim(s));
      r.Some? <==>
        && |lines| > 0 && |lines[0]| > 0
        && (forall y :: 0 <= y < |lines| ==> |lines[y]| == |lines[0]|)
        && (forall y :: 0 <= y < |lines| ==> RowParses(lines[y], parse))
    ensures r.Some? ==> r.value.0 == |Lines(Trim(s))[0]|
  {
    var lines := Lines(Trim(s));
    if |lines| == 0 || |lines[0]| == 0 then None
    else if exists y :: 0 <= y < |lines| && |lines[y]| != |lines[0]| then None
    else if exists y :: 0 <= y < |lines| && !RowParses(lines[y], parse) then None
    else Some((|lines[0]|, ParseRows(lines, parse)))
  }

  /** The parsed map has one full row per line. */
  lemma ParseGridShape<T>(s: string, parse: char -> Option<T>)
    requires ParseGrid(s, parse).Some?
    ensures var (w, t) := ParseGrid(s, parse).value; var lines := Lines(Trim(s));
      w > 0 && Rows(w, t) == |lines| && |t| == w * |lines|
  {
    var lines := Lines(Trim(s));
    var (w, t) := ParseGrid(s, parse).value;
    ParseRowsLength(lines, parse, w);
    CellIndexIs(w, 0, |lines|);
    RowsOfProduct(w, |lines|);
  }

  /** The parsed map has one full row per line, and the tile at column `x`,
      row `y` is what character `x` of line `y` reads as. */
  lemma ParseGridCells<T>(s: string, parse: char -> Option<T>, x: int, y: int)
    requires ParseGrid(s, parse).Some?
    ensures var (w, t) := ParseGrid(s, parse).value; var lines := Lines(Trim(s));
      && w > 0 && Rows(w, t) == |lines| && |t| == w * |lines|
      && (0 <= x < w && 0 <= y < |lines| ==> At(w, t, (x, y)) == parse(lines[y][x]))
  {
    var lines := Lines(Trim(s));
    var (w, t) := ParseGrid(s, parse).value;
    ParseGridShape(s, parse);
    if 0 <= x < w && 0 <= y < |lines| {
      ParseRowsCell(lines, parse, w, x, y);
    }
  }
}
