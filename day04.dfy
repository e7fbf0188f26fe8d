/** Day 4: word search. A rectangle of letters is searched for a word in all
    eight compass directions (part 1), and for two copies of a word crossing
    diagonally in a square (part 2). */
module Day04 {
  import opened Common

  datatype Direction = North | NorthEast | East | SouthEast | South | SouthWest | West | NorthWest

  /** x grows to the east and y to the south. */
  type Pos = (int, int)

  /** The unit offset of each direction (lines 27-36). */
  function Offset(d: Direction): (int, int)
  {
    match d
    case North => (0, -1)
    case NorthEast => (1, -1)
    case East => (1, 0)
    case SouthEast => (1, 1)
    case South => (0, 1)
    case SouthWest => (-1, 1)
    case West => (-1, 0)
    case NorthWest => (-1, -1)
  }

  /** `Pos + Direction` (lines 23-38): one of the eight neighbouring cells. */
  function Step(p: Pos, d: Direction): Pos
  {
    (p.0 + Offset(d).0, p.1 + Offset(d).1)
  }

  function Opposite(d: Direction): Direction
  {
    match d
    case North => South
    case NorthEast => SouthWest
    case East => West
    case SouthEast => NorthWest
    case South => North
    case SouthWest => NorthEast
    case West => East
    case NorthWest => SouthEast
  }

  /** A step leads to one of the eight neighbouring cells; it is undone by a
      step in the opposite direction, and different directions lead to
      different cells. */
  lemma StepProperties(p: Pos, d: Direction, e: Direction)
    ensures Abs(Step(p, d).0 - p.0) <= 1 && Abs(Step(p, d).1 - p.1) <= 1 && Step(p, d) != p
    ensures Step(Step(p, d), Opposite(d)) == p
    ensures d != e ==> Step(p, d) != Step(p, e)
  {
  }

  /** The cell `k` steps from `p` in direction `d`. */
  function Along(p: Pos, d: Direction, k: nat): Pos
  {
    if k == 0 then p else Step(Along(p, d, k - 1), d)
  }

  /** `k` steps add `k` times the offset. */
  lemma {:induction false} AlongLinear(p: Pos, d: Direction, k: nat)
    ensures Along(p, d, k) == (p.0 + k * Offset(d).0, p.1 + k * Offset(d).1)
  {
    if k > 0 {
      AlongLinear(p, d, k - 1);
    }
  }

  // ---------------------------------------------------------------------------
  // The grid

  /** `WordSearch` (lines 3-6): the letters in row-major order. */
  datatype WordSearch = WordSearch(width: nat, matrix: seq<char>)

  /** `height` (lines 44-46); the source divides by the width. */
  function Height(ws: WordSearch): nat
    requires ws.width > 0
  {
    |ws.matrix| / ws.width
  }

  /** `contains` (lines 48-51). */
  predicate Contains(ws: WordSearch, p: Pos)
    requires ws.width > 0
  {
    0 <= p.0 < ws.width && 0 <= p.1 < Height(ws)
  }

  /** `get` (lines 53-61): the letter at a cell of the grid, None off it. */
  function Get(ws: WordSearch, p: Pos): (r: Option<char>)
    requires ws.width > 0
    ensures r.Some? <==> Contains(ws, p)
  {
    if Contains(ws, p) then
      RowsIndexBound(ws.width, |ws.matrix|, p.0, p.1);
      CellIndexIs(ws.width, p.0, p.1);
      Some(ws.matrix[CellIndex(ws.width, p.0, p.1)])
    else None
  }

  /** A cell of the grid holds the letter at its row-major index. */
  lemma GetIndex(ws: WordSearch, p: Pos)
    requires ws.width > 0 && Contains(ws, p)
    ensures ws.width * p.1 + p.0 < |ws.matrix| && Get(ws, p) == Some(ws.matrix[ws.width * p.1 + p.0])
  {
    RowsIndexBound(ws.width, |ws.matrix|, p.0, p.1);
    CellIndexIs(ws.width, p.0, p.1);
  }

  /** `needle` reads from `p` in direction `d`. */
  predicate WordAt(ws: WordSearch, p: Pos, needle: string, d: Direction)
    requires ws.width > 0
  {
    forall k :: 0 <= k < |needle| ==> Get(ws, Along(p, d, k)) == Some(needle[k])
  }

  /** `test_word` (lines 76-84). */
  method TestWord(ws: WordSearch, p: Pos, needle: string, d: Direction) returns (b: bool)
    requires ws.width > 0
    ensures b <==> WordAt(ws, p, needle, d)
  {
    var pos := p;
    for i := 0 to |needle|
      invariant pos == Along(p, d, i)
      invariant PrefixAt(ws, p, needle, d, i)
    {
      if Get(ws, pos) != Some(needle[i]) {
        return false;
      }
      PrefixAtStep(ws, p, needle, d, i);
      pos := Step(pos, d);
    }
    return true;
  }

  /** The first `i` letters of `needle` read from `p` in direction `d`. */
  predicate PrefixAt(ws: WordSearch, p: Pos, needle: string, d: Direction, i: nat)
    requires ws.width > 0 && i <= |needle|
  {
    forall k :: 0 <= k < i ==> Get(ws, Along(p, d, k)) == Some(needle[k])
  }

  lemma PrefixAtStep(ws: WordSearch, p: Pos, needle: string, d: Direction, i: nat)
    requires ws.width > 0 && i < |needle|
    requires PrefixAt(ws, p, needle, d, i)
    requires Get(ws, Along(p, d, i)) == Some(needle[i])
    ensures PrefixAt(ws, p, needle, d, i + 1)
  {
  }

  /** An occurrence of a word is its letters at `p + k * d`. */
  lemma WordAtOffsets(ws: WordSearch, p: Pos, needle: string, d: Direction)
    requires ws.width > 0
    ensures WordAt(ws, p, needle, d) <==>
      forall k :: 0 <= k < |needle| ==> Get(ws, (p.0 + k * Offset(d).0, p.1 + k * Offset(d).1)) == Some(needle[k])
  {
    forall k | 0 <= k < |needle| {
      AlongLinear(p, d, k);
    }
  }

  // ---------------------------------------------------------------------------
  // Scans

  /** `a` comes before `b` in row-major order. */
  predicate Before(a: Pos, b: Pos)
  {
    a.1 < b.1 || (a.1 == b.1 && a.0 < b.0)
  }

  predicate RowMajor(r: seq<Pos>)
  {
    forall i, j :: 0 <= i < j < |r| ==> Before(r[i], r[j])
  }

  /** The cells of the grid scanned before `(x, y)`. */
  predicate Scanned(q: Pos, x: int, y: int)
  {
    q.1 < y || (q.1 == y && q.0 < x)
  }

  /** `find_in_dir` (lines 63-74): every cell where the word starts in
      direction `d`, in row-major order. */
  method FindInDir(ws: WordSearch, needle: string, d: Direction) returns (r: seq<Pos>)
    requires ws.width > 0
    ensures forall q :: q in r <==> Contains(ws, q) && WordAt(ws, q, needle, d)
    ensures RowMajor(r)
  {
    ghost var hit: Pos -> bool := q => Contains(ws, q) && WordAt(ws, q, needle, d);
    r := [];
    for y := 0 to Height(ws)
      invariant forall q :: q in r <==> hit(q) && q.1 < y
      invariant RowMajor(r)
      invariant forall q :: q in r ==> q.1 < y
    {
      for x := 0 to ws.width
        invariant forall q :: q in r <==> hit(q) && Scanned(q, x, y)
        invariant RowMajor(r)
        invariant forall q :: q in r ==> Scanned(q, x, y)
      {
        var b := TestWord(ws, (x, y), needle, d);
        r := ScanStep(r, x, y, b, hit);
      }
    }
  }

  const DIRECTIONS: seq<Direction> :=
    [North, NorthEast, East, SouthEast, South, SouthWest, West, NorthWest]

  /** The place of each direction in the order `find` tries them: every
      direction is tried, and each once. */
  function DirectionIndex(d: Direction): (i: nat)
    ensures i < |DIRECTIONS| && DIRECTIONS[i] == d
  {
    match d
    case North => 0
    case NorthEast => 1
    case East => 2
    case SouthEast => 3
    case South => 4
    case SouthWest => 5
    case West => 6
    case NorthWest => 7
  }

  lemma DirectionIndexOf(i: nat)
    requires i < |DIRECTIONS|
    ensures DirectionIndex(DIRECTIONS[i]) == i
  {
  }

  /** `find` (lines 86-103): every occurrence of the word in any direction,
      each once. */
  method Find(ws: WordSearch, needle: string) returns (r: seq<(Pos, Direction)>)
    requires ws.width > 0
    ensures forall q, d :: (q, d) in r <==> Contains(ws, q) && WordAt(ws, q, needle, d)
    ensures Distinct(r)
  {
    r := [];
    for i := 0 to |DIRECTIONS|
      invariant forall q, d :: (q, d) in r <==> DirectionIndex(d) < i && Found(ws, q, needle, d)
      invariant Distinct(r)
    {
      var d := DIRECTIONS[i];
      var hits := FindInDir(ws, needle, d);
      DirectionIndexOf(i);
      r := AddHits(r, hits, d);
    }
  }

  /** The word starts at a cell of the grid in direction `d`. */
  predicate Found(ws: WordSearch, q: Pos, needle: string, d: Direction)
    requires ws.width > 0
  {
    Contains(ws, q) && WordAt(ws, q, needle, d)
  }

  /** The inner loop of lines 95-99: the hits in direction `d` appended. */
  method AddHits(r: seq<(Pos, Direction)>, hits: seq<Pos>, d: Direction) returns (r': seq<(Pos, Direction)>)
    requires Distinct(r) && RowMajor(hits)
    requires forall q :: (q, d) !in r
    ensures forall q, e :: (q, e) in r' <==> (q, e) in r || (e == d && q in hits)
    ensures Distinct(r')
  {
    r' := r;
    for j := 0 to |hits|
      invariant |r'| == |r| + j && r'[..|r|] == r
      invariant forall k :: 0 <= k < j ==> r'[|r| + k] == (hits[k], d)
      invariant forall q, e :: (q, e) in r' <==> (q, e) in r || (e == d && q in hits[..j])
      invariant Distinct(r')
    {
      assert forall k :: 0 <= k < j ==> Before(hits[k], hits[j]);
      r' := r' + [(hits[j], d)];
    }
    assert hits[..|hits|] == hits;
  }

  /** `find_x`'s test at `p` (lines 106-121): with `w` one less than the
      word's length, the word runs down-right from the top left corner of the
      square of side `w + 1` at `p`, or up-left from its bottom right corner,
      and also down-left from its top right corner or up-right from its
      bottom left corner. */
  predicate XAt(ws: WordSearch, p: Pos, needle: string)
    requires ws.width > 0 && |needle| >= 1
  {
    var w := |needle| - 1;
    var p1, p2, p3, p4 := p, (p.0 + w, p.1), (p.0, p.1 + w), (p.0 + w, p.1 + w);
    || (WordAt(ws, p1, needle, SouthEast) && WordAt(ws, p2, needle, SouthWest))
    || (WordAt(ws, p1, needle, SouthEast) && WordAt(ws, p3, needle, NorthEast))
    || (WordAt(ws, p2, needle, SouthWest) && WordAt(ws, p4, needle, NorthWest))
    || (WordAt(ws, p3, needle, NorthEast) && WordAt(ws, p4, needle, NorthWest))
  }

  /** The top left corners of the crossings counted by part 2. */
  ghost function Crossings(ws: WordSearch, needle: string): set<Pos>
    requires ws.width > 0 && |needle| >= 1
  {
    set x: nat, y: nat | x < ws.width && y < Height(ws) && XAt(ws, (x, y), needle) :: (x, y)
  }

  lemma CrossingsAre(ws: WordSearch, needle: string)
    requires ws.width > 0 && |needle| >= 1
    ensures forall q :: q in Crossings(ws, needle) <==> Contains(ws, q) && XAt(ws, q, needle)
  {
    forall q | Contains(ws, q) && XAt(ws, q, needle)
      ensures q in Crossings(ws, needle)
    {
      var x: nat, y: nat := q.0, q.1;
      assert (x, y) == q;
    }
  }

  /** `find_x` (lines 105-128): the top left corners of the crossings, in
      row-major order. An empty word underflows the length and panics. */
  method FindX(ws: WordSearch, needle: string) returns (r: seq<Pos>)
    requires ws.width > 0 && |needle| >= 1
    ensures forall q :: q in r <==> Contains(ws, q) && XAt(ws, q, needle)
    ensures RowMajor(r)
  {
    ghost var hit: Pos -> bool := q => Contains(ws, q) && XAt(ws, q, needle);
    r := [];
    for y := 0 to Height(ws)
      invariant forall q :: q in r <==> hit(q) && q.1 < y
      invariant RowMajor(r)
      invariant forall q :: q in r ==> q.1 < y
    {
      for x := 0 to ws.width
        invariant forall q :: q in r <==> hit(q) && Scanned(q, x, y)
        invariant RowMajor(r)
        invariant forall q :: q in r ==> Scanned(q, x, y)
      {
        var b := TestX(ws, (x, y), needle);
        r := ScanStep(r, x, y, b, hit);
      }
    }
  }

  /** One cell of a row-major scan: the cell is appended when the test
      holds. */
  method ScanStep(r: seq<Pos>, x: int, y: int, b: bool, ghost hit: Pos -> bool) returns (r': seq<Pos>)
    requires forall q :: q in r <==> hit(q) && Scanned(q, x, y)
    requires RowMajor(r) && forall q :: q in r ==> Scanned(q, x, y)
    requires b == hit((x, y))
    ensures forall q :: q in r' <==> hit(q) && Scanned(q, x + 1, y)
    ensures RowMajor(r') && forall q :: q in r' ==> Scanned(q, x + 1, y)
  {
    if b {
      assert forall i :: 0 <= i < |r| ==> r[i] in r;
      r' := r + [(x, y)];
    } else {
      r' := r;
    }
  }

  /** The test of lines 110-121 at one cell; `test_word` has no effects, so
      each of its four calls is made once. */
  method TestX(ws: WordSearch, p: Pos, needle: string) returns (b: bool)
    requires ws.width > 0 && |needle| >= 1
    ensures b <==> XAt(ws, p, needle)
  {
    var w := |needle| - 1;
    var se := TestWord(ws, p, needle, SouthEast);
    var sw := TestWord(ws, (p.0 + w, p.1), needle, SouthWest);
    var ne := TestWord(ws, (p.0, p.1 + w), needle, NorthEast);
    var nw := TestWord(ws, (p.0 + w, p.1 + w), needle, NorthWest);
    b := (se && sw) || (se && ne) || (sw && nw) || (ne && nw);
  }

  /** The two words of a crossing meet in the middle of the square: for a
      word of odd length its middle letter sits at the square's centre. */
  lemma XAtCentre(ws: WordSearch, p: Pos, needle: string)
    requires ws.width > 0 && |needle| % 2 == 1 && XAt(ws, p, needle)
    ensures Get(ws, (p.0 + |needle| / 2, p.1 + |needle| / 2)) == Some(needle[|needle| / 2])
  {
    var m := |needle| / 2;
    var w := |needle| - 1;
    var c := (p.0 + m, p.1 + m);
    if WordAt(ws, p, needle, SouthEast) {
      WordLetter(ws, p, needle, SouthEast, m, c);
    } else if WordAt(ws, (p.0 + w, p.1), needle, SouthWest) {
      WordLetter(ws, (p.0 + w, p.1), needle, SouthWest, m, c);
    } else {
      WordLetter(ws, (p.0 + w, p.1 + w), needle, NorthWest, m, c);
    }
  }

  /** The `k`-th letter of an occurrence lies `k` offsets from its start. */
  lemma WordLetter(ws: WordSearch, q: Pos, needle: string, d: Direction, k: nat, c: Pos)
    requires ws.width > 0 && WordAt(ws, q, needle, d) && k < |needle|
    requires c == (q.0 + k * Offset(d).0, q.1 + k * Offset(d).1)
    ensures Get(ws, c) == Some(needle[k])
  {
    AlongLinear(q, d, k);
  }

  // ---------------------------------------------------------------------------
  // Parsing

  /** The grid the text describes: its lines padded with spaces to the
      longest. No lines at all: None. */
  function Grid(s: string): (r: Option<WordSearch>)
    ensures r.None? <==> |Lines(s)| == 0
    ensures r.Some? ==> r.value.width == MaxLen(Lines(s)) && |r.value.matrix| == |Lines(s)| * r.value.width
    ensures r.Some? ==> forall y: nat, x: nat :: y < |Lines(s)| && x < r.value.width ==>
      CellIndex(r.value.width, x, y) < |r.value.matrix| && r.value.matrix[CellIndex(r.value.width, x, y)] == Padded(Lines(s), x, y)
  {
    var lines := Lines(s);
    if |lines| == 0 then None
    else
      var w := MaxLen(lines);
      var m := PaddedRows(lines, w);
      CellIndexIs(w, 0, |lines|);
      assert forall y: nat, x: nat :: y < |lines| && x < w ==>
          CellIndex(w, x, y) < |m| && m[CellIndex(w, x, y)] == Padded(lines, x, y) by {
        forall y: nat, x: nat | y < |lines| && x < w {
          PaddedRowsCell(lines, w, x, y);
        }
      }
      Some(WordSearch(w, m))
  }

  /** The first `y` rows, and the first `x` letters of row `y`, are filled in. */
  ghost predicate Filled(m: seq<char>, lines: seq<string>, w: nat, x: nat, y: nat)
    requires y <= |lines|
  {
    forall yy: nat, xx: nat :: yy < |lines| && xx < w && (yy < y || (yy == y && xx < x)) ==>
      CellIndex(w, xx, yy) < |m| && m[CellIndex(w, xx, yy)] == Padded(lines, xx, yy)
  }

  /** `from_str` (lines 134-146), filling a matrix of spaces line by line.
      No lines at all make the source's `unwrap` panic: None. */
  method FromStr(s: string) returns (r: Option<WordSearch>)
    ensures r == Grid(s)
  {
    var lines := Lines(s);
    if |lines| == 0 {
      return None;
    }
    var width := MaxLen(lines);
    var height := |lines|;
    var matrix := new char[height * width](_ => ' ');
    CellIndexIs(width, 0, height);
    for y := 0 to height
      invariant Filled(matrix[..], lines, width, 0, y)
      invariant forall i :: CellIndex(width, 0, y) <= i < matrix.Length ==> matrix[i] == ' '
    {
      FillRow(matrix, lines, width, y);
    }
    var g := Grid(s).value;
    SameCells(matrix[..], g.matrix, width, height);
    r := Some(WordSearch(width, matrix[..]));
  }

  /** Two row-major grids of the same size that agree on every cell are
      equal. */
  lemma {:induction false} SameCells(a: seq<char>, b: seq<char>, w: nat, h: nat)
    requires |a| == |b| == w * h
    requires forall y: nat, x: nat :: y < h && x < w ==>
      CellIndex(w, x, y) < |a| && CellIndex(w, x, y) < |b| && a[CellIndex(w, x, y)] == b[CellIndex(w, x, y)]
    ensures a == b
  {
    forall i | 0 <= i < |a|
      ensures a[i] == b[i]
    {
      GridIndexCell(w, h, i);
      CellIndexIs(w, i % w, i / w);
      assert CellIndex(w, i % w, i / w) == i;
    }
  }

  /** Lines 140-143 for row `y`: its characters, after which the spaces the
      matrix started with remain. */
  method FillRow(matrix: array<char>, lines: seq<string>, width: nat, y: nat)
    requires y < |lines| && matrix.Length == CellIndex(width, 0, |lines|)
    requires forall i :: 0 <= i < |lines| ==> |lines[i]| <= width
    requires Filled(matrix[..], lines, width, 0, y)
    requires forall i :: CellIndex(width, 0, y) <= i < matrix.Length ==> matrix[i] == ' '
    modifies matrix
    ensures Filled(matrix[..], lines, width, 0, y + 1)
    ensures forall i :: CellIndex(width, 0, y + 1) <= i < matrix.Length ==> matrix[i] == ' '
  {
    var line := lines[y];
    if width > 0 {
      CellIndexBelow(width, width - 1, y, |lines|);
    }
    for x := 0 to |line|
      invariant Filled(matrix[..], lines, width, x, y)
      invariant forall i :: CellIndex(width, x, y) <= i < matrix.Length ==> matrix[i] == ' '
    {
      CellIndexIs(width, x, y);
      WriteCell(matrix, lines, width, x, y);
    }
    CellIndexRow(width, |line|, y);
    forall yy: nat, xx: nat | yy < |lines| && xx < width && yy <= y
      ensures CellIndex(width, xx, yy) < matrix.Length && matrix[CellIndex(width, xx, yy)] == Padded(lines, xx, yy)
    {
      if yy == y && xx >= |line| {
        CellIndexRow(width, xx, y);
        CellIndexBelow(width, xx, y, |lines|);
      }
    }
  }

  /** Line 142 at column `x`: the one cell `(x, y)` gets the line's letter. */
  method WriteCell(matrix: array<char>, lines: seq<string>, width: nat, x: nat, y: nat)
    requires y < |lines| && x < |lines[y]| <= width && matrix.Length == CellIndex(width, 0, |lines|)
    requires Filled(matrix[..], lines, width, x, y)
    requires forall i :: CellIndex(width, x, y) <= i < matrix.Length ==> matrix[i] == ' '
    modifies matrix
    ensures Filled(matrix[..], lines, width, x + 1, y)
    ensures forall i :: CellIndex(width, x + 1, y) <= i < matrix.Length ==> matrix[i] == ' '
  {
    CellIndexBelow(width, x, y, |lines|);
    var idx := x + y * width;
    CellIndexIs(width, x, y);
    matrix[idx] := lines[y][x];
    forall yy: nat, xx: nat | yy < |lines| && xx < width && (yy < y || (yy == y && xx < x))
      ensures CellIndex(width, xx, yy) < matrix.Length && matrix[CellIndex(width, xx, yy)] == Padded(lines, xx, yy)
    {
      CellIndexIs(width, xx, yy);
      if CellIndex(width, xx, yy) == idx {
        GridIndexUnique(width, xx, yy, x, y);
      }
    }
    CellIndexIs(width, x + 1, y);
  }

  // ---------------------------------------------------------------------------
  // The answers

  /** The occurrences of `needle` counted by part 1: start cell and
      direction. */
  ghost function Occurrences(ws: WordSearch, needle: string): set<(Pos, Direction)>
    requires ws.width > 0
  {
    set x: nat, y: nat, d: Direction | x < ws.width && y < Height(ws) && WordAt(ws, (x, y), needle, d) :: ((x, y), d)
  }

  /** `day04part1` (lines 149-152): the number of occurrences of "XMAS". An
      input without a letter has width 0 and makes the source panic: None. */
  method Part1(input: string) returns (r: Option<nat>)
    ensures r.Some? <==> Grid(input).Some? && Grid(input).value.width > 0
    ensures r.Some? ==> r.value == |Occurrences(Grid(input).value, "XMAS")|
  {
    var parsed := FromStr(input);
    if parsed.None? || parsed.value.width == 0 {
      return None;
    }
    var ws := parsed.value;
    var found := Find(ws, "XMAS");
    DistinctCard(found);
    forall e | e in found
      ensures e in Occurrences(ws, "XMAS")
    {
      var x: nat, y: nat := e.0.0, e.0.1;
      assert ((x, y), e.1) == e;
    }
    assert (set x | x in found) == Occurrences(ws, "XMAS");
    r := Some(|found|);
  }

  /** `day04part2` (lines 154-157): the number of crossings of "MAS". */
  method Part2(input: string) returns (r: Option<nat>)
    ensures r.Some? <==> Grid(input).Some? && Grid(input).value.width > 0
    ensures r.Some? ==> r.value == |Crossings(Grid(input).value, "MAS")|
  {
    var parsed := FromStr(input);
    if parsed.None? || parsed.value.width == 0 {
      return None;
    }
    var ws := parsed.value;
    var found := FindX(ws, "MAS");
    assert Distinct(found) by {
      forall i, j | 0 <= i < j < |found| ensures found[i] != found[j] {
        assert Before(found[i], found[j]);
      }
    }
    DistinctCard(found);
    CrossingsAre(ws, "MAS");
    assert (set x | x in found) == Crossings(ws, "MAS");
    r := Some(|found|);
  }
}
