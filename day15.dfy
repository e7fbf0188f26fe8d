/** Day 15: warehouse woes. A robot walks a warehouse of walls and boxes,
    pushing every box in its way unless the row of boxes is stopped by a
    wall. Part 2 widens the warehouse: every box becomes two cells wide, and
    a box pushed up or down pushes both boxes it rests against. The answer
    is the sum of `x + 100 * y` over the boxes once the robot is done. */
module Day15 {
  import opened Common
  import opened Grid

  /** `Tile` (lines 48-54). */
  datatype Tile = Empty | Box | Wall | Robot

  /** `Tile2` (lines 56-63): the tiles of the widened warehouse. */
  datatype Tile2 = Empty | LeftBox | RightBox | Wall | Robot

  /** `Move` (lines 102-108). */
  datatype Move = Up | Down | Left | Right

  // ---------------------------------------------------------------------------
  // Moves (lines 110-156)

  /** `Move::from_char`: the four arrows, nothing for any other character. */
  function FromChar(c: char): (r: Option<Move>)
    ensures r.Some? <==> c == '^' || c == 'v' || c == '<' || c == '>'
  {
    match c
    case '^' => Some(Up)
    case 'v' => Some(Down)
    case '<' => Some(Left)
    case '>' => Some(Right)
    case _ => None
  }

  /** `Display for Move`: the arrow of a move. */
  function ToChar(m: Move): char
  {
    match m
    case Up => '^'
    case Down => 'v'
    case Left => '<'
    case Right => '>'
  }

  /** Reading an arrow gives the move it shows, and only that arrow reads as
      that move. */
  lemma FromCharToChar(m: Move, c: char)
    ensures FromChar(ToChar(m)) == Some(m)
    ensures FromChar(c) == Some(m) ==> ToChar(m) == c
  {
  }

  /** `Move::x`. */
  function Dx(m: Move): int
  {
    match m
    case Right => 1
    case Left => -1
    case _ => 0
  }

  /** `Move::y`: rows grow downwards. */
  function Dy(m: Move): int
  {
    match m
    case Down => 1
    case Up => -1
    case _ => 0
  }

  /** Each move is one step along one axis. */
  lemma UnitMoves(m: Move)
    ensures Abs(Dx(m)) + Abs(Dy(m)) == 1
    ensures Dy(m) == 0 <==> m == Left || m == Right
  {
  }

  function Next(p: Pos, m: Move): Pos
  {
    (p.0 + Dx(m), p.1 + Dy(m))
  }

  /** `parse_moves`: the arrows of the text in order, every other character
      (the line breaks above all) skipped. */
  function ParseMoves(s: string): (r: seq<Move>)
    ensures |r| <= |s|
  {
    if |s| == 0 then []
    else
      var rest := ParseMoves(s[1..]);
      match FromChar(s[0])
      case Some(m) => [m] + rest
      case None => rest
  }

  function ShowMoves(ms: seq<Move>): (s: string)
    ensures |s| == |ms|
  {
    if |ms| == 0 then [] else [ToChar(ms[0])] + ShowMoves(ms[1..])
  }

  /** Reading the arrows of a list of moves, with any non-arrow text mixed
      in after each, gives the moves back. */
  lemma {:induction false} ParseShowMoves(ms: seq<Move>, noise: string)
    requires forall i :: 0 <= i < |noise| ==> FromChar(noise[i]).None?
    ensures ParseMoves(ShowMoves(ms)) == ms
    ensures ParseMoves(noise + ShowMoves(ms)) == ms
  {
    if |noise| > 0 {
      assert (noise + ShowMoves(ms))[1..] == noise[1..] + ShowMoves(ms);
      ParseShowMoves(ms, noise[1..]);
    } else if |ms| > 0 {
      assert ShowMoves(ms)[1..] == ShowMoves(ms[1..]);
      ParseShowMoves(ms[1..], noise);
      assert noise + ShowMoves(ms) == ShowMoves(ms);
    } else {
      assert noise + ShowMoves(ms) == [];
    }
  }

  // ---------------------------------------------------------------------------
  // The map as a value: a width and the tiles in row-major order

  /** Overwriting the tile at `c` through its mutable reference, on the
      matrix: it holds one `v` more and one of the overwritten tile fewer. */
  function Write<T>(w: nat, t: seq<T>, c: Pos, v: T): (r: seq<T>)
    requires w > 0 && InGrid(w, t, c)
    ensures |r| == |t|
  {
    t[Index(w, t, c) := v]
  }

  /** A write trades the overwritten tile `u` for one `v`. */
  lemma WriteTiles<T>(w: nat, t: seq<T>, c: Pos, u: T, v: T)
    requires w > 0 && At(w, t, c) == Some(u)
    ensures multiset(Write(w, t, c, v)) + multiset{u} == multiset(t) + multiset{v}
  {
    assert t[Index(w, t, c)] == u;
  }

  /** Trading an `a` for an `x` and then a `b` for a `y` trades the pair. */
  lemma TradeTwo<T>(m: multiset<T>, m1: multiset<T>, m2: multiset<T>, a: T, b: T, x: T, y: T)
    requires m1 + multiset{a} == m + multiset{x}
    requires m2 + multiset{b} == m1 + multiset{y}
    ensures m2 + multiset{a, b} == m + multiset{x, y}
  {
    forall z
      ensures (m2 + multiset{a, b})[z] == (m + multiset{x, y})[z]
    {
      assert (m1 + multiset{a})[z] == (m + multiset{x})[z];
      assert (m2 + multiset{b})[z] == (m1 + multiset{y})[z];
    }
  }

  /** After a write, cell `c` holds `v` and every other cell what it held. */
  lemma WriteCell<T>(w: nat, t: seq<T>, c: Pos, v: T, q: Pos)
    requires w > 0 && InGrid(w, t, c)
    ensures At(w, Write(w, t, c, v), q) == if q == c then Some(v) else At(w, t, q)
  {
    if InGrid(w, t, q) && q != c {
      IndexInjective(w, t, q, c);
    }
  }

  lemma WriteAt<T>(w: nat, t: seq<T>, c: Pos, v: T)
    requires w > 0 && InGrid(w, t, c)
    ensures forall q :: At(w, Write(w, t, c, v), q) == if q == c then Some(v) else At(w, t, q)
  {
    forall q {
      WriteCell(w, t, c, v, q);
    }
  }

  /** The positions of the entries equal to `x` among the first `n` cells in
      reading order (`find_all`, lines 210-221). */
  function Occurrences<T(==)>(w: nat, t: seq<T>, x: T, n: nat): (r: seq<Pos>)
    requires w > 0 && n <= Rows(w, t) * w
    ensures forall p :: p in r <==> InGrid(w, t, p) && Index(w, t, p) < n && At(w, t, p) == Some(x)
    ensures forall i, j :: 0 <= i < j < |r| ==> Index(w, t, r[i]) < Index(w, t, r[j])
  {
    if n == 0 then []
    else
      var rest := Occurrences(w, t, x, n - 1);
      CellOfIndex(w, t, n - 1);
      if t[n - 1] == x then rest + [((n - 1) % w, (n - 1) / w)] else rest
  }

  /** The sum of the GPS coordinates `x + 100 * y` (lines 21-23, 42-44). */
  function Gps(ps: seq<Pos>): int
  {
    if |ps| == 0 then 0 else Gps(ps[..|ps| - 1]) + ps[|ps| - 1].0 + 100 * ps[|ps| - 1].1
  }

  /** The GPS sum of every cell holding `x`. */
  function Score<T(==)>(w: nat, t: seq<T>, x: T): int
    requires w > 0
  {
    RowsFit(w, t);
    Gps(Occurrences(w, t, x, Rows(w, t) * w))
  }

  /** The map as the source holds it: a width and a matrix the moves update
      in place (lines 158-222). */
  class Map<T> {
    var width: nat
    var matrix: seq<T>

    constructor(width: nat, matrix: seq<T>)
      ensures this.width == width && this.matrix == matrix
    {
      this.width := width;
      this.matrix := matrix;
    }

    /** `get`. */
    function Get(x: int, y: int): Option<T>
      reads this
      requires width > 0
    {
      At(width, matrix, (x, y))
    }

    /** Overwrites the tile at `(x, y)` through its mutable reference. */
    method Put(x: int, y: int, v: T)
      requires width > 0 && InGrid(width, matrix, (x, y))
      modifies this
      ensures width == old(width)
      ensures CellIndex(width, x, y) == Index(width, old(matrix), (x, y))
      ensures matrix == old(matrix)[CellIndex(width, x, y) := v]
    {
      var i := width * y + x;
      assert i == Index(width, matrix, (x, y)) by {
        CellIndexIs(width, x, y);
      }
      matrix := matrix[i := v];
    }
  }

  /** Trading an `a` for a `b` and back leaves a multiset as it was. */
  lemma SwapBack<T>(m: multiset<T>, m1: multiset<T>, m2: multiset<T>, a: T, b: T)
    requires m1 + multiset{a} == m + multiset{b}
    requires m2 + multiset{b} == m1 + multiset{a}
    ensures m2 == m
  {
    forall z
      ensures m2[z] == m[z]
    {
      assert (m1 + multiset{a})[z] == (m + multiset{b})[z];
      assert (m2 + multiset{b})[z] == (m1 + multiset{a})[z];
    }
  }

  /** The full rows of a matrix fit in it. */
  lemma RowsFit<T>(w: nat, t: seq<T>)
    requires w > 0
    ensures Rows(w, t) * w <= |t|
  {
  }

  // ---------------------------------------------------------------------------
  // Pushing a row of boxes (`Map<Tile>::try_move`, lines 228-260)

  /** The number of cells from `p` to the edge of a `w` by `h` map in
      direction `d`, `p` included. */
  function Reach(w: nat, h: nat, p: Pos, d: Move): nat
  {
    var k := match d
      case Right => w - p.0
      case Left => p.0 + 1
      case Down => h - p.1
      case Up => p.1 + 1;
    if k < 0 then 0 else k
  }

  /** What a push can move along: a box or a robot. */
  predicate Movable(w: nat, t: seq<Tile>, p: Pos)
    requires w > 0
  {
    At(w, t, p) == Some(Box) || At(w, t, p) == Some(Tile.Robot)
  }

  /** The number of movable tiles in a row from `p` on in direction `d`. */
  function RunLength(w: nat, t: seq<Tile>, p: Pos, d: Move): nat
    requires w > 0
    decreases Reach(w, Rows(w, t), p, d)
  {
    if Movable(w, t, p) then 1 + RunLength(w, t, Next(p, d), d) else 0
  }

  /** The cell `k` steps from `p` in direction `d`. */
  function Offset(p: Pos, d: Move, k: int): Pos
  {
    match d
    case Right => (p.0 + k, p.1)
    case Left => (p.0 - k, p.1)
    case Down => (p.0, p.1 + k)
    case Up => (p.0, p.1 - k)
  }

  /** The tile at `p` can be pushed: it starts a run of movable tiles that
      ends at an empty cell. */
  predicate CanPush(w: nat, t: seq<Tile>, p: Pos, d: Move)
    requires w > 0
  {
    var k := RunLength(w, t, p, d);
    k > 0 && At(w, t, Offset(p, d, k)) == Some(Tile.Empty)
  }

  /** `c` is one of the `k` cells after `p` in direction `d`. */
  predicate OnRun(p: Pos, d: Move, k: int, c: Pos)
  {
    match d
    case Right => c.1 == p.1 && p.0 < c.0 <= p.0 + k
    case Left => c.1 == p.1 && p.0 - k <= c.0 < p.0
    case Down => c.0 == p.0 && p.1 < c.1 <= p.1 + k
    case Up => c.0 == p.0 && p.1 - k <= c.1 < p.1
  }

  /** `t'` is `t` with the run of `k` tiles from `p` shifted one cell along
      `d`: `p` is empty, each of the `k` cells after it holds what the cell
      before it held, and everything else is as it was. */
  ghost predicate Shifted(w: nat, t: seq<Tile>, t': seq<Tile>, p: Pos, d: Move, k: nat)
    requires w > 0
  {
    |t'| == |t| &&
    forall c :: InGrid(w, t, c) ==>
      At(w, t', c) == if c == p then Some(Tile.Empty)
                      else if OnRun(p, d, k, c) then At(w, t, Offset(c, d, -1))
                      else At(w, t, c)
  }

  /** The run from `p` is the tile at `p` and the run from the next cell. */
  lemma {:induction false} RunNext(w: nat, t: seq<Tile>, p: Pos, d: Move)
    requires w > 0 && Movable(w, t, p)
    ensures RunLength(w, t, p, d) == 1 + RunLength(w, t, Next(p, d), d)
    ensures Movable(w, t, Next(p, d)) ==> (CanPush(w, t, p, d) <==> CanPush(w, t, Next(p, d), d))
    ensures !Movable(w, t, Next(p, d)) ==> (CanPush(w, t, p, d) <==> At(w, t, Next(p, d)) == Some(Tile.Empty))
  {
    var q := Next(p, d);
    assert Offset(p, d, 1 + RunLength(w, t, q, d)) == Offset(q, d, RunLength(w, t, q, d));
  }

  /** Moving the tile at `p` onto the cell after it, once the run from that
      cell has been shifted, shifts the run from `p`. */
  lemma ShiftStep(w: nat, t: seq<Tile>, t1: seq<Tile>, p: Pos, d: Move, k: nat, obj: Tile)
    requires w > 0 && InGrid(w, t, p) && InGrid(w, t, Next(p, d)) && At(w, t, p) == Some(obj)
    requires Shifted(w, t, t1, Next(p, d), d, k)
    ensures InGrid(w, t1, Next(p, d)) && InGrid(w, t1, p)
    ensures Shifted(w, t, Write(w, Write(w, t1, Next(p, d), obj), p, Tile.Empty), p, d, k + 1)
  {
    var t3 := Write(w, Write(w, t1, Next(p, d), obj), p, Tile.Empty);
    forall c | InGrid(w, t, c)
      ensures At(w, t3, c) == if c == p then Some(Tile.Empty)
                              else if OnRun(p, d, k + 1, c) then At(w, t, Offset(c, d, -1))
                              else At(w, t, c)
    {
      ShiftCell(w, t, t1, p, d, k, obj, c);
    }
  }

  /** `ShiftStep` at one cell `c`. */
  lemma ShiftCell(w: nat, t: seq<Tile>, t1: seq<Tile>, p: Pos, d: Move, k: nat, obj: Tile, c: Pos)
    requires w > 0 && InGrid(w, t, p) && InGrid(w, t, Next(p, d)) && At(w, t, p) == Some(obj)
    requires Shifted(w, t, t1, Next(p, d), d, k) && InGrid(w, t, c)
    ensures InGrid(w, t1, Next(p, d)) && InGrid(w, t1, p)
    ensures At(w, Write(w, Write(w, t1, Next(p, d), obj), p, Tile.Empty), c)
         == if c == p then Some(Tile.Empty)
            else if OnRun(p, d, k + 1, c) then At(w, t, Offset(c, d, -1))
            else At(w, t, c)
  {
    var q := Next(p, d);
    var t2 := Write(w, t1, q, obj);
    WriteCell(w, t1, q, obj, c);
    WriteCell(w, t2, p, Tile.Empty, c);
    RunAfter(p, d, k, c);
  }

  /** The run of `k + 1` cells after `p` is the cell after `p`, then the run
      of `k` cells after that. */
  lemma RunAfter(p: Pos, d: Move, k: nat, c: Pos)
    ensures OnRun(p, d, k + 1, c) <==> c == Next(p, d) || OnRun(Next(p, d), d, k, c)
    ensures Offset(Next(p, d), d, -1) == p
  {
  }

  /** The last step of a successful push: the cell after `from` is empty,
      either from the start or once the run beyond it has been shifted, and
      the tile at `from` moves onto it. */
  lemma {:induction false} PushStep(w: nat, t: seq<Tile>, t1: seq<Tile>, from: Pos, d: Move, obj: Tile)
    requires w > 0 && At(w, t, from) == Some(obj) && Movable(w, t, from)
    requires var q := Next(from, d);
      || (At(w, t, q) == Some(Tile.Empty) && t1 == t)
      || (Movable(w, t, q) && CanPush(w, t, q, d) && multiset(t1) == multiset(t)
          && Shifted(w, t, t1, q, d, RunLength(w, t, q, d)))
    ensures InGrid(w, t1, Next(from, d)) && InGrid(w, t1, from)
    ensures Index(w, t1, Next(from, d)) == CellIndex(w, Next(from, d).0, Next(from, d).1)
    ensures Index(w, t1, from) == CellIndex(w, from.0, from.1)
    ensures var t3 := t1[CellIndex(w, Next(from, d).0, Next(from, d).1) := obj][CellIndex(w, from.0, from.1) := Tile.Empty];
      && CanPush(w, t, from, d)
      && Shifted(w, t, t3, from, d, RunLength(w, t, from, d))
      && multiset(t3) == multiset(t)
  {
    var q := Next(from, d);
    RunNext(w, t, from, d);
    if At(w, t, q) == Some(Tile.Empty) {
      assert Shifted(w, t, t, q, d, 0);
    }
    ShiftStep(w, t, t1, from, d, RunLength(w, t, q, d), obj);
    assert At(w, t1, q) == Some(Tile.Empty) && At(w, t1, from) == Some(obj);
    assert t1[Index(w, t1, q) := obj][Index(w, t1, from) := Tile.Empty]
      == Write(w, Write(w, t1, q, obj), from, Tile.Empty);
    WriteTiles(w, t1, q, Tile.Empty, obj);
    WriteCell(w, t1, q, obj, from);
    WriteTiles(w, Write(w, t1, q, obj), from, obj, Tile.Empty);
    SwapBack(multiset(t1), multiset(Write(w, t1, q, obj)),
      multiset(Write(w, Write(w, t1, q, obj), from, Tile.Empty)), Tile.Empty, obj);
  }

  /** A run is movable tiles up to its end. */
  lemma {:induction false} RunMovable(w: nat, t: seq<Tile>, p: Pos, d: Move, i: nat)
    requires w > 0 && i < RunLength(w, t, p, d)
    ensures Movable(w, t, Offset(p, d, i))
    decreases i
  {
    if i > 0 {
      RunMovable(w, t, Next(p, d), d, i - 1);
      assert Offset(Next(p, d), d, i - 1) == Offset(p, d, i);
    }
  }

  /** How many steps along `d` lead from `p` to `c`. */
  function Steps(p: Pos, d: Move, c: Pos): int
  {
    match d
    case Right => c.0 - p.0
    case Left => p.0 - c.0
    case Down => c.1 - p.1
    case Up => p.1 - c.1
  }

  lemma OnRunSteps(p: Pos, d: Move, k: int, c: Pos)
    requires OnRun(p, d, k, c)
    ensures 1 <= Steps(p, d, c) <= k
    ensures c == Offset(p, d, Steps(p, d, c)) && Offset(c, d, -1) == Offset(p, d, Steps(p, d, c) - 1)
  {
  }

  /** The cells a push fills held a box, the robot or the empty cell at the
      end of the run, and what moves onto them is a box or the robot. */
  lemma {:induction false} RunCell(w: nat, t: seq<Tile>, p: Pos, d: Move, c: Pos)
    requires w > 0 && CanPush(w, t, p, d) && OnRun(p, d, RunLength(w, t, p, d), c)
    ensures Movable(w, t, Offset(c, d, -1))
    ensures At(w, t, c) != Some(Tile.Wall)
  {
    var k := RunLength(w, t, p, d);
    var i := Steps(p, d, c);
    OnRunSteps(p, d, k, c);
    RunMovable(w, t, p, d, i - 1);
    if i < k {
      RunMovable(w, t, p, d, i);
    } else {
      assert i == k;
    }
  }

  /** A push leaves the source empty and moves no wall. */
  lemma {:induction false} ShiftedWalls(w: nat, t: seq<Tile>, t': seq<Tile>, p: Pos, d: Move)
    requires w > 0 && CanPush(w, t, p, d) && Shifted(w, t, t', p, d, RunLength(w, t, p, d))
    ensures At(w, t', p) == Some(Tile.Empty)
    ensures forall c :: At(w, t', c) == Some(Tile.Wall) <==> At(w, t, c) == Some(Tile.Wall)
  {
    var k := RunLength(w, t, p, d);
    RunMovable(w, t, p, d, 0);
    assert Offset(p, d, 0) == p;
    forall c | InGrid(w, t, c) && OnRun(p, d, k, c)
      ensures At(w, t', c) != Some(Tile.Wall) && At(w, t, c) != Some(Tile.Wall)
    {
      RunCell(w, t, p, d, c);
    }
  }

  /** What `try_move` promises: the tile at `p` moves one cell along `d`,
      pushing the run in front of it, exactly when that run ends at an empty
      cell; on success the run is shifted and the tile's new cell returned,
      otherwise nothing changes. Either way the map holds the same tiles. */
  ghost predicate Pushed(w: nat, t: seq<Tile>, t': seq<Tile>, p: Pos, d: Move, r: Option<Pos>)
    requires w > 0
  {
    && |t'| == |t|
    && multiset(t') == multiset(t)
    && (r.Some? <==> CanPush(w, t, p, d))
    && (r.None? ==> t' == t)
    && (r.Some? ==> r.value == Next(p, d) && Shifted(w, t, t', p, d, RunLength(w, t, p, d)))
  }

  /** A push that `try_move` refuses leaves the map alone. */
  lemma PushRefused(w: nat, t: seq<Tile>, p: Pos, d: Move)
    requires w > 0 && !CanPush(w, t, p, d)
    ensures Pushed(w, t, t, p, d, None)
  {
  }

  /** The two writes that end a successful push complete it. */
  lemma {:induction false} PushDone(w: nat, t: seq<Tile>, t1: seq<Tile>, from: Pos, d: Move, obj: Tile)
    requires w > 0 && At(w, t, from) == Some(obj) && Movable(w, t, from)
    requires var q := Next(from, d);
      || (At(w, t, q) == Some(Tile.Empty) && t1 == t)
      || (Movable(w, t, q) && Pushed(w, t, t1, q, d, Some(Next(q, d))))
    ensures InGrid(w, t1, Next(from, d)) && InGrid(w, t1, from)
    ensures Index(w, t1, Next(from, d)) == CellIndex(w, Next(from, d).0, Next(from, d).1)
    ensures Index(w, t1, from) == CellIndex(w, from.0, from.1)
    ensures Pushed(w, t, t1[CellIndex(w, Next(from, d).0, Next(from, d).1) := obj][CellIndex(w, from.0, from.1) := Tile.Empty],
      from, d, Some(Next(from, d)))
  {
    PushStep(w, t, t1, from, d, obj);
  }

  /** `Map<Tile>::try_move` on the matrix as a value: the answer and the
      map it leaves. A box or the robot moves onto the next cell when that
      cell is empty, or once the push from that cell has succeeded. */
  function Push(w: nat, t: seq<Tile>, p: Pos, d: Move): (r: (Option<Pos>, seq<Tile>))
    requires w > 0
    decreases Reach(w, Rows(w, t), p, d)
    ensures Pushed(w, t, r.1, p, d, r.0)
  {
    var here := At(w, t, p);
    if here.None? || here.value == Tile.Empty || here.value == Tile.Wall then
      PushRefused(w, t, p, d);
      (None, t)
    else
      var obj := here.value;
      assert obj == Box || obj == Tile.Robot;
      var q := Next(p, d);
      RunNext(w, t, p, d);
      var there := At(w, t, q);
      if there.None? then
        PushRefused(w, t, p, d);
        (None, t)
      else
        var (pushed, t1) := if there.value != Tile.Empty then Push(w, t, q, d) else (Some(q), t);
        if pushed.None? then
          PushRefused(w, t, p, d);
          (None, t1)
        else
          PushDone(w, t, t1, p, d, obj);
          (Some(q), t1[CellIndex(w, q.0, q.1) := obj][CellIndex(w, p.0, p.1) := Tile.Empty])
  }

  /** `Map<Tile>::try_move`. */
  method TryMove(m: Map<Tile>, from: Pos, d: Move) returns (r: Option<Pos>)
    requires m.width > 0
    modifies m
    decreases Reach(m.width, Rows(m.width, m.matrix), from, d)
    ensures m.width == old(m.width)
    ensures (r, m.matrix) == Push(m.width, old(m.matrix), from, d)
    ensures Pushed(m.width, old(m.matrix), m.matrix, from, d, r)
  {
    var w, t := m.width, m.matrix;
    var here := m.Get(from.0, from.1);
    if here.None? || here.value == Tile.Empty || here.value == Tile.Wall {
      return None;
    }
    var obj := here.value;
    var q := Next(from, d);
    var there := m.Get(q.0, q.1);
    if there.None? {
      return None;
    }
    if there.value != Tile.Empty {
      var pushed := TryMove(m, q, d);
      if pushed.None? {
        return None;
      }
    }
    PushDone(w, t, m.matrix, from, d, obj);
    m.Put(q.0, q.1, obj);
    m.Put(from.0, from.1, Tile.Empty);
    return Some(q);
  }

  // ---------------------------------------------------------------------------
  // The wide warehouse (`From<Tile>`, lines 65-74; `double`, lines 262-271)

  /** `From<Tile> for (Tile2, Tile2)`: the two halves of a widened tile. */
  function Widen(tile: Tile): (Tile2, Tile2)
  {
    match tile
    case Empty => (Tile2.Empty, Tile2.Empty)
    case Box => (LeftBox, RightBox)
    case Wall => (Tile2.Wall, Tile2.Wall)
    case Robot => (Tile2.Robot, Tile2.Empty)
  }

  /** The widened matrix: the two halves of each tile in its place. */
  function Doubled(t: seq<Tile>): (r: seq<Tile2>)
    ensures |r| == 2 * |t|
  {
    if |t| == 0 then [] else Doubled(t[..|t| - 1]) + [Widen(t[|t| - 1]).0, Widen(t[|t| - 1]).1]
  }

  lemma {:induction false} DoubledCells(t: seq<Tile>)
    ensures forall i :: 0 <= i < |t| ==>
      Doubled(t)[2 * i] == Widen(t[i]).0 && Doubled(t)[2 * i + 1] == Widen(t[i]).1
  {
    if |t| > 0 {
      var n := |t| - 1;
      DoubledCells(t[..n]);
      forall i | 0 <= i < n
        ensures Doubled(t)[2 * i] == Widen(t[i]).0 && Doubled(t)[2 * i + 1] == Widen(t[i]).1
      {
        assert t[..n][i] == t[i];
      }
    }
  }

  /** `double`: a map twice as wide, built by pushing the halves of each tile
      in turn. */
  method Double(m: Map<Tile>) returns (m2: Map<Tile2>)
    ensures fresh(m2)
    ensures m2.width == 2 * m.width && m2.matrix == Doubled(m.matrix)
  {
    var matrix: seq<Tile2> := [];
    for i := 0 to |m.matrix|
      invariant matrix == Doubled(m.matrix[..i])
    {
      var (l, r) := Widen(m.matrix[i]);
      matrix := matrix + [l];
      matrix := matrix + [r];
      assert m.matrix[..i + 1][..i] == m.matrix[..i];
    }
    assert m.matrix[..|m.matrix|] == m.matrix;
    m2 := new Map(2 * m.width, matrix);
  }

  lemma {:induction false} CellIndexDouble(w: nat, x: nat, y: nat)
    ensures CellIndex(2 * w, 2 * x, y) == 2 * CellIndex(w, x, y)
  {
    if y > 0 {
      CellIndexDouble(w, x, y - 1);
    }
  }

  /** The widened map has the rows of the original. */
  lemma {:induction false} DoubledRows(w: nat, t: seq<Tile>)
    requires w > 0
    ensures Rows(2 * w, Doubled(t)) == Rows(w, t)
  {
    DivModUnique(2 * |t|, 2 * w, |t| / w, 2 * (|t| % w));
  }

  /** Column `2x` and `2x + 1` of a row of the widened map hold the two
      halves of the tile at column `x`. */
  lemma {:induction false} DoubledAt(w: nat, t: seq<Tile>, x: int, y: int)
    requires w > 0 && InGrid(w, t, (x, y))
    ensures At(2 * w, Doubled(t), (2 * x, y)) == Some(Widen(t[Index(w, t, (x, y))]).0)
    ensures At(2 * w, Doubled(t), (2 * x + 1, y)) == Some(Widen(t[Index(w, t, (x, y))]).1)
  {
    DoubledCells(t);
    DoubledRows(w, t);
    CellIndexDouble(w, x, y);
    CellIndexRow(2 * w, 2 * x, y);
    CellIndexRow(2 * w, 2 * x + 1, y);
  }

  /** `Tile2` at `p`, a wall off the map. */
  function TileAt(w: nat, t: seq<Tile2>, p: Pos): Tile2
    requires w > 0
  {
    match At(w, t, p)
    case Some(tile) => tile
    case None => Tile2.Wall
  }

  /** A left half has its right half beside it, and the other way round. */
  predicate PairAt(w: nat, t: seq<Tile2>, p: Pos)
    requires w > 0
  {
    && (At(w, t, p) == Some(LeftBox) ==> At(w, t, (p.0 + 1, p.1)) == Some(RightBox))
    && (At(w, t, p) == Some(RightBox) ==> At(w, t, (p.0 - 1, p.1)) == Some(LeftBox))
  }

  /** The invariant of the wide warehouse: every box is whole. */
  ghost predicate Paired(w: nat, t: seq<Tile2>)
    requires w > 0
  {
    forall p :: PairAt(w, t, p)
  }

  /** Widening makes every box whole. */
  lemma {:induction false} DoubledPaired(w: nat, t: seq<Tile>)
    requires w > 0
    ensures Paired(2 * w, Doubled(t))
  {
    var t2 := Doubled(t);
    DoubledRows(w, t);
    forall p
      ensures PairAt(2 * w, t2, p)
    {
      if InGrid(2 * w, t2, p) {
        var x := p.0 / 2;
        DoubledAt(w, t, x, p.1);
        if p.0 == 2 * x {
          assert (p.0 + 1, p.1) == (2 * x + 1, p.1);
        } else {
          assert p.0 == 2 * x + 1 && (p.0 - 1, p.1) == (2 * x, p.1);
        }
      }
    }
  }

  // ---------------------------------------------------------------------------
  // Pushing wide boxes (`Map<Tile2>::try_move` and `can_move`, lines 278-357)

  /** `can_move`: the tile at `p` can go one cell along `d`. A box moving up
      or down needs both cells above or below it free or movable. */
  function CanMove(w: nat, t: seq<Tile2>, p: Pos, d: Move): bool
    requires w > 0
    decreases Reach(w, Rows(w, t), p, d)
  {
    var q := Next(p, d);
    match At(w, t, p)
    case None => false
    case Some(tile) =>
      match tile
      case Wall => false
      case Empty => true
      case Robot => CanMove(w, t, q, d)
      case LeftBox =>
        if Dy(d) == 0 then CanMove(w, t, q, d)
        else CanMove(w, t, q, d) && CanMove(w, t, (q.0 + 1, q.1), d)
      case RightBox =>
        if Dy(d) == 0 then CanMove(w, t, q, d)
        else CanMove(w, t, q, d) && CanMove(w, t, (q.0 - 1, q.1), d)
  }

  /** A termination measure for `try_move`: twice the distance to the edge
      from the far end of the box, plus one for a right half, which hands
      the push to its left half. */
  function Measure(w: nat, t: seq<Tile2>, p: Pos, d: Move): nat
    requires w > 0
  {
    var tile := TileAt(w, t, p);
    var front := if d == Right && tile == LeftBox then (p.0 + 1, p.1)
                 else if d == Left && tile == RightBox then (p.0 - 1, p.1)
                 else p;
    2 * Reach(w, Rows(w, t), front, d) + (if tile == RightBox then 1 else 0)
  }

  /** Where the tile at `p` is moved from: the left half for a box. */
  function Anchor(p: Pos, tile: Tile2): Pos
  {
    if tile == RightBox then (p.0 - 1, p.1) else p
  }

  /** `c` is a cell of the tile at `p`: the box's other half for a box. */
  predicate InBox(p: Pos, tile: Tile2, c: Pos)
  {
    c == p || (tile == LeftBox && c == (p.0 + 1, p.1)) || (tile == RightBox && c == (p.0 - 1, p.1))
  }

  /** The cells a push of the tile at `p` along `d` may change: the rest of
      the row ahead for a sideways push, the tile's own cells and every row
      ahead for a push up or down. */
  predicate InZone(p: Pos, d: Move, tile: Tile2, c: Pos)
  {
    match d
    case Left => c.1 == p.1 && c.0 <= p.0 + (if tile == LeftBox then 1 else 0)
    case Right => c.1 == p.1 && c.0 >= p.0 - (if tile == RightBox then 1 else 0)
    case Up => c.1 < p.1 || (c.1 == p.1 && InBox(p, tile, c))
    case Down => c.1 > p.1 || (c.1 == p.1 && InBox(p, tile, c))
  }

  /** `c` is a cell of the tile at `p` that a push along `d` leaves empty:
      the cells of a box it does not move onto. */
  predicate Clears(p: Pos, d: Move, tile: Tile2, c: Pos)
  {
    match tile
    case LeftBox =>
      if d == Left then c == (p.0 + 1, p.1)
      else if d == Right then c == p
      else c == p || c == (p.0 + 1, p.1)
    case RightBox =>
      if d == Right then c == (p.0 - 1, p.1)
      else if d == Left then c == p
      else c == p || c == (p.0 - 1, p.1)
    case _ => c == p
  }

  /** What `Map<Tile2>::try_move` promises. Whatever the outcome the boxes
      stay whole, the map holds the same tiles and only cells of the push's
      zone change. When `can_move` says no, nothing happens; an empty cell
      "moves" in place; a successful push leaves the tile's trailing cells
      empty; the robot ends on the cell it moved to, or stays put. */
  ghost predicate Moved(w: nat, t: seq<Tile2>, t': seq<Tile2>, p: Pos, d: Move, r: Option<Pos>)
    requires w > 0
  {
    var tile := TileAt(w, t, p);
    && |t'| == |t|
    && Paired(w, t')
    && multiset(t') == multiset(t)
    && (!CanMove(w, t, p, d) ==> r.None? && t' == t)
    && (At(w, t, p) == Some(Tile2.Empty) ==> r == Some(p) && t' == t)
    && (forall c :: !InZone(p, d, tile, c) ==> At(w, t', c) == At(w, t, c))
    && (r.Some? ==> forall c {:trigger Clears(p, d, tile, c)} :: Clears(p, d, tile, c) ==> At(w, t', c) == Some(Tile2.Empty))
    && (r.Some? && tile != Tile2.Empty ==> r.value == Next(Anchor(p, tile), d))
    && (tile == Tile2.Robot && r.Some? ==> At(w, t', Next(p, d)) == Some(Tile2.Robot))
    && (tile == Tile2.Robot && r.None? ==> At(w, t', p) == Some(Tile2.Robot))
  }

  /** Writing a tile that is not half a box over one that is not keeps every
      box whole. */
  lemma PairedWrite(w: nat, t: seq<Tile2>, c: Pos, v: Tile2)
    requires w > 0 && Paired(w, t) && InGrid(w, t, c)
    requires TileAt(w, t, c) != LeftBox && TileAt(w, t, c) != RightBox
    requires v != LeftBox && v != RightBox
    ensures Paired(w, Write(w, t, c, v))
  {
    var t' := Write(w, t, c, v);
    forall e
      ensures PairAt(w, t', e)
    {
      assert PairAt(w, t, e);
      WriteCell(w, t, c, v, e);
      WriteCell(w, t, c, v, (e.0 + 1, e.1));
      WriteCell(w, t, c, v, (e.0 - 1, e.1));
    }
  }

  /** Nothing happens when `can_move` says no. */
  lemma {:induction false} Refused(w: nat, t: seq<Tile2>, p: Pos, d: Move)
    requires w > 0 && Paired(w, t) && !CanMove(w, t, p, d)
    ensures Moved(w, t, t, p, d, None)
  {
  }

  /** An empty cell moves in place. */
  lemma MovedEmpty(w: nat, t: seq<Tile2>, p: Pos, d: Move)
    requires w > 0 && Paired(w, t) && At(w, t, p) == Some(Tile2.Empty)
    ensures Moved(w, t, t, p, d, Some(p))
  {
  }

  /** Every cell outside the zone of the robot's push lies outside the zone
      of the push it starts on the cell ahead. */
  lemma RobotZone(p: Pos, d: Move, tq: Tile2, c: Pos)
    requires !InZone(p, d, Tile2.Robot, c)
    ensures c != p && c != Next(p, d) && !InZone(Next(p, d), d, tq, c)
  {
  }

  /** In a map of whole boxes, the cell ahead of the robot is never the far
      half of a box, so clearing it empties it and leaves the robot alone. */
  lemma AheadOfRobot(w: nat, t: seq<Tile2>, p: Pos, d: Move)
    requires w > 0 && Paired(w, t) && At(w, t, p) == Some(Tile2.Robot)
    ensures var q := Next(p, d); var tq := TileAt(w, t, q);
      Clears(q, d, tq, q) && !InZone(q, d, tq, p)
  {
    var q := Next(p, d);
    assert PairAt(w, t, q);
    if d == Left {
      assert (q.0 + 1, q.1) == p;
    } else if d == Right {
      assert (q.0 - 1, q.1) == p;
    }
  }

  /** The robot's push when the cell ahead cannot be cleared: the robot
      stays where it is. */
  lemma {:induction false} RobotStays(w: nat, t: seq<Tile2>, t1: seq<Tile2>, p: Pos, d: Move)
    requires w > 0 && At(w, t, p) == Some(Tile2.Robot) && CanMove(w, t, p, d)
    requires !InZone(Next(p, d), d, TileAt(w, t, Next(p, d)), p)
    requires |t1| == |t| && Paired(w, t1) && multiset(t1) == multiset(t)
    requires forall c :: !InZone(Next(p, d), d, TileAt(w, t, Next(p, d)), c) ==> At(w, t1, c) == At(w, t, c)
    ensures Moved(w, t, t1, p, d, None)
  {
    var q := Next(p, d);
    var tq := TileAt(w, t, q);
    forall c | !InZone(p, d, Tile2.Robot, c)
      ensures At(w, t1, c) == At(w, t, c)
    {
      RobotZone(p, d, tq, c);
    }
  }

  /** The robot's push once the cell ahead has been cleared: the robot steps
      onto it. */
  lemma {:induction false} RobotSteps(w: nat, t: seq<Tile2>, t1: seq<Tile2>, p: Pos, d: Move)
    requires w > 0 && At(w, t, p) == Some(Tile2.Robot) && CanMove(w, t, p, d)
    requires !InZone(Next(p, d), d, TileAt(w, t, Next(p, d)), p)
    requires |t1| == |t| && Paired(w, t1) && multiset(t1) == multiset(t)
    requires forall c :: !InZone(Next(p, d), d, TileAt(w, t, Next(p, d)), c) ==> At(w, t1, c) == At(w, t, c)
    requires At(w, t1, Next(p, d)) == Some(Tile2.Empty)
    ensures InGrid(w, t1, Next(p, d)) && InGrid(w, t1, p)
    ensures Moved(w, t, t1[Index(w, t1, Next(p, d)) := Tile2.Robot][Index(w, t1, p) := Tile2.Empty], p, d, Some(Next(p, d)))
  {
    var q := Next(p, d);
    var tq := TileAt(w, t, q);
    var t2 := Write(w, t1, q, Tile2.Robot);
    PairedWrite(w, t1, q, Tile2.Robot);
    PairedWrite(w, t2, p, Tile2.Empty);
    var t3 := Write(w, t2, p, Tile2.Empty);
    assert t3 == t1[Index(w, t1, q) := Tile2.Robot][Index(w, t1, p) := Tile2.Empty];
    assert multiset(t3) == multiset(t) by {
      WriteTiles(w, t1, q, Tile2.Empty, Tile2.Robot);
      WriteCell(w, t1, q, Tile2.Robot, p);
      WriteTiles(w, t2, p, Tile2.Robot, Tile2.Empty);
      SwapBack(multiset(t1), multiset(t2), multiset(t3), Tile2.Empty, Tile2.Robot);
    }
    forall c | !InZone(p, d, Tile2.Robot, c)
      ensures At(w, t3, c) == At(w, t, c)
    {
      RobotZone(p, d, tq, c);
      WriteCell(w, t1, q, Tile2.Robot, c);
      WriteCell(w, t2, p, Tile2.Empty, c);
    }
    WriteCell(w, t1, q, Tile2.Robot, q);
    WriteCell(w, t2, p, Tile2.Empty, q);
    WriteCell(w, t2, p, Tile2.Empty, p);
    assert At(w, t3, q) == Some(Tile2.Robot);
    assert forall c {:trigger Clears(p, d, Tile2.Robot, c)} :: Clears(p, d, Tile2.Robot, c) ==> At(w, t3, c) == Some(Tile2.Empty);
  }

  /** Two writes: the cells written hold what was written last, every other
      cell what it held. */
  lemma WriteCell2<T>(w: nat, t: seq<T>, c1: Pos, v1: T, c2: Pos, v2: T, e: Pos)
    requires w > 0 && InGrid(w, t, c1) && InGrid(w, t, c2)
    ensures At(w, Write(w, Write(w, t, c1, v1), c2, v2), e)
      == if e == c2 then Some(v2) else if e == c1 then Some(v1) else At(w, t, e)
  {
    WriteCell(w, t, c1, v1, e);
    WriteCell(w, Write(w, t, c1, v1), c2, v2, e);
  }

  /** A whole box written onto the two empty cells from `c` rightwards. */
  function PlaceBox(w: nat, t: seq<Tile2>, c: Pos): seq<Tile2>
    requires w > 0 && InGrid(w, t, c) && InGrid(w, t, (c.0 + 1, c.1))
  {
    Write(w, Write(w, t, c, LeftBox), (c.0 + 1, c.1), RightBox)
  }

  /** The box at `c` and its right half cleared. */
  function ClearBox(w: nat, t: seq<Tile2>, c: Pos): seq<Tile2>
    requires w > 0 && InGrid(w, t, c) && InGrid(w, t, (c.0 + 1, c.1))
  {
    Write(w, Write(w, t, c, Tile2.Empty), (c.0 + 1, c.1), Tile2.Empty)
  }

  /** Placing a box on two empty cells keeps every box whole. */
  lemma PlaceBoxPaired(w: nat, t: seq<Tile2>, c: Pos)
    requires w > 0 && Paired(w, t)
    requires At(w, t, c) == Some(Tile2.Empty) && At(w, t, (c.0 + 1, c.1)) == Some(Tile2.Empty)
    ensures Paired(w, PlaceBox(w, t, c))
  {
    forall e
      ensures PairAt(w, PlaceBox(w, t, c), e)
    {
      PlaceBoxPairAt(w, t, c, e);
    }
  }

  lemma PlaceBoxPairAt(w: nat, t: seq<Tile2>, c: Pos, e: Pos)
    requires w > 0 && PairAt(w, t, e)
    requires At(w, t, c) == Some(Tile2.Empty) && At(w, t, (c.0 + 1, c.1)) == Some(Tile2.Empty)
    requires PairAt(w, t, (c.0 - 1, c.1)) && PairAt(w, t, (c.0 + 2, c.1))
    ensures PairAt(w, PlaceBox(w, t, c), e)
  {
    var c' := (c.0 + 1, c.1);
    assert InGrid(w, t, c) && InGrid(w, t, c');
    var t' := PlaceBox(w, t, c);
    var l, m, r := (e.0 - 1, e.1), e, (e.0 + 1, e.1);
    WriteCell2(w, t, c, LeftBox, c', RightBox, l);
    WriteCell2(w, t, c, LeftBox, c', RightBox, m);
    WriteCell2(w, t, c, LeftBox, c', RightBox, r);
    if e == c {
      assert At(w, t', r) == Some(RightBox);
    } else if e == c' {
      assert At(w, t', l) == Some(LeftBox);
    } else if e == (c.0 - 1, c.1) {
      assert At(w, t', e) == At(w, t, e) != Some(LeftBox);
    } else if e == (c.0 + 2, c.1) {
      assert At(w, t', e) == At(w, t, e) != Some(RightBox);
    } else {
      assert At(w, t', m) == At(w, t, m);
    }
  }

  /** Placing a box trades two empty cells for the box's halves. */
  lemma PlaceBoxTiles(w: nat, t: seq<Tile2>, c: Pos)
    requires w > 0
    requires At(w, t, c) == Some(Tile2.Empty) && At(w, t, (c.0 + 1, c.1)) == Some(Tile2.Empty)
    ensures multiset(PlaceBox(w, t, c)) + multiset{Tile2.Empty, Tile2.Empty}
      == multiset(t) + multiset{LeftBox, RightBox}
  {
    var c' := (c.0 + 1, c.1);
    var t1 := Write(w, t, c, LeftBox);
    var m, m1 := multiset(t), multiset(t1);
    assert m1 + multiset{Tile2.Empty} == m + multiset{LeftBox} by {
      WriteTiles(w, t, c, Tile2.Empty, LeftBox);
    }
    assert At(w, t1, c') == Some(Tile2.Empty) by {
      WriteCell(w, t, c, LeftBox, c');
    }
    var m2 := multiset(PlaceBox(w, t, c));
    assert m2 + multiset{Tile2.Empty} == m1 + multiset{RightBox} by {
      WriteTiles(w, t1, c', Tile2.Empty, RightBox);
    }
    TradeTwo(m, m1, m2, Tile2.Empty, Tile2.Empty, LeftBox, RightBox);
  }

  /** Clearing a whole box keeps every other box whole. */
  lemma ClearBoxPaired(w: nat, t: seq<Tile2>, c: Pos)
    requires w > 0 && Paired(w, t)
    requires At(w, t, c) == Some(LeftBox)
    ensures InGrid(w, t, (c.0 + 1, c.1))
    ensures Paired(w, ClearBox(w, t, c))
  {
    assert PairAt(w, t, c);
    forall e
      ensures PairAt(w, ClearBox(w, t, c), e)
    {
      ClearBoxPairAt(w, t, c, e);
    }
  }

  lemma ClearBoxPairAt(w: nat, t: seq<Tile2>, c: Pos, e: Pos)
    requires w > 0 && PairAt(w, t, e)
    requires At(w, t, c) == Some(LeftBox) && At(w, t, (c.0 + 1, c.1)) == Some(RightBox)
    ensures PairAt(w, ClearBox(w, t, c), e)
  {
    var c' := (c.0 + 1, c.1);
    assert InGrid(w, t, c) && InGrid(w, t, c');
    var t' := ClearBox(w, t, c);
    var l, m, r := (e.0 - 1, e.1), e, (e.0 + 1, e.1);
    WriteCell2(w, t, c, Tile2.Empty, c', Tile2.Empty, l);
    WriteCell2(w, t, c, Tile2.Empty, c', Tile2.Empty, m);
    WriteCell2(w, t, c, Tile2.Empty, c', Tile2.Empty, r);
    if e == (c.0 - 1, c.1) {
      assert At(w, t', e) == At(w, t, e) != Some(LeftBox);
    } else if e == (c.0 + 2, c.1) {
      assert At(w, t', e) == At(w, t, e) != Some(RightBox);
    } else if e != c && e != c' {
      assert At(w, t', m) == At(w, t, m);
    }
  }

  /** Clearing a box trades its halves for two empty cells. */
  lemma ClearBoxTiles(w: nat, t: seq<Tile2>, c: Pos)
    requires w > 0
    requires At(w, t, c) == Some(LeftBox) && At(w, t, (c.0 + 1, c.1)) == Some(RightBox)
    ensures multiset(ClearBox(w, t, c)) + multiset{LeftBox, RightBox}
      == multiset(t) + multiset{Tile2.Empty, Tile2.Empty}
  {
    var c' := (c.0 + 1, c.1);
    var t1 := Write(w, t, c, Tile2.Empty);
    var m, m1 := multiset(t), multiset(t1);
    assert m1 + multiset{LeftBox} == m + multiset{Tile2.Empty} by {
      WriteTiles(w, t, c, LeftBox, Tile2.Empty);
    }
    assert At(w, t1, c') == Some(RightBox) by {
      WriteCell(w, t, c, Tile2.Empty, c');
    }
    var m2 := multiset(ClearBox(w, t, c));
    assert m2 + multiset{RightBox} == m1 + multiset{Tile2.Empty} by {
      WriteTiles(w, t1, c', RightBox, Tile2.Empty);
    }
    TradeTwo(m, m1, m2, LeftBox, RightBox, Tile2.Empty, Tile2.Empty);
  }

  /** The box at `a` moved to `b`: its old cells emptied, its new cells
      filled. */
  function MoveBox(w: nat, t: seq<Tile2>, a: Pos, b: Pos): seq<Tile2>
    requires w > 0 && InGrid(w, t, a) && InGrid(w, t, (a.0 + 1, a.1))
    requires InGrid(w, t, b) && InGrid(w, t, (b.0 + 1, b.1))
  {
    PlaceBox(w, ClearBox(w, t, a), b)
  }

  lemma MoveBoxCell(w: nat, t: seq<Tile2>, a: Pos, b: Pos, e: Pos)
    requires w > 0 && InGrid(w, t, a) && InGrid(w, t, (a.0 + 1, a.1))
    requires InGrid(w, t, b) && InGrid(w, t, (b.0 + 1, b.1))
    ensures At(w, MoveBox(w, t, a, b), e)
      == if e == b then Some(LeftBox)
         else if e == (b.0 + 1, b.1) then Some(RightBox)
         else if e == a || e == (a.0 + 1, a.1) then Some(Tile2.Empty)
         else At(w, t, e)
  {
    WriteCell2(w, t, a, Tile2.Empty, (a.0 + 1, a.1), Tile2.Empty, e);
    WriteCell2(w, ClearBox(w, t, a), b, LeftBox, (b.0 + 1, b.1), RightBox, e);
  }

  /** Moving a whole box onto cells that are empty or its own keeps every
      box whole and the map's tiles as they were. */
  lemma MoveBoxFacts(w: nat, t: seq<Tile2>, a: Pos, b: Pos)
    requires w > 0 && Paired(w, t) && At(w, t, a) == Some(LeftBox)
    requires b == (a.0 + 1, a.1) || At(w, t, b) == Some(Tile2.Empty)
    requires (b.0 + 1, b.1) == a || At(w, t, (b.0 + 1, b.1)) == Some(Tile2.Empty)
    ensures InGrid(w, t, a) && InGrid(w, t, (a.0 + 1, a.1))
    ensures InGrid(w, t, b) && InGrid(w, t, (b.0 + 1, b.1))
    ensures Paired(w, MoveBox(w, t, a, b))
    ensures multiset(MoveBox(w, t, a, b)) == multiset(t)
  {
    var a', b' := (a.0 + 1, a.1), (b.0 + 1, b.1);
    assert PairAt(w, t, a);
    var tc := ClearBox(w, t, a);
    assert At(w, tc, b) == Some(Tile2.Empty) && At(w, tc, b') == Some(Tile2.Empty) by {
      WriteCell2(w, t, a, Tile2.Empty, a', Tile2.Empty, b);
      WriteCell2(w, t, a, Tile2.Empty, a', Tile2.Empty, b');
    }
    assert Paired(w, MoveBox(w, t, a, b)) by {
      ClearBoxPaired(w, t, a);
      PlaceBoxPaired(w, tc, b);
    }
    var m, m2 := multiset(t), multiset(MoveBox(w, t, a, b));
    assert m2 + multiset{Tile2.Empty, Tile2.Empty} == m + multiset{Tile2.Empty, Tile2.Empty} by {
      ClearBoxTiles(w, t, a);
      PlaceBoxTiles(w, tc, b);
    }
    forall z
      ensures m2[z] == m[z]
    {
      assert (m2 + multiset{Tile2.Empty, Tile2.Empty})[z] == (m + multiset{Tile2.Empty, Tile2.Empty})[z];
    }
  }

  /** The cells a moved box leaves or enters are all in the zone of its
      push, and the cells it leaves empty are the ones `Clears` names. */
  lemma {:induction false} BoxFinal(w: nat, t: seq<Tile2>, t2: seq<Tile2>, p: Pos, d: Move)
    requires w > 0 && At(w, t, p) == Some(LeftBox) && CanMove(w, t, p, d)
    requires |t2| == |t| && Paired(w, t2) && multiset(t2) == multiset(t)
    requires forall c :: !InZone(p, d, LeftBox, c) ==> At(w, t2, c) == At(w, t, c)
    requires At(w, t2, p) == Some(LeftBox)
    requires var b := Next(p, d);
      && (b == (p.0 + 1, p.1) || At(w, t2, b) == Some(Tile2.Empty))
      && ((b.0 + 1, b.1) == p || At(w, t2, (b.0 + 1, b.1)) == Some(Tile2.Empty))
    ensures var b := Next(p, d);
      && InGrid(w, t2, p) && InGrid(w, t2, (p.0 + 1, p.1))
      && InGrid(w, t2, b) && InGrid(w, t2, (b.0 + 1, b.1))
      && Moved(w, t, MoveBox(w, t2, p, b), p, d, Some(b))
  {
    var b := Next(p, d);
    MoveBoxFacts(w, t2, p, b);
    MoveBoxFrame(w, t, t2, p, d);
    BoxMoved(w, t, MoveBox(w, t2, p, b), p, d);
  }

  /** Moving the box ahead changes no cell outside its push and empties
      the cells it leaves. */
  lemma MoveBoxFrame(w: nat, t: seq<Tile2>, t2: seq<Tile2>, p: Pos, d: Move)
    requires w > 0 && |t2| == |t|
    requires forall c :: !InZone(p, d, LeftBox, c) ==> At(w, t2, c) == At(w, t, c)
    requires InGrid(w, t2, p) && InGrid(w, t2, (p.0 + 1, p.1))
    requires var b := Next(p, d); InGrid(w, t2, b) && InGrid(w, t2, (b.0 + 1, b.1))
    ensures var t3 := MoveBox(w, t2, p, Next(p, d));
      forall c :: !InZone(p, d, LeftBox, c) ==> At(w, t3, c) == At(w, t, c)
    ensures var t3 := MoveBox(w, t2, p, Next(p, d));
      forall c :: Clears(p, d, LeftBox, c) ==> At(w, t3, c) == Some(Tile2.Empty)
  {
    var b := Next(p, d);
    forall c | !InZone(p, d, LeftBox, c)
      ensures At(w, MoveBox(w, t2, p, b), c) == At(w, t, c)
    {
      MoveBoxCell(w, t2, p, b, c);
    }
    forall c | Clears(p, d, LeftBox, c)
      ensures At(w, MoveBox(w, t2, p, b), c) == Some(Tile2.Empty)
    {
      MoveBoxCell(w, t2, p, b, c);
    }
  }

  /** A whole-box result that keeps the tiles, leaves the cells outside
      the push alone and empties the cells the box left is the push of
      that box to the cell ahead. */
  lemma {:induction false} BoxMoved(w: nat, t: seq<Tile2>, t3: seq<Tile2>, p: Pos, d: Move)
    requires w > 0 && At(w, t, p) == Some(LeftBox) && CanMove(w, t, p, d)
    requires |t3| == |t| && Paired(w, t3) && multiset(t3) == multiset(t)
    requires forall c :: !InZone(p, d, LeftBox, c) ==> At(w, t3, c) == At(w, t, c)
    requires forall c :: Clears(p, d, LeftBox, c) ==> At(w, t3, c) == Some(Tile2.Empty)
    ensures Moved(w, t, t3, p, d, Some(Next(p, d)))
  {
  }

  /** A box whose push was refused further on stays where it is: both
      halves are still in their cells, and the push reports no move. */
  lemma {:induction false} BoxStuck(w: nat, t: seq<Tile2>, t1: seq<Tile2>, p: Pos, d: Move)
    requires w > 0 && At(w, t, p) == Some(LeftBox) && CanMove(w, t, p, d)
    requires |t1| == |t| && Paired(w, t1) && multiset(t1) == multiset(t)
    requires forall c :: !InZone(p, d, LeftBox, c) ==> At(w, t1, c) == At(w, t, c)
    requires At(w, t1, p) == Some(LeftBox)
    ensures At(w, t1, p) == Some(LeftBox) && At(w, t1, (p.0 + 1, p.1)) == Some(RightBox)
    ensures Moved(w, t, t1, p, d, None)
  {
    assert PairAt(w, t1, p);
  }

  /** Pushing a left half leftwards starts a push on the cell before it,
      which is not a left half; that push keeps to cells of the larger
      push and leaves the box alone. */
  lemma LeftAhead(w: nat, t: seq<Tile2>, t1: seq<Tile2>, p: Pos)
    requires w > 0 && Paired(w, t) && At(w, t, p) == Some(LeftBox)
    requires var q := (p.0 - 1, p.1);
      forall c :: !InZone(q, Left, TileAt(w, t, q), c) ==> At(w, t1, c) == At(w, t, c)
    ensures var q := (p.0 - 1, p.1); var tq := TileAt(w, t, q);
      && q == Next(p, Left) && Clears(q, Left, tq, q) && At(w, t1, p) == Some(LeftBox)
      && forall c :: !InZone(p, Left, LeftBox, c) ==> At(w, t1, c) == At(w, t, c)
  {
    var q := (p.0 - 1, p.1);
    assert PairAt(w, t, q);
    assert TileAt(w, t, q) != LeftBox;
  }

  /** Pushing a left half rightwards starts a push two cells on, past its
      right half, on a cell that is not a right half. */
  lemma RightAhead(w: nat, t: seq<Tile2>, t1: seq<Tile2>, p: Pos)
    requires w > 0 && Paired(w, t) && At(w, t, p) == Some(LeftBox)
    requires var q := (p.0 + 2, p.1);
      forall c :: !InZone(q, Right, TileAt(w, t, q), c) ==> At(w, t1, c) == At(w, t, c)
    ensures var q := (p.0 + 2, p.1); var tq := TileAt(w, t, q);
      && (Next(p, Right).0 + 1, p.1) == q && Next(p, Right) == (p.0 + 1, p.1)
      && Clears(q, Right, tq, q) && At(w, t1, p) == Some(LeftBox)
      && forall c :: !InZone(p, Right, LeftBox, c) ==> At(w, t1, c) == At(w, t, c)
  {
    var q := (p.0 + 2, p.1);
    assert PairAt(w, t, p);
    assert PairAt(w, t, q);
    assert TileAt(w, t, q) != RightBox;
  }

  /** The first half of a push up or down: the cell beyond the left half. */
  lemma VerticalFirst(w: nat, t: seq<Tile2>, t1: seq<Tile2>, p: Pos, d: Move)
    requires w > 0 && At(w, t, p) == Some(LeftBox) && Dy(d) != 0
    requires var q := Next(p, d);
      forall c :: !InZone(q, d, TileAt(w, t, q), c) ==> At(w, t1, c) == At(w, t, c)
    ensures var q := Next(p, d);
      && q == (p.0, p.1 + Dy(d)) && Clears(q, d, TileAt(w, t, q), q) && At(w, t1, p) == Some(LeftBox)
      && forall c :: !InZone(p, d, LeftBox, c) ==> At(w, t1, c) == At(w, t, c)
  {
    UnitMoves(d);
  }

  /** The second half of a push up or down: the cell beyond the right half.
      The first push emptied the cell beside it, so it is not a right half,
      and its push leaves the first cell empty. */
  lemma VerticalSecond(w: nat, t: seq<Tile2>, t1: seq<Tile2>, t2: seq<Tile2>, p: Pos, d: Move)
    requires w > 0 && Dy(d) != 0 && Paired(w, t1)
    requires At(w, t1, p) == Some(LeftBox) && At(w, t1, Next(p, d)) == Some(Tile2.Empty)
    requires forall c :: !InZone(p, d, LeftBox, c) ==> At(w, t1, c) == At(w, t, c)
    requires var q := Next(p, d); var q' := (q.0 + 1, q.1);
      forall c :: !InZone(q', d, TileAt(w, t1, q'), c) ==> At(w, t2, c) == At(w, t1, c)
    ensures var q := Next(p, d); var q' := (q.0 + 1, q.1);
      && Clears(q', d, TileAt(w, t1, q'), q') && At(w, t2, p) == Some(LeftBox)
      && At(w, t2, q) == Some(Tile2.Empty)
      && forall c :: !InZone(p, d, LeftBox, c) ==> At(w, t2, c) == At(w, t, c)
  {
    UnitMoves(d);
    var q := Next(p, d);
    var q' := (q.0 + 1, q.1);
    assert PairAt(w, t1, q');
    assert TileAt(w, t1, q') != RightBox;
    assert !InZone(q', d, TileAt(w, t1, q'), q);
  }

  /** The right half hands its push to the left half beside it: the zone of
      that push lies in its own and the cells it empties are the same. */
  lemma {:induction false} RightHalfHandsOver(w: nat, t: seq<Tile2>, t1: seq<Tile2>, p: Pos, d: Move, r: Option<Pos>)
    requires w > 0 && At(w, t, p) == Some(RightBox) && CanMove(w, t, p, d)
    requires var p' := (p.0 - 1, p.1);
      && At(w, t, p') == Some(LeftBox)
      && |t1| == |t| && Paired(w, t1) && multiset(t1) == multiset(t)
      && (forall c :: !InZone(p', d, LeftBox, c) ==> At(w, t1, c) == At(w, t, c))
      && (r.Some? ==> forall c {:trigger Clears(p', d, LeftBox, c)} :: Clears(p', d, LeftBox, c) ==> At(w, t1, c) == Some(Tile2.Empty))
      && (r.Some? ==> r.value == Next(p', d))
    ensures Moved(w, t, t1, p, d, r)
  {
    var p' := (p.0 - 1, p.1);
    if r.Some? {
      forall c | Clears(p, d, RightBox, c)
        ensures At(w, t1, c) == Some(Tile2.Empty)
      {
        assert Clears(p', d, LeftBox, c);
      }
    }
  }

  /** The three writes of a push to the left move the box one cell left. */
  lemma {:induction false} LeftWrites(w: nat, t: seq<Tile2>, p: Pos)
    requires var q, p' := (p.0 - 1, p.1), (p.0 + 1, p.1);
      w > 0 && InGrid(w, t, q) && InGrid(w, t, p) && InGrid(w, t, p')
    ensures Index(w, t, (p.0 - 1, p.1)) == CellIndex(w, p.0 - 1, p.1)
    ensures Index(w, t, p) == CellIndex(w, p.0, p.1)
    ensures Index(w, t, (p.0 + 1, p.1)) == CellIndex(w, p.0 + 1, p.1)
    ensures var q, p' := (p.0 - 1, p.1), (p.0 + 1, p.1);
      t[CellIndex(w, p.0 - 1, p.1) := LeftBox][CellIndex(w, p.0, p.1) := RightBox][CellIndex(w, p.0 + 1, p.1) := Tile2.Empty]
      == MoveBox(w, t, p, q)
  {
    var q, p' := (p.0 - 1, p.1), (p.0 + 1, p.1);
    IndexInjective(w, t, q, p);
    IndexInjective(w, t, q, p');
    IndexInjective(w, t, p, p');
  }

  /** The three writes of a push to the right move the box one cell right. */
  lemma {:induction false} RightWrites(w: nat, t: seq<Tile2>, p: Pos)
    requires var p', q := (p.0 + 1, p.1), (p.0 + 2, p.1);
      w > 0 && InGrid(w, t, p) && InGrid(w, t, p') && InGrid(w, t, q)
    ensures Index(w, t, (p.0 + 1, p.1)) == CellIndex(w, p.0 + 1, p.1)
    ensures Index(w, t, (p.0 + 2, p.1)) == CellIndex(w, p.0 + 2, p.1)
    ensures Index(w, t, p) == CellIndex(w, p.0, p.1)
    ensures var p', q := (p.0 + 1, p.1), (p.0 + 2, p.1);
      t[CellIndex(w, p.0 + 1, p.1) := LeftBox][CellIndex(w, p.0 + 2, p.1) := RightBox][CellIndex(w, p.0, p.1) := Tile2.Empty]
      == MoveBox(w, t, p, p')
  {
    var p', q := (p.0 + 1, p.1), (p.0 + 2, p.1);
    IndexInjective(w, t, p, p');
    IndexInjective(w, t, p, q);
    IndexInjective(w, t, p', q);
  }

  /** The four writes that move a box from row `p.1` to row `q.1`: its
      halves land on `q` and the cell right of it, and `p` and the cell
      right of it are left empty. */
  function BoxRowWrites(w: nat, t: seq<Tile2>, p: Pos, q: Pos): seq<Tile2>
    requires w > 0 && InGrid(w, t, p) && InGrid(w, t, (p.0 + 1, p.1))
    requires InGrid(w, t, q) && InGrid(w, t, (q.0 + 1, q.1))
  {
    t[Index(w, t, q) := LeftBox][Index(w, t, (q.0 + 1, q.1)) := RightBox]
     [Index(w, t, p) := Tile2.Empty][Index(w, t, (p.0 + 1, p.1)) := Tile2.Empty]
  }

  /** The four writes of a push up or down move the box one row. */
  lemma {:induction false} VerticalWrites(w: nat, t: seq<Tile2>, p: Pos, q: Pos)
    requires p.1 != q.1
    requires var p', q' := (p.0 + 1, p.1), (q.0 + 1, q.1);
      w > 0 && InGrid(w, t, p) && InGrid(w, t, p') && InGrid(w, t, q) && InGrid(w, t, q')
    ensures Index(w, t, q) == CellIndex(w, q.0, q.1)
    ensures Index(w, t, (q.0 + 1, q.1)) == CellIndex(w, q.0 + 1, q.1)
    ensures Index(w, t, p) == CellIndex(w, p.0, p.1)
    ensures Index(w, t, (p.0 + 1, p.1)) == CellIndex(w, p.0 + 1, p.1)
    ensures var p', q' := (p.0 + 1, p.1), (q.0 + 1, q.1);
      BoxRowWrites(w, t, p, q)
      == MoveBox(w, t, p, q)
  {
    var p', q' := (p.0 + 1, p.1), (q.0 + 1, q.1);
    IndexInjective(w, t, p, q);
    IndexInjective(w, t, p, q');
    IndexInjective(w, t, p', q);
    IndexInjective(w, t, p', q');
    IndexInjective(w, t, p, p');
    IndexInjective(w, t, q, q');
  }

  /** `Map<Tile2>::try_move` (lines 279-332): when `can_move` allows, moves
      the tile at `from` one cell along `d` together with everything it
      pushes, and answers where the tile (the left half, for a box) went. */
  method TryMove2(m: Map<Tile2>, from: Pos, d: Move) returns (r: Option<Pos>)
    requires m.width > 0 && Paired(m.width, m.matrix)
    modifies m
    decreases Measure(m.width, m.matrix, from, d), 2
    ensures m.width == old(m.width)
    ensures (r, m.matrix) == Push2(m.width, old(m.matrix), from, d)
    ensures Moved(m.width, old(m.matrix), m.matrix, from, d, r)
  {
    var w, t := m.width, m.matrix;
    if !CanMove(w, t, from, d) {
      Refused(w, t, from, d);
      return None;
    }
    var (x0, y0) := from;
    var here := m.Get(x0, y0);
    if here == Some(Tile2.Empty) {
      MovedEmpty(w, t, from, d);
      return Some(from);
    } else if here == Some(Tile2.Robot) {
      r := PushRobot(m, from, d);
    } else if here == Some(LeftBox) {
      if d == Left {
        r := PushLeft(m, from);
      } else if d == Right {
        r := PushRight(m, from);
      } else {
        r := PushVertical(m, from, d);
      }
    } else {
      assert PairAt(w, t, from);
      r := TryMove2(m, (x0 - 1, y0), d);
      RightHalfHandsOver(w, t, m.matrix, from, d, r);
    }
  }

  /** The robot's arm of `try_move` (lines 288-295). */
  method PushRobot(m: Map<Tile2>, from: Pos, d: Move) returns (r: Option<Pos>)
    requires m.width > 0 && Paired(m.width, m.matrix)
    requires At(m.width, m.matrix, from) == Some(Tile2.Robot) && CanMove(m.width, m.matrix, from, d)
    modifies m
    decreases Measure(m.width, m.matrix, from, d), 1
    ensures m.width == old(m.width)
    ensures (r, m.matrix) == Push2Robot(m.width, old(m.matrix), from, d)
    ensures Moved(m.width, old(m.matrix), m.matrix, from, d, r)
  {
    var w, t := m.width, m.matrix;
    var q := Next(from, d);
    AheadOfRobot(w, t, from, d);
    var pushed := TryMove2(m, q, d);
    var t1 := m.matrix;
    if pushed.None? {
      RobotStays(w, t, t1, from, d);
      return None;
    }
    RobotSteps(w, t, t1, from, d);
    m.Put(q.0, q.1, Tile2.Robot);
    m.Put(from.0, from.1, Tile2.Empty);
    return Some(q);
  }

  /** A box pushed to the left (lines 297-303). */
  method PushLeft(m: Map<Tile2>, from: Pos) returns (r: Option<Pos>)
    requires m.width > 0 && Paired(m.width, m.matrix)
    requires At(m.width, m.matrix, from) == Some(LeftBox) && CanMove(m.width, m.matrix, from, Left)
    modifies m
    decreases Measure(m.width, m.matrix, from, Left), 1
    ensures m.width == old(m.width)
    ensures (r, m.matrix) == Push2Left(m.width, old(m.matrix), from)
    ensures Moved(m.width, old(m.matrix), m.matrix, from, Left, r)
  {
    var w, t := m.width, m.matrix;
    var (x0, y0) := from;
    var q := (x0 - 1, y0);
    var pushed := TryMove2(m, q, Left);
    var t1 := m.matrix;
    LeftAhead(w, t, t1, from);
    if pushed.None? {
      return None;
    }
    LeftDone(w, t, t1, from);
    m.Put(x0 - 1, y0, LeftBox);
    m.Put(x0, y0, RightBox);
    m.Put(x0 + 1, y0, Tile2.Empty);
    return Some(q);
  }

  /** A box pushed to the right (lines 304-310). */
  method PushRight(m: Map<Tile2>, from: Pos) returns (r: Option<Pos>)
    requires m.width > 0 && Paired(m.width, m.matrix)
    requires At(m.width, m.matrix, from) == Some(LeftBox) && CanMove(m.width, m.matrix, from, Right)
    modifies m
    decreases Measure(m.width, m.matrix, from, Right), 1
    ensures m.width == old(m.width)
    ensures (r, m.matrix) == Push2Right(m.width, old(m.matrix), from)
    ensures Moved(m.width, old(m.matrix), m.matrix, from, Right, r)
  {
    var w, t := m.width, m.matrix;
    var (x0, y0) := from;
    var q := (x0 + 2, y0);
    assert PairAt(w, t, from);
    var pushed := TryMove2(m, q, Right);
    var t1 := m.matrix;
    RightAhead(w, t, t1, from);
    if pushed.None? {
      return None;
    }
    RightDone(w, t, t1, from);
    m.Put(x0 + 1, y0, LeftBox);
    m.Put(x0 + 2, y0, RightBox);
    m.Put(x0, y0, Tile2.Empty);
    return Some((x0 + 1, y0));
  }

  /** A box pushed up or down (lines 311-329): first the cell beyond its
      left half is cleared, then the cell beyond its right half. */
  method PushVertical(m: Map<Tile2>, from: Pos, d: Move) returns (r: Option<Pos>)
    requires m.width > 0 && Paired(m.width, m.matrix) && Dy(d) != 0
    requires At(m.width, m.matrix, from) == Some(LeftBox) && CanMove(m.width, m.matrix, from, d)
    modifies m
    decreases Measure(m.width, m.matrix, from, d), 1
    ensures m.width == old(m.width)
    ensures (r, m.matrix) == Push2Vertical(m.width, old(m.matrix), from, d)
    ensures Moved(m.width, old(m.matrix), m.matrix, from, d, r)
  {
    var w, t := m.width, m.matrix;
    var q := (from.0, from.1 + Dy(d));
    var pushed := TryMove2(m, q, d);
    var t1 := m.matrix;
    VerticalFirst(w, t, t1, from, d);
    if pushed.None? {
      return None;
    }
    r := PushVerticalRest(m, from, d, t);
  }

  /** The rest of a push up or down once the cell beyond the left half is
      empty: the cell beyond the right half is cleared, then the box moves. */
  method PushVerticalRest(m: Map<Tile2>, from: Pos, d: Move, ghost t: seq<Tile2>) returns (r: Option<Pos>)
    requires m.width > 0 && Paired(m.width, m.matrix) && Dy(d) != 0
    requires At(m.width, t, from) == Some(LeftBox) && CanMove(m.width, t, from, d)
    requires |m.matrix| == |t| && multiset(m.matrix) == multiset(t)
    requires forall c :: !InZone(from, d, LeftBox, c) ==> At(m.width, m.matrix, c) == At(m.width, t, c)
    requires At(m.width, m.matrix, from) == Some(LeftBox)
    requires At(m.width, m.matrix, (from.0, from.1 + Dy(d))) == Some(Tile2.Empty)
    modifies m
    decreases Measure(m.width, t, from, d), 0
    ensures m.width == old(m.width)
    ensures r == Push2VerticalRest(m.width, t, old(m.matrix), from, d).0
    ensures m.matrix == Push2VerticalRest(m.width, t, old(m.matrix), from, d).1
    ensures Moved(m.width, t, m.matrix, from, d, r)
  {
    var w, t1 := m.width, m.matrix;
    var (x0, y0) := from;
    var y1 := y0 + Dy(d);
    var q := (x0, y1);
    var pushed := TryMove2(m, (x0 + 1, y1), d);
    VerticalRestWrites(w, t, t1, m.matrix, from, d, pushed);
    if pushed.None? {
      return None;
    }
    MoveBoxVertically(m, x0, y0, y1);
    return Some(q);
  }

  /** The four writes that end a vertical push (lines 315-318, 324-327):
      the box at `(x, y0)` moves to row `y1` and leaves its cells empty. */
  method MoveBoxVertically(m: Map<Tile2>, x: int, y0: int, y1: int)
    requires m.width > 0
    requires InGrid(m.width, m.matrix, (x, y1)) && InGrid(m.width, m.matrix, (x + 1, y1))
    requires InGrid(m.width, m.matrix, (x, y0)) && InGrid(m.width, m.matrix, (x + 1, y0))
    modifies m
    ensures m.width == old(m.width)
    ensures m.matrix == BoxRowWrites(m.width, old(m.matrix), (x, y0), (x, y1))
  {
    m.Put(x, y1, LeftBox);
    m.Put(x + 1, y1, RightBox);
    m.Put(x, y0, Tile2.Empty);
    m.Put(x + 1, y0, Tile2.Empty);
  }

  /** The rest of a vertical push, once the inner push beyond the right
      half has answered: the cells written lie on the map, and the writes
      give what the functional push gives. */
  lemma {:induction false} VerticalRestWrites(w: nat, t: seq<Tile2>, t1: seq<Tile2>, t2: seq<Tile2>, p: Pos, d: Move, pushed: Option<Pos>)
    requires w > 0 && Paired(w, t1) && Dy(d) != 0
    requires At(w, t, p) == Some(LeftBox) && CanMove(w, t, p, d)
    requires |t1| == |t| && multiset(t1) == multiset(t)
    requires forall c :: !InZone(p, d, LeftBox, c) ==> At(w, t1, c) == At(w, t, c)
    requires At(w, t1, p) == Some(LeftBox)
    requires At(w, t1, (p.0, p.1 + Dy(d))) == Some(Tile2.Empty)
    requires (pushed, t2) == Push2(w, t1, (p.0 + 1, p.1 + Dy(d)), d)
    ensures pushed.None? ==> Push2VerticalRest(w, t, t1, p, d) == (None, t2)
    ensures var q := (p.0, p.1 + Dy(d));
      pushed.Some? ==>
      && InGrid(w, t2, p) && InGrid(w, t2, (p.0 + 1, p.1))
      && InGrid(w, t2, q) && InGrid(w, t2, (q.0 + 1, q.1))
      && Push2VerticalRest(w, t, t1, p, d)
         == (Some(q), BoxRowWrites(w, t2, p, q))
  {
    var q := (p.0, p.1 + Dy(d));
    if pushed.Some? {
      VerticalCells(w, t, t1, t2, p, d, pushed);
      VerticalRestMoves(w, t, t1, t2, p, d, pushed);
    } else {
      VerticalRestStuck(w, t, t1, t2, p, d, pushed);
    }
  }

  /** A vertical push whose box cannot move past its right half writes
      nothing more. */
  lemma {:induction false} VerticalRestStuck(w: nat, t: seq<Tile2>, t1: seq<Tile2>, t2: seq<Tile2>, p: Pos, d: Move, pushed: Option<Pos>)
    requires w > 0 && Paired(w, t1) && Dy(d) != 0
    requires At(w, t, p) == Some(LeftBox) && CanMove(w, t, p, d)
    requires |t1| == |t| && multiset(t1) == multiset(t)
    requires forall c :: !InZone(p, d, LeftBox, c) ==> At(w, t1, c) == At(w, t, c)
    requires At(w, t1, p) == Some(LeftBox)
    requires At(w, t1, (p.0, p.1 + Dy(d))) == Some(Tile2.Empty)
    requires (pushed, t2) == Push2(w, t1, (p.0 + 1, p.1 + Dy(d)), d) && pushed.None?
    ensures Push2VerticalRest(w, t, t1, p, d) == (None, t2)
  {
  }

  /** The writes of a vertical push once both cells beyond the box are
      clear: they lie on the map and give what the functional push gives. */
  lemma {:induction false} VerticalRestMoves(w: nat, t: seq<Tile2>, t1: seq<Tile2>, t2: seq<Tile2>, p: Pos, d: Move, pushed: Option<Pos>)
    requires w > 0 && Paired(w, t1) && Dy(d) != 0
    requires At(w, t, p) == Some(LeftBox) && CanMove(w, t, p, d)
    requires |t1| == |t| && multiset(t1) == multiset(t)
    requires forall c :: !InZone(p, d, LeftBox, c) ==> At(w, t1, c) == At(w, t, c)
    requires At(w, t1, p) == Some(LeftBox)
    requires At(w, t1, (p.0, p.1 + Dy(d))) == Some(Tile2.Empty)
    requires (pushed, t2) == Push2(w, t1, (p.0 + 1, p.1 + Dy(d)), d) && pushed.Some?
    requires var q := (p.0, p.1 + Dy(d));
      InGrid(w, t2, p) && InGrid(w, t2, (p.0 + 1, p.1)) && InGrid(w, t2, q) && InGrid(w, t2, (q.0 + 1, q.1))
    ensures Push2VerticalRest(w, t, t1, p, d).0 == Some((p.0, p.1 + Dy(d)))
    ensures Push2VerticalRest(w, t, t1, p, d).1 == BoxRowWrites(w, t2, p, (p.0, p.1 + Dy(d)))
  {
  }

  /** The cells a vertical push writes lie on the map. */
  lemma {:induction false} VerticalCells(w: nat, t: seq<Tile2>, t1: seq<Tile2>, t2: seq<Tile2>, p: Pos, d: Move, pushed: Option<Pos>)
    requires w > 0 && Paired(w, t1) && Dy(d) != 0
    requires At(w, t, p) == Some(LeftBox) && CanMove(w, t, p, d)
    requires |t1| == |t| && multiset(t1) == multiset(t)
    requires forall c :: !InZone(p, d, LeftBox, c) ==> At(w, t1, c) == At(w, t, c)
    requires At(w, t1, p) == Some(LeftBox)
    requires At(w, t1, (p.0, p.1 + Dy(d))) == Some(Tile2.Empty)
    requires pushed.Some? && Moved(w, t1, t2, (p.0 + 1, p.1 + Dy(d)), d, pushed)
    ensures var q := (p.0, p.1 + Dy(d));
      && InGrid(w, t2, p) && InGrid(w, t2, (p.0 + 1, p.1))
      && InGrid(w, t2, q) && InGrid(w, t2, (q.0 + 1, q.1))
      && Index(w, t2, q) == CellIndex(w, q.0, q.1)
      && Index(w, t2, (q.0 + 1, q.1)) == CellIndex(w, q.0 + 1, q.1)
      && Index(w, t2, p) == CellIndex(w, p.0, p.1)
      && Index(w, t2, (p.0 + 1, p.1)) == CellIndex(w, p.0 + 1, p.1)
  {
    var q := (p.0, p.1 + Dy(d));
    VerticalSecond(w, t, t1, t2, p, d);
    VerticalDone(w, t, t2, p, q, d);
  }

  /** The push of a box to the left, as the writes leave the map. */
  lemma {:induction false} LeftDone(w: nat, t: seq<Tile2>, t1: seq<Tile2>, p: Pos)
    requires w > 0 && At(w, t, p) == Some(LeftBox) && CanMove(w, t, p, Left)
    requires |t1| == |t| && Paired(w, t1) && multiset(t1) == multiset(t)
    requires forall c :: !InZone(p, Left, LeftBox, c) ==> At(w, t1, c) == At(w, t, c)
    requires At(w, t1, p) == Some(LeftBox) && At(w, t1, (p.0 - 1, p.1)) == Some(Tile2.Empty)
    ensures InGrid(w, t1, (p.0 - 1, p.1)) && InGrid(w, t1, p) && InGrid(w, t1, (p.0 + 1, p.1))
    ensures Index(w, t1, (p.0 - 1, p.1)) == CellIndex(w, p.0 - 1, p.1)
    ensures Index(w, t1, p) == CellIndex(w, p.0, p.1)
    ensures Index(w, t1, (p.0 + 1, p.1)) == CellIndex(w, p.0 + 1, p.1)
    ensures Moved(w, t, t1[CellIndex(w, p.0 - 1, p.1) := LeftBox][CellIndex(w, p.0, p.1) := RightBox]
                         [CellIndex(w, p.0 + 1, p.1) := Tile2.Empty], p, Left, Some((p.0 - 1, p.1)))
  {
    BoxFinal(w, t, t1, p, Left);
    LeftWrites(w, t1, p);
  }

  /** The push of a box to the right, as the writes leave the map. */
  lemma {:induction false} RightDone(w: nat, t: seq<Tile2>, t1: seq<Tile2>, p: Pos)
    requires w > 0 && At(w, t, p) == Some(LeftBox) && CanMove(w, t, p, Right)
    requires |t1| == |t| && Paired(w, t1) && multiset(t1) == multiset(t)
    requires forall c :: !InZone(p, Right, LeftBox, c) ==> At(w, t1, c) == At(w, t, c)
    requires At(w, t1, p) == Some(LeftBox) && At(w, t1, (p.0 + 2, p.1)) == Some(Tile2.Empty)
    ensures InGrid(w, t1, p) && InGrid(w, t1, (p.0 + 1, p.1)) && InGrid(w, t1, (p.0 + 2, p.1))
    ensures Index(w, t1, (p.0 + 1, p.1)) == CellIndex(w, p.0 + 1, p.1)
    ensures Index(w, t1, (p.0 + 2, p.1)) == CellIndex(w, p.0 + 2, p.1)
    ensures Index(w, t1, p) == CellIndex(w, p.0, p.1)
    ensures Moved(w, t, t1[CellIndex(w, p.0 + 1, p.1) := LeftBox][CellIndex(w, p.0 + 2, p.1) := RightBox]
                         [CellIndex(w, p.0, p.1) := Tile2.Empty], p, Right, Some((p.0 + 1, p.1)))
  {
    BoxFinal(w, t, t1, p, Right);
    RightWrites(w, t1, p);
  }

  /** The push of a box up or down, as the writes leave the map. */
  lemma {:induction false} VerticalDone(w: nat, t: seq<Tile2>, t2: seq<Tile2>, p: Pos, q: Pos, d: Move)
    requires w > 0 && At(w, t, p) == Some(LeftBox) && CanMove(w, t, p, d)
    requires Dy(d) != 0 && q == (p.0, p.1 + Dy(d))
    requires |t2| == |t| && Paired(w, t2) && multiset(t2) == multiset(t)
    requires forall c :: !InZone(p, d, LeftBox, c) ==> At(w, t2, c) == At(w, t, c)
    requires At(w, t2, p) == Some(LeftBox) && At(w, t2, q) == Some(Tile2.Empty)
    requires At(w, t2, (q.0 + 1, q.1)) == Some(Tile2.Empty)
    ensures InGrid(w, t2, p) && InGrid(w, t2, (p.0 + 1, p.1))
    ensures InGrid(w, t2, q) && InGrid(w, t2, (q.0 + 1, q.1))
    ensures Index(w, t2, q) == CellIndex(w, q.0, q.1)
    ensures Index(w, t2, (q.0 + 1, q.1)) == CellIndex(w, q.0 + 1, q.1)
    ensures Index(w, t2, p) == CellIndex(w, p.0, p.1)
    ensures Index(w, t2, (p.0 + 1, p.1)) == CellIndex(w, p.0 + 1, p.1)
    ensures Moved(w, t, BoxRowWrites(w, t2, p, q),
                  p, d, Some(q))
  {
    UnitMoves(d);
    assert q == Next(p, d);
    BoxFinal(w, t, t2, p, d);
    VerticalWrites(w, t2, p, q);
  }

  /** `Map<Tile2>::try_move` on the matrix as a value: the answer and the
      map it leaves, arm by arm as the source writes it. */
  function Push2(w: nat, t: seq<Tile2>, p: Pos, d: Move): (r: (Option<Pos>, seq<Tile2>))
    requires w > 0 && Paired(w, t)
    decreases Measure(w, t, p, d), 2
    ensures Moved(w, t, r.1, p, d, r.0)
  {
    if !CanMove(w, t, p, d) then
      Refused(w, t, p, d);
      (None, t)
    else if At(w, t, p) == Some(Tile2.Empty) then
      MovedEmpty(w, t, p, d);
      (Some(p), t)
    else if At(w, t, p) == Some(Tile2.Robot) then
      Push2Robot(w, t, p, d)
    else if At(w, t, p) == Some(LeftBox) then
      if d == Left then Push2Left(w, t, p)
      else if d == Right then Push2Right(w, t, p)
      else Push2Vertical(w, t, p, d)
    else
      assert PairAt(w, t, p);
      var r := Push2(w, t, (p.0 - 1, p.1), d);
      RightHalfHandsOver(w, t, r.1, p, d, r.0);
      r
  }

  /** The robot's arm: clear the cell ahead, then step onto it. */
  function Push2Robot(w: nat, t: seq<Tile2>, p: Pos, d: Move): (r: (Option<Pos>, seq<Tile2>))
    requires w > 0 && Paired(w, t)
    requires At(w, t, p) == Some(Tile2.Robot) && CanMove(w, t, p, d)
    decreases Measure(w, t, p, d), 1
    ensures Moved(w, t, r.1, p, d, r.0)
  {
    var q := Next(p, d);
    AheadOfRobot(w, t, p, d);
    var (pushed, t1) := Push2(w, t, q, d);
    if pushed.None? then
      RobotStays(w, t, t1, p, d);
      (None, t1)
    else
      RobotSteps(w, t, t1, p, d);
      (Some(q), t1[Index(w, t1, q) := Tile2.Robot][Index(w, t1, p) := Tile2.Empty])
  }

  /** A box pushed left: clear the cell before it, then shift both halves. */
  function Push2Left(w: nat, t: seq<Tile2>, p: Pos): (r: (Option<Pos>, seq<Tile2>))
    requires w > 0 && Paired(w, t)
    requires At(w, t, p) == Some(LeftBox) && CanMove(w, t, p, Left)
    decreases Measure(w, t, p, Left), 1
    ensures Moved(w, t, r.1, p, Left, r.0)
  {
    var q := (p.0 - 1, p.1);
    var (pushed, t1) := Push2(w, t, q, Left);
    LeftAhead(w, t, t1, p);
    if pushed.None? then
      BoxStuck(w, t, t1, p, Left);
      (None, t1)
    else
      LeftDone(w, t, t1, p);
      (Some(q), t1[CellIndex(w, p.0 - 1, p.1) := LeftBox][CellIndex(w, p.0, p.1) := RightBox]
                  [CellIndex(w, p.0 + 1, p.1) := Tile2.Empty])
  }

  /** A box pushed right: clear the cell past its right half, then shift
      both halves. */
  function Push2Right(w: nat, t: seq<Tile2>, p: Pos): (r: (Option<Pos>, seq<Tile2>))
    requires w > 0 && Paired(w, t)
    requires At(w, t, p) == Some(LeftBox) && CanMove(w, t, p, Right)
    decreases Measure(w, t, p, Right), 1
    ensures Moved(w, t, r.1, p, Right, r.0)
  {
    assert PairAt(w, t, p);
    var (pushed, t1) := Push2(w, t, (p.0 + 2, p.1), Right);
    RightAhead(w, t, t1, p);
    if pushed.None? then
      BoxStuck(w, t, t1, p, Right);
      (None, t1)
    else
      RightDone(w, t, t1, p);
      (Some((p.0 + 1, p.1)), t1[CellIndex(w, p.0 + 1, p.1) := LeftBox][CellIndex(w, p.0 + 2, p.1) := RightBox]
                               [CellIndex(w, p.0, p.1) := Tile2.Empty])
  }

  /** A box pushed up or down: clear the cell beyond its left half first. */
  function Push2Vertical(w: nat, t: seq<Tile2>, p: Pos, d: Move): (r: (Option<Pos>, seq<Tile2>))
    requires w > 0 && Paired(w, t) && Dy(d) != 0
    requires At(w, t, p) == Some(LeftBox) && CanMove(w, t, p, d)
    decreases Measure(w, t, p, d), 1
    ensures Moved(w, t, r.1, p, d, r.0)
  {
    var (pushed, t1) := Push2(w, t, (p.0, p.1 + Dy(d)), d);
    VerticalFirst(w, t, t1, p, d);
    if pushed.None? then
      BoxStuck(w, t, t1, p, d);
      (None, t1)
    else
      Push2VerticalRest(w, t, t1, p, d)
  }

  /** Then the cell beyond its right half, then both halves move a row. */
  function Push2VerticalRest(w: nat, t: seq<Tile2>, t1: seq<Tile2>, p: Pos, d: Move): (r: (Option<Pos>, seq<Tile2>))
    requires w > 0 && Paired(w, t1) && Dy(d) != 0
    requires At(w, t, p) == Some(LeftBox) && CanMove(w, t, p, d)
    requires |t1| == |t| && multiset(t1) == multiset(t)
    requires forall c :: !InZone(p, d, LeftBox, c) ==> At(w, t1, c) == At(w, t, c)
    requires At(w, t1, p) == Some(LeftBox)
    requires At(w, t1, (p.0, p.1 + Dy(d))) == Some(Tile2.Empty)
    decreases Measure(w, t, p, d), 0
    ensures Moved(w, t, r.1, p, d, r.0)
  {
    var q := (p.0, p.1 + Dy(d));
    var (pushed, t2) := Push2(w, t1, (p.0 + 1, q.1), d);
    VerticalSecond(w, t, t1, t2, p, d);
    if pushed.None? then
      BoxStuck(w, t, t2, p, d);
      (None, t2)
    else
      VerticalDone(w, t, t2, p, q, d);
      (Some(q), BoxRowWrites(w, t2, p, q))
  }

  // ---------------------------------------------------------------------------
  // Reading the puzzle input (`FromStr for Tile`, lines 90-100;
  // `FromStr for Map`, lines 167-183)

  /** `Tile::from_str` on one character: `.`, `O`, `#` and `@`, nothing for
      anything else. */
  function ParseTile(c: char): (r: Option<Tile>)
    ensures r.Some? <==> c == '.' || c == 'O' || c == '#' || c == '@'
    ensures r == Some(Tile.Box) <==> c == 'O'
    ensures r == Some(Tile.Robot) <==> c == '@'
    ensures r == Some(Tile.Wall) <==> c == '#'
  {
    match c
    case '.' => Some(Tile.Empty)
    case 'O' => Some(Box)
    case '#' => Some(Tile.Wall)
    case '@' => Some(Tile.Robot)
    case _ => None
  }

  /** Every character of `line` is a tile. */
  predicate TileRow(line: string)
  {
    forall i :: 0 <= i < |line| ==> ParseTile(line[i]).Some?
  }

  /** The tiles of the lines, row after row. */
  function ParseRows(lines: seq<string>): (r: seq<Tile>)
    requires forall y :: 0 <= y < |lines| ==> TileRow(lines[y])
  {
    if |lines| == 0 then []
    else
      assert TileRow(lines[0]);
      seq(|lines[0]|, i requires 0 <= i < |lines[0]| => ParseTile(lines[0][i]).value)
      + ParseRows(lines[1..])
  }

  /** The map's lines, parsed cell by cell: the width of the first line,
      every line as wide, every character a tile; nothing where the source
      panics (no line, an empty first line, a line of another width) or
      fails to parse a character. */
  function ParseMap(lines: seq<string>): (r: Option<(nat, seq<Tile>)>)
    ensures r.Some? <==>
      && |lines| > 0 && |lines[0]| > 0
      && (forall y :: 0 <= y < |lines| ==> |lines[y]| == |lines[0]|)
      && (forall y :: 0 <= y < |lines| ==> TileRow(lines[y]))
    ensures r.Some? ==> r.value.0 == |lines[0]|
  {
    if |lines| == 0 || |lines[0]| == 0 then None
    else if exists y :: 0 <= y < |lines| && |lines[y]| != |lines[0]| then None
    else if exists y :: 0 <= y < |lines| && !TileRow(lines[y]) then None
    else Some((|lines[0]|, ParseRows(lines)))
  }

  /** Row `y`, column `x` of the parsed rows is character `x` of line `y`. */
  lemma {:induction false} ParseRowsCell(lines: seq<string>, w: nat, x: nat, y: nat)
    requires forall i :: 0 <= i < |lines| ==> |lines[i]| == w && TileRow(lines[i])
    requires x < w && y < |lines|
    ensures |ParseRows(lines)| == CellIndex(w, 0, |lines|)
    ensures CellIndex(w, x, y) < |ParseRows(lines)|
    ensures ParseRows(lines)[CellIndex(w, x, y)] == ParseTile(lines[y][x]).value
  {
    var rest := lines[1..];
    if |lines| == 1 {
      assert ParseRows(rest) == [];
      CellIndexRow(w, 0, 1);
    } else if y == 0 {
      ParseRowsCell(rest, w, x, 0);
      CellIndexRow(w, 0, |lines|);
      CellIndexRow(w, 0, |rest|);
    } else {
      ParseRowsCell(rest, w, x, y - 1);
      CellIndexRow(w, 0, |lines|);
      CellIndexRow(w, 0, |rest|);
    }
  }

  /** The parsed map has one row per line, and the tile at column `x`, row
      `y` is character `x` of line `y`. */
  lemma ParseMapCells(lines: seq<string>, x: int, y: int)
    requires ParseMap(lines).Some?
    ensures var (w, t) := ParseMap(lines).value;
      && w > 0 && Rows(w, t) == |lines| && |t| == w * |lines|
      && (0 <= x < w && 0 <= y < |lines| ==> At(w, t, (x, y)) == ParseTile(lines[y][x]))
  {
    var (w, t) := ParseMap(lines).value;
    ParseRowsCell(lines, w, 0, 0);
    CellIndexIs(w, 0, |lines|);
    RowsOfProduct(w, |lines|);
    if 0 <= x < w && 0 <= y < |lines| {
      ParseRowsCell(lines, w, x, y);
      CellIndexIs(w, x, y);
    }
  }

  /** The two halves of the input, the map read and the moves listed:
      nothing when there is no blank line or the map does not parse. */
  function Warehouse(input: string): (r: Option<(nat, seq<Tile>, seq<Move>)>)
    ensures r.Some? ==> r.value.0 > 0
    ensures r.Some? <==>
      (SplitOnce(input, "\n\n").Some?
       && ParseMap(Lines(Trim(SplitOnce(input, "\n\n").value.0))).Some?)
  {
    match SplitOnce(input, "\n\n")
    case None => None
    case Some((mapText, program)) =>
      match ParseMap(Lines(Trim(mapText)))
      case None => None
      case Some((w, t)) => Some((w, t, ParseMoves(program)))
  }

  /** A push of the robot leaves it on the cell `try_move` answers (or where
      it stood when nothing moved), and moves no wall. */
  lemma RobotFollows(w: nat, t: seq<Tile>, t': seq<Tile>, p: Pos, d: Move, r: Option<Pos>)
    requires w > 0 && At(w, t, p) == Some(Tile.Robot) && Pushed(w, t, t', p, d, r)
    ensures At(w, t', if r.Some? then r.value else p) == Some(Tile.Robot)
    ensures forall c :: At(w, t', c) == Some(Tile.Wall) <==> At(w, t, c) == Some(Tile.Wall)
  {
    if r.Some? {
      ShiftedWalls(w, t, t', p, d);
      RobotMoves(w, t, t', p, d);
    }
  }

  /** A push that goes through moves the robot one cell on. */
  lemma {:induction false} RobotMoves(w: nat, t: seq<Tile>, t': seq<Tile>, p: Pos, d: Move)
    requires w > 0 && At(w, t, p) == Some(Tile.Robot)
    requires CanPush(w, t, p, d) && Shifted(w, t, t', p, d, RunLength(w, t, p, d))
    ensures At(w, t', Next(p, d)) == Some(Tile.Robot)
  {
    NextOnRun(w, t, p, d);
  }

  /** The cell after a pushed tile is the first of its run, and on the map. */
  lemma {:induction false} NextOnRun(w: nat, t: seq<Tile>, p: Pos, d: Move)
    requires w > 0 && CanPush(w, t, p, d)
    ensures OnRun(p, d, RunLength(w, t, p, d), Next(p, d))
    ensures Offset(Next(p, d), d, -1) == p && Next(p, d) != p
    ensures InGrid(w, t, Next(p, d))
  {
    var q := Next(p, d);
    RunMovable(w, t, p, d, 0);
    RunNext(w, t, p, d);
    assert OnRun(p, d, RunLength(w, t, p, d), q);
    RunCell(w, t, p, d, q);
  }

  /** The robot's walk (lines 14-19 and 35-40): each move is tried in turn
      from the cell the last push left the robot on. */
  function Walk(w: nat, t: seq<Tile>, p: Pos, moves: seq<Move>): (seq<Tile>, Pos)
    requires w > 0
    decreases |moves|
  {
    if |moves| == 0 then (t, p)
    else
      var (moved, t1) := Push(w, t, p, moves[0]);
      Walk(w, t1, if moved.Some? then moved.value else p, moves[1..])
  }

  /** The walk keeps the map's tiles and walls, and the robot stands on the
      cell it is tracked on. */
  lemma {:induction false} WalkKeeps(w: nat, t: seq<Tile>, p: Pos, moves: seq<Move>)
    requires w > 0 && At(w, t, p) == Some(Tile.Robot)
    ensures var (t', p') := Walk(w, t, p, moves);
      && |t'| == |t| && multiset(t') == multiset(t)
      && (forall c :: At(w, t', c) == Some(Tile.Wall) <==> At(w, t, c) == Some(Tile.Wall))
      && At(w, t', p') == Some(Tile.Robot)
    decreases |moves|
  {
    if |moves| > 0 {
      var (moved, t1) := Push(w, t, p, moves[0]);
      RobotFollows(w, t, t1, p, moves[0], moved);
      WalkKeeps(w, t1, if moved.Some? then moved.value else p, moves[1..]);
    }
  }

  /** The same walk on the widened map. */
  function Walk2(w: nat, t: seq<Tile2>, p: Pos, moves: seq<Move>): (seq<Tile2>, Pos)
    requires w > 0 && Paired(w, t)
    decreases |moves|
  {
    if |moves| == 0 then (t, p)
    else
      var (moved, t1) := Push2(w, t, p, moves[0]);
      Walk2(w, t1, if moved.Some? then moved.value else p, moves[1..])
  }

  /** The wide walk keeps the map's tiles and every box whole, and the robot
      stands on the cell it is tracked on. */
  lemma {:induction false} Walk2Keeps(w: nat, t: seq<Tile2>, p: Pos, moves: seq<Move>)
    requires w > 0 && Paired(w, t) && At(w, t, p) == Some(Tile2.Robot)
    ensures var (t', p') := Walk2(w, t, p, moves);
      && |t'| == |t| && multiset(t') == multiset(t) && Paired(w, t')
      && At(w, t', p') == Some(Tile2.Robot)
    decreases |moves|
  {
    if |moves| > 0 {
      var (moved, t1) := Push2(w, t, p, moves[0]);
      Walk2Keeps(w, t1, if moved.Some? then moved.value else p, moves[1..]);
    }
  }

  /** `day15part1` (lines 6-24): the GPS sum of the boxes once the robot
      has tried every move, tracking the robot by what `try_move` answers.
      Nothing where the source panics: no blank line, a map that does not
      parse, no robot. The final map holds the tiles of the first, with the
      walls where they were and the robot on the tracked cell. */
  method Part1(input: string) returns (r: Option<int>, ghost final: seq<Tile>, ghost robot: Pos)
    ensures r.None? <==> (Warehouse(input).None?
      || FindFirst(Warehouse(input).value.0, Warehouse(input).value.1, Tile.Robot).None?)
    ensures r.Some? ==> var (w, t, _) := Warehouse(input).value;
      && |final| == |t| && multiset(final) == multiset(t)
      && (forall c :: At(w, final, c) == Some(Tile.Wall) <==> At(w, t, c) == Some(Tile.Wall))
      && At(w, final, robot) == Some(Tile.Robot)
      && r.value == Score(w, final, Box)
    ensures r.Some? ==> var (w, t, moves) := Warehouse(input).value;
      (final, robot) == Walk(w, t, FindFirst(w, t, Tile.Robot).value, moves)
  {
    var parsed := Warehouse(input);
    if parsed.None? {
      return None, [], (0, 0);
    }
    var (w, t, moves) := parsed.value;
    var start := FindFirst(w, t, Tile.Robot);
    if start.None? {
      return None, [], (0, 0);
    }
    var m := new Map(w, t);
    var pos := start.value;
    for i := 0 to |moves|
      invariant m.width == w
      invariant Walk(w, t, start.value, moves) == Walk(w, m.matrix, pos, moves[i..])
    {
      var moved := TryMove(m, pos, moves[i]);
      assert moves[i..][0] == moves[i] && moves[i..][1..] == moves[i + 1..];
      if moved.Some? {
        pos := moved.value;
      }
    }
    assert moves[|moves|..] == [];
    WalkKeeps(w, t, start.value, moves);
    return Some(Score(w, m.matrix, Box)), m.matrix, pos;
  }

  /** `day15part2` (lines 26-45): the same walk on the widened map, summing
      the GPS coordinates of the boxes' left halves. The final map holds the
      tiles of the widened one, every box still whole, and the robot on the
      tracked cell. */
  method Part2(input: string) returns (r: Option<int>, ghost final: seq<Tile2>, ghost robot: Pos)
    ensures r.None? <==> (Warehouse(input).None?
      || FindFirst(2 * Warehouse(input).value.0, Doubled(Warehouse(input).value.1), Tile2.Robot).None?)
    ensures r.Some? ==> var (w, t, _) := Warehouse(input).value;
      && |final| == 2 * |t| && multiset(final) == multiset(Doubled(t)) && Paired(2 * w, final)
      && At(2 * w, final, robot) == Some(Tile2.Robot)
      && r.value == Score(2 * w, final, LeftBox)
    ensures r.Some? ==> var (w, t, moves) := Warehouse(input).value;
      && Paired(2 * w, Doubled(t))
      && (final, robot) == Walk2(2 * w, Doubled(t), FindFirst(2 * w, Doubled(t), Tile2.Robot).value, moves)
  {
    var parsed := Warehouse(input);
    if parsed.None? {
      return None, [], (0, 0);
    }
    var (w, t, moves) := parsed.value;
    var original := new Map(w, t);
    var m := Double(original);
    DoubledPaired(w, t);
    var start := FindFirst(m.width, m.matrix, Tile2.Robot);
    if start.None? {
      return None, [], (0, 0);
    }
    var pos := start.value;
    for i := 0 to |moves|
      invariant m.width == 2 * w && Paired(2 * w, m.matrix)
      invariant Walk2(2 * w, Doubled(t), start.value, moves) == Walk2(2 * w, m.matrix, pos, moves[i..])
    {
      var moved := TryMove2(m, pos, moves[i]);
      assert moves[i..][0] == moves[i] && moves[i..][1..] == moves[i + 1..];
      if moved.Some? {
        pos := moved.value;
      }
    }
    assert moves[|moves|..] == [];
    Walk2Keeps(2 * w, Doubled(t), start.value, moves);
    return Some(Score(2 * w, m.matrix, LeftBox)), m.matrix, pos;
  }
}
