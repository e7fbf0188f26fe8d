/** Day 12: garden groups. A grid of crop letters falls into regions, each a
    maximal group of orthogonally connected plots with the same crop. Part 1
    prices each region by area times perimeter; part 2 by area times the
    number of straight sides, found by walking around the region's edge. */
module Day12 {
  import opened Common

  /** `Plot` (lines 280-295): a crop letter and the region the plot has been
      given, if any. */
  datatype Plot = Plot(crop: char, region: Option<int>)

  /** `RegionSize` (lines 52-57). */
  datatype RegionSize = RegionSize(region: int, area: int, perimeter: int)

  /** `Edge` (lines 272-278): the side of a plot the boundary walk follows. */
  datatype Edge = Top | Right | Bottom | Left

  /** A column and a row, both `usize` in the source. */
  type Cell = (nat, nat)

  // ---------------------------------------------------------------------------
  // The map as a value: a width and the plots in row-major order

  /** `Map::height` (lines 329-331). */
  function Rows(w: nat, tiles: seq<Plot>): nat
    requires w > 0
  {
    |tiles| / w
  }

  predicate InGrid(w: nat, tiles: seq<Plot>, c: Cell)
    requires w > 0
  {
    c.0 < w && c.1 < Rows(w, tiles)
  }

  /** The position of a cell in the matrix, `width * y + x`. */
  function Index(w: nat, tiles: seq<Plot>, c: Cell): (i: nat)
    requires w > 0 && InGrid(w, tiles, c)
    ensures i < |tiles|
  {
    RowsIndexBound(w, |tiles|, c.0, c.1);
    CellIndexIs(w, c.0, c.1);
    CellIndex(w, c.0, c.1)
  }

  /** Two cells of the grid share no entry of the matrix. */
  lemma IndexInjective(w: nat, tiles: seq<Plot>, c: Cell, d: Cell)
    requires w > 0 && InGrid(w, tiles, c) && InGrid(w, tiles, d) && c != d
    ensures Index(w, tiles, c) != Index(w, tiles, d)
  {
    CellIndexIs(w, c.0, c.1);
    CellIndexIs(w, d.0, d.1);
    if Index(w, tiles, c) == Index(w, tiles, d) {
      GridIndexUnique(w, c.0, c.1, d.0, d.1);
    }
  }

  /** `Map::get` (lines 333-339): nothing exactly when the column is at
      least the width or the row at least the height. */
  function PlotAt(w: nat, tiles: seq<Plot>, c: Cell): (r: Option<Plot>)
    requires w > 0
    ensures r.Some? <==> c.0 < w && c.1 < |tiles| / w
    ensures r.Some? ==> r.value == tiles[Index(w, tiles, c)]
  {
    if c.0 >= w || c.1 >= Rows(w, tiles) then None else Some(tiles[Index(w, tiles, c)])
  }

  /** `Some(plot) if plot.crop == crop`. */
  predicate SameCrop(w: nat, tiles: seq<Plot>, c: Cell, crop: char)
    requires w > 0
  {
    PlotAt(w, tiles, c).Some? && PlotAt(w, tiles, c).value.crop == crop
  }

  /** `is_some_and(|p| p.region == Some(region))`. */
  predicate InRegion(w: nat, tiles: seq<Plot>, c: Cell, region: int)
    requires w > 0
  {
    PlotAt(w, tiles, c).Some? && PlotAt(w, tiles, c).value.region == Some(region)
  }

  /** Labelling changes regions, never crops. */
  ghost predicate SameCrops(t: seq<Plot>, t0: seq<Plot>)
  {
    |t| == |t0| && forall i :: 0 <= i < |t| ==> t[i].crop == t0[i].crop
  }

  lemma SameCropsAgree(w: nat, t: seq<Plot>, t0: seq<Plot>, c: Cell, crop: char)
    requires w > 0 && SameCrops(t, t0)
    ensures SameCrop(w, t, c, crop) == SameCrop(w, t0, c, crop)
  {
  }

  /** The four neighbours the flood fill looks at; the source checks `x > 0`
      and `y > 0` before it looks left or up. */
  predicate Adjacent(c: Cell, n: Cell)
  {
    n == (c.0 + 1, c.1) || (c.0 > 0 && n == (c.0 - 1, c.1)) ||
    n == (c.0, c.1 + 1) || (c.1 > 0 && n == (c.0, c.1 - 1))
  }

  /** The number of sides of plot `c` that count towards the perimeter: those
      whose neighbour is off the map or grows another crop. */
  function Fence(w: nat, tiles: seq<Plot>, c: Cell, crop: char): (n: nat)
    requires w > 0
    ensures n <= 4
  {
    RowFence(w, tiles, c, crop) + ColumnFence(w, tiles, c, crop)
  }

  /** The fenced sides of the two neighbours in the row. */
  function RowFence(w: nat, tiles: seq<Plot>, c: Cell, crop: char): (n: nat)
    requires w > 0
    ensures n <= 2
  {
    (if SameCrop(w, tiles, (c.0 + 1, c.1), crop) then 0 else 1) +
    (if c.0 > 0 && SameCrop(w, tiles, (c.0 - 1, c.1), crop) then 0 else 1)
  }

  /** The fenced sides of the two neighbours in the column. */
  function ColumnFence(w: nat, tiles: seq<Plot>, c: Cell, crop: char): (n: nat)
    requires w > 0
    ensures n <= 2
  {
    (if SameCrop(w, tiles, (c.0, c.1 + 1), crop) then 0 else 1) +
    (if c.1 > 0 && SameCrop(w, tiles, (c.0, c.1 - 1), crop) then 0 else 1)
  }

  function FenceTotal(w: nat, tiles: seq<Plot>, cells: seq<Cell>, crop: char): (n: nat)
    requires w > 0
    ensures n <= 4 * |cells|
  {
    if |cells| == 0 then 0
    else FenceTotal(w, tiles, cells[..|cells| - 1], crop) + Fence(w, tiles, cells[|cells| - 1], crop)
  }

  /** The number of plots without a region. */
  function Unlabelled(tiles: seq<Plot>): (n: nat)
    ensures n <= |tiles|
  {
    if |tiles| == 0 then 0
    else Unlabelled(tiles[..|tiles| - 1]) + (if tiles[|tiles| - 1].region.None? then 1 else 0)
  }

  /** Giving an unlabelled plot a region leaves one fewer unlabelled. */
  lemma {:induction false} UnlabelledLabel(tiles: seq<Plot>, i: nat, r: int)
    requires i < |tiles| && tiles[i].region.None?
    ensures Unlabelled(tiles[i := tiles[i].(region := Some(r))]) == Unlabelled(tiles) - 1
  {
    var t' := tiles[i := tiles[i].(region := Some(r))];
    var n := |tiles| - 1;
    if i < n {
      assert t'[..n] == tiles[..n][i := tiles[i].(region := Some(r))];
      UnlabelledLabel(tiles[..n], i, r);
    } else {
      assert t'[..n] == tiles[..n];
    }
  }

  // ---------------------------------------------------------------------------
  // The map as an object (lines 297-348)

  class Map {
    var width: nat
    var matrix: seq<Plot>

    constructor(width: nat, matrix: seq<Plot>)
      ensures this.width == width && this.matrix == matrix
    {
      this.width := width;
      this.matrix := matrix;
    }

    /** `get`. */
    function Get(x: nat, y: nat): Option<Plot>
      reads this
      requires width > 0
    {
      PlotAt(width, matrix, (x, y))
    }

    /** Labelling the plot at `(x, y)` through its mutable reference: the
        plot joins the region and nothing else changes. */
    method Label(x: nat, y: nat, region: int)
      requires width > 0 && InGrid(width, matrix, (x, y))
      modifies this
      ensures width == old(width)
      ensures matrix == old(matrix)[Index(width, old(matrix), (x, y)) :=
        old(matrix)[Index(width, old(matrix), (x, y))].(region := Some(region))]
    {
      var idx := width * y + x;
      assert idx == Index(width, matrix, (x, y)) by {
        CellIndexIs(width, x, y);
      }
      matrix := matrix[idx := matrix[idx].(region := Some(region))];
    }
  }

  // ---------------------------------------------------------------------------
  // `map_region` (lines 59-136): a breadth-first flood fill

  /** The crop of a cell of the grid. */
  function CropAt(w: nat, tiles: seq<Plot>, c: Cell): char
    requires w > 0 && InGrid(w, tiles, c)
  {
    tiles[Index(w, tiles, c)].crop
  }

  predicate Labelled(w: nat, tiles: seq<Plot>, c: Cell)
    requires w > 0
  {
    PlotAt(w, tiles, c).Some? && PlotAt(w, tiles, c).value.region.Some?
  }

  /** Plot `c` had no region in `t0` and now belongs to `region`. */
  ghost predicate Claimed(w: nat, t0: seq<Plot>, t: seq<Plot>, c: Cell, crop: char, region: int)
    requires w > 0
  {
    InGrid(w, t0, c) && PlotAt(w, t0, c).value.region.None? && PlotAt(w, t, c) == Some(Plot(crop, Some(region)))
  }

  /** The neighbours of `c` the fill queues: those with the same crop, in
      the order the source looks at them. */
  function Pushes(w: nat, tiles: seq<Plot>, c: Cell, crop: char): seq<Cell>
    requires w > 0
  {
    RowPushes(w, tiles, c, crop) + ColumnPushes(w, tiles, c, crop)
  }

  function RowPushes(w: nat, tiles: seq<Plot>, c: Cell, crop: char): seq<Cell>
    requires w > 0
  {
    Queued(w, tiles, (c.0 + 1, c.1), crop) + (if c.0 > 0 then Queued(w, tiles, (c.0 - 1, c.1), crop) else [])
  }

  function ColumnPushes(w: nat, tiles: seq<Plot>, c: Cell, crop: char): seq<Cell>
    requires w > 0
  {
    Queued(w, tiles, (c.0, c.1 + 1), crop) + (if c.1 > 0 then Queued(w, tiles, (c.0, c.1 - 1), crop) else [])
  }

  /** One neighbour, queued when it has the crop. */
  function Queued(w: nat, tiles: seq<Plot>, n: Cell, crop: char): seq<Cell>
    requires w > 0
  {
    if SameCrop(w, tiles, n, crop) then [n] else []
  }

  /** The fill queues exactly the neighbours with the crop. */
  lemma PushesAre(w: nat, tiles: seq<Plot>, c: Cell, crop: char)
    requires w > 0
    ensures forall n :: n in Pushes(w, tiles, c, crop) <==> Adjacent(c, n) && SameCrop(w, tiles, n, crop)
  {
  }

  /** Each of the four sides of a plot either leads on to a plot of the
      region or is fenced. */
  lemma FenceOrPush(w: nat, tiles: seq<Plot>, c: Cell, crop: char)
    requires w > 0
    ensures Fence(w, tiles, c, crop) + |Pushes(w, tiles, c, crop)| == 4
  {
  }

  /** Every plot of `cells` had no region in `t0` and now belongs to
      `region`. */
  ghost predicate AllClaimed(w: nat, t0: seq<Plot>, t: seq<Plot>, cells: seq<Cell>, crop: char, region: int)
    requires w > 0
  {
    forall c :: c in cells ==> Claimed(w, t0, t, c, crop, region)
  }

  /** Every other plot is as it was in `t0`. */
  ghost predicate Untouched(w: nat, t0: seq<Plot>, t: seq<Plot>, cells: seq<Cell>)
    requires w > 0
  {
    forall c :: InGrid(w, t0, c) && c !in cells ==> PlotAt(w, t, c) == PlotAt(w, t0, c)
  }

  /** Every plot of the crop next to one of `cells` is labelled or queued. */
  ghost predicate Closed(w: nat, t0: seq<Plot>, t: seq<Plot>, cells: seq<Cell>, queue: seq<Cell>, crop: char)
    requires w > 0
  {
    forall c, n :: c in cells && Adjacent(c, n) && SameCrop(w, t0, n, crop) ==> n in queue || Labelled(w, t, n)
  }

  /** `cells` grow from `start`: the first is `start`, and every later one
      is next to an earlier one. */
  ghost predicate Grown(start: Cell, cells: seq<Cell>)
  {
    && (|cells| > 0 ==> cells[0] == start)
    && forall k :: 0 < k < |cells| ==> exists j :: 0 <= j < k && Adjacent(cells[j], cells[k])
  }

  /** Every queued plot is the start or is next to one of `cells`. */
  ghost predicate Fed(start: Cell, cells: seq<Cell>, queue: seq<Cell>)
  {
    forall q :: q in queue ==> q == start || exists c :: c in cells && Adjacent(c, q)
  }

  /** Consecutive cells of `p` are adjacent. */
  ghost predicate Chain(p: seq<Cell>)
  {
    forall i :: 0 < i < |p| ==> Adjacent(p[i - 1], p[i])
  }

  /** Each plot of a grown sequence is reached from the start by a chain of
      adjacent plots of the sequence. */
  lemma {:induction false} GrownPaths(start: Cell, cells: seq<Cell>, k: nat)
    requires Grown(start, cells) && k < |cells|
    ensures exists p: seq<Cell> :: |p| > 0 && p[0] == start && p[|p| - 1] == cells[k] && Chain(p)
                                   && forall c :: c in p ==> c in cells
    decreases k
  {
    if k == 0 {
      var p := [start];
      assert p[0] == start && p[|p| - 1] == cells[k] && Chain(p);
    } else {
      var j :| 0 <= j < k && Adjacent(cells[j], cells[k]);
      GrownPaths(start, cells, j);
      var p :| |p| > 0 && p[0] == start && p[|p| - 1] == cells[j] && Chain(p) && forall c :: c in p ==> c in cells;
      var p' := p + [cells[k]];
      assert p'[|p'| - 1] == cells[k] && p'[0] == start;
      assert Chain(p');
    }
  }

  /** The loop invariant of `map_region`: `cells` are the plots labelled so
      far, in order; the area counts them and the perimeter adds up their
      fences; the queue holds plots of the crop, and every plot of the crop
      next to a labelled one is labelled or waiting in the queue. The
      labelled plots grow from the start, and every queued plot is the start
      or next to a labelled one. */
  ghost predicate Filling(w: nat, t0: seq<Plot>, t: seq<Plot>, crop: char, region: int, start: Cell,
                          cells: seq<Cell>, queue: seq<Cell>, area: int, perimeter: int)
  {
    && w > 0 && SameCrops(t, t0)
    && area == |cells| && Distinct(cells)
    && AllClaimed(w, t0, t, cells, crop, region)
    && Untouched(w, t0, t, cells)
    && perimeter == FenceTotal(w, t0, cells, crop)
    && (forall q :: q in queue ==> SameCrop(w, t0, q, crop))
    && Closed(w, t0, t, cells, queue, crop)
    && (InGrid(w, t0, start) && PlotAt(w, t0, start).value.region.None? ==> start in cells || start in queue)
    && Grown(start, cells) && Fed(start, cells, queue)
  }

  /** Labelling the plot at the head of the queue and queueing its
      neighbours keeps the invariant. */
  lemma FillingStep(w: nat, t0: seq<Plot>, t: seq<Plot>, crop: char, region: int, start: Cell,
                    cells: seq<Cell>, q: Cell, queue: seq<Cell>, area: int, perimeter: int)
    requires Filling(w, t0, t, crop, region, start, cells, [q] + queue, area, perimeter)
    requires InGrid(w, t, q) && PlotAt(w, t, q).value.region.None?
    ensures var i := Index(w, t, q);
      Filling(w, t0, t[i := t[i].(region := Some(region))], crop, region, start, cells + [q],
              queue + Pushes(w, t0, q, crop), area + 1, perimeter + Fence(w, t0, q, crop))
  {
    var i := Index(w, t, q);
    var t1 := t[i := t[i].(region := Some(region))];
    assert q !in cells;
    PushesAre(w, t0, q, crop);
    ClaimStep(w, t0, t, crop, region, cells, q);
    ClosedStep(w, t0, t, crop, region, cells, q, queue);
    GrowStep(w, t0, t, crop, region, start, cells, q, queue);
    assert (cells + [q])[..|cells|] == cells;
  }

  /** A plot taken from the queue without a region grows the labelled plots
      from the start, and the plots it queues are next to it. */
  lemma GrowStep(w: nat, t0: seq<Plot>, t: seq<Plot>, crop: char, region: int, start: Cell,
                 cells: seq<Cell>, q: Cell, queue: seq<Cell>)
    requires w > 0 && Grown(start, cells) && Fed(start, cells, [q] + queue)
    requires AllClaimed(w, t0, t, cells, crop, region)
    requires InGrid(w, t, q) && PlotAt(w, t, q).value.region.None?
    ensures Grown(start, cells + [q])
    ensures Fed(start, cells + [q], queue + Pushes(w, t0, q, crop))
  {
    var s := cells + [q];
    assert q in [q] + queue;
    forall k | 0 < k < |s|
      ensures exists j :: 0 <= j < k && Adjacent(s[j], s[k])
    {
      if k < |cells| {
        var j :| 0 <= j < k && Adjacent(cells[j], cells[k]);
        assert s[j] == cells[j] && s[k] == cells[k];
      } else {
        assert Claimed(w, t0, t, cells[0], crop, region);
        var c :| c in cells && Adjacent(c, q);
        var j :| 0 <= j < |cells| && cells[j] == c;
        assert s[j] == c && s[k] == q;
      }
    }
    PushesAre(w, t0, q, crop);
    forall n | n in queue + Pushes(w, t0, q, crop)
      ensures n == start || exists c :: c in s && Adjacent(c, n)
    {
      if n in queue {
        assert n in [q] + queue;
        if n != start {
          var c :| c in cells && Adjacent(c, n);
          assert c in s;
        }
      } else {
        assert q in s && Adjacent(q, n);
      }
    }
  }

  lemma ClaimStep(w: nat, t0: seq<Plot>, t: seq<Plot>, crop: char, region: int, cells: seq<Cell>, q: Cell)
    requires w > 0 && SameCrops(t, t0) && SameCrop(w, t0, q, crop)
    requires AllClaimed(w, t0, t, cells, crop, region) && Untouched(w, t0, t, cells)
    requires InGrid(w, t, q) && PlotAt(w, t, q).value.region.None? && q !in cells
    ensures var i := Index(w, t, q); var t1 := t[i := t[i].(region := Some(region))];
      AllClaimed(w, t0, t1, cells + [q], crop, region) && Untouched(w, t0, t1, cells + [q])
  {
    var i := Index(w, t, q);
    var t1 := t[i := t[i].(region := Some(region))];
    forall c | InGrid(w, t0, c) && c != q
      ensures PlotAt(w, t1, c) == PlotAt(w, t, c)
    {
      IndexInjective(w, t, c, q);
    }
    assert Claimed(w, t0, t1, q, crop, region);
  }

  lemma ClosedStep(w: nat, t0: seq<Plot>, t: seq<Plot>, crop: char, region: int, cells: seq<Cell>, q: Cell, queue: seq<Cell>)
    requires w > 0 && InGrid(w, t, q)
    requires Closed(w, t0, t, cells, [q] + queue, crop)
    ensures var i := Index(w, t, q); var t1 := t[i := t[i].(region := Some(region))];
      Closed(w, t0, t1, cells + [q], queue + Pushes(w, t0, q, crop), crop)
  {
    var i := Index(w, t, q);
    var t1 := t[i := t[i].(region := Some(region))];
    forall c, n | c in cells + [q] && Adjacent(c, n) && SameCrop(w, t0, n, crop)
      ensures n in queue + Pushes(w, t0, q, crop) || Labelled(w, t1, n)
    {
      if c == q {
        PushesAre(w, t0, q, crop);
        assert n in Pushes(w, t0, q, crop);
      } else if n == q {
        assert Labelled(w, t1, n);
      } else if n !in queue {
        assert Labelled(w, t, n);
        if InGrid(w, t, n) {
          IndexInjective(w, t, n, q);
        }
      }
    }
  }

  /** A plot that already has a region leaves the queue. */
  lemma FillingSkip(w: nat, t0: seq<Plot>, t: seq<Plot>, crop: char, region: int, start: Cell,
                    cells: seq<Cell>, q: Cell, queue: seq<Cell>, area: int, perimeter: int)
    requires Filling(w, t0, t, crop, region, start, cells, [q] + queue, area, perimeter)
    requires Labelled(w, t, q)
    ensures Filling(w, t0, t, crop, region, start, cells, queue, area, perimeter)
  {
    forall n | n in queue
      ensures SameCrop(w, t0, n, crop) && (n == start || exists c :: c in cells && Adjacent(c, n))
    {
      assert n in [q] + queue;
    }
  }

  /** One `match grid.get(..)` of lines 86-122: a neighbour with the crop is
      queued, any other side adds to the perimeter. */
  method Neighbour(grid: Map, crop: char, n: Cell, queue: seq<Cell>, perimeter: int)
    returns (queue': seq<Cell>, perimeter': int)
    requires grid.width > 0
    ensures queue' == queue + Queued(grid.width, grid.matrix, n, crop)
    ensures perimeter' == perimeter + (if SameCrop(grid.width, grid.matrix, n, crop) then 0 else 1)
  {
    var plot := grid.Get(n.0, n.1);
    if plot.Some? && plot.value.crop == crop {
      queue' := queue + [n];
      perimeter' := perimeter;
    } else {
      queue' := queue;
      perimeter' := perimeter + 1;
    }
  }

  /** Lines 86-125: the four sides of `q`, in the source's order. */
  method Neighbours(grid: Map, crop: char, q: Cell, queue: seq<Cell>, perimeter: int)
    returns (queue': seq<Cell>, perimeter': int)
    requires grid.width > 0
    ensures queue' == queue + Pushes(grid.width, grid.matrix, q, crop)
    ensures perimeter' == perimeter + Fence(grid.width, grid.matrix, q, crop)
  {
    queue', perimeter' := RowNeighbours(grid, crop, q, queue, perimeter);
    queue', perimeter' := ColumnNeighbours(grid, crop, q, queue', perimeter');
    AppendTwo(queue, RowPushes(grid.width, grid.matrix, q, crop), ColumnPushes(grid.width, grid.matrix, q, crop));
  }

  lemma AppendTwo<T>(s: seq<T>, a: seq<T>, b: seq<T>)
    ensures s + (a + b) == s + a + b
  {
  }

  /** Lines 86-105: right, then left unless in the first column. */
  method RowNeighbours(grid: Map, crop: char, q: Cell, queue: seq<Cell>, perimeter: int)
    returns (queue': seq<Cell>, perimeter': int)
    requires grid.width > 0
    ensures queue' == queue + RowPushes(grid.width, grid.matrix, q, crop)
    ensures perimeter' == perimeter + RowFence(grid.width, grid.matrix, q, crop)
  {
    queue', perimeter' := Neighbour(grid, crop, (q.0 + 1, q.1), queue, perimeter);
    if q.0 > 0 {
      queue', perimeter' := Neighbour(grid, crop, (q.0 - 1, q.1), queue', perimeter');
    } else {
      perimeter' := perimeter' + 1;
    }
  }

  /** Lines 106-125: down, then up unless in the first row. */
  method ColumnNeighbours(grid: Map, crop: char, q: Cell, queue: seq<Cell>, perimeter: int)
    returns (queue': seq<Cell>, perimeter': int)
    requires grid.width > 0
    ensures queue' == queue + ColumnPushes(grid.width, grid.matrix, q, crop)
    ensures perimeter' == perimeter + ColumnFence(grid.width, grid.matrix, q, crop)
  {
    queue', perimeter' := Neighbour(grid, crop, (q.0, q.1 + 1), queue, perimeter);
    if q.1 > 0 {
      queue', perimeter' := Neighbour(grid, crop, (q.0, q.1 - 1), queue', perimeter');
    } else {
      perimeter' := perimeter' + 1;
    }
  }

  /** Lines 82-125 for the plot `q` just taken from the queue. */
  method Visit(grid: Map, ghost t0: seq<Plot>, crop: char, region: int, ghost start: Cell, q: Cell,
               ghost cells: seq<Cell>, queue: seq<Cell>, area: int, perimeter: int)
    returns (ghost cells': seq<Cell>, queue': seq<Cell>, area': int, perimeter': int)
    requires grid.width > 0 && Filling(grid.width, t0, grid.matrix, crop, region, start, cells, [q] + queue, area, perimeter)
    requires InGrid(grid.width, grid.matrix, q) && PlotAt(grid.width, grid.matrix, q).value.region.None?
    modifies grid
    ensures grid.width == old(grid.width)
    ensures Filling(grid.width, t0, grid.matrix, crop, region, start, cells', queue', area', perimeter')
    ensures Unlabelled(grid.matrix) < Unlabelled(old(grid.matrix))
  {
    ghost var t := grid.matrix;
    FillingStep(grid.width, t0, t, crop, region, start, cells, q, queue, area, perimeter);
    UnlabelledLabel(t, Index(grid.width, t, q), region);
    grid.Label(q.0, q.1, region);
    area' := area + 1;
    cells' := cells + [q];
    ghost var w, t1 := grid.width, grid.matrix;
    SameCropsAgree(w, t1, t0, (q.0 + 1, q.1), crop);
    SameCropsAgree(w, t1, t0, (q.0, q.1 + 1), crop);
    if q.0 > 0 {
      SameCropsAgree(w, t1, t0, (q.0 - 1, q.1), crop);
    }
    if q.1 > 0 {
      SameCropsAgree(w, t1, t0, (q.0, q.1 - 1), crop);
    }
    queue', perimeter' := Neighbours(grid, crop, q, queue, perimeter);
  }

  /** `map_region`: labels with `region` the plots of the start plot's crop
      that it reaches through plots of that crop without a region, and
      returns their number as the area and their fences as the perimeter.
      Only plots without a region change, every one of them gets `region`
      and keeps its crop, every plot of the crop next to one of them has a
      region afterwards, and they grow from the start plot one adjacent plot
      at a time (so each is reached from the start through them, by
      Day12.GrownPaths). */
  method MapRegion(grid: Map, startX: nat, startY: nat, region: int) returns (size: RegionSize, ghost cells: seq<Cell>)
    requires grid.width > 0 && InGrid(grid.width, grid.matrix, (startX, startY))
    modifies grid
    ensures grid.width == old(grid.width) && SameCrops(grid.matrix, old(grid.matrix))
    ensures var crop := CropAt(grid.width, old(grid.matrix), (startX, startY));
      && size == RegionSize(region, |cells|, FenceTotal(grid.width, old(grid.matrix), cells, crop))
      && Distinct(cells)
      && AllClaimed(grid.width, old(grid.matrix), grid.matrix, cells, crop, region)
      && Untouched(grid.width, old(grid.matrix), grid.matrix, cells)
      && Closed(grid.width, old(grid.matrix), grid.matrix, cells, [], crop)
      && Grown((startX, startY), cells)
    ensures !Labelled(grid.width, old(grid.matrix), (startX, startY)) ==> (startX, startY) in cells
  {
    ghost var t0 := grid.matrix;
    ghost var start := (startX, startY);
    var crop := grid.Get(startX, startY).value.crop;
    var queue := [(startX, startY)];
    var area := 0;
    var perimeter := 0;
    cells := [];
    while queue != []
      invariant grid.width > 0 && grid.width == old(grid.width)
      invariant Filling(grid.width, t0, grid.matrix, crop, region, start, cells, queue, area, perimeter)
      decreases Unlabelled(grid.matrix), |queue|
    {
      var q := queue[0];
      assert queue == [q] + queue[1..];
      queue := queue[1..];
      assert SameCrop(grid.width, t0, q, crop);
      assert InGrid(grid.width, grid.matrix, q);
      var here := grid.Get(q.0, q.1).value;
      if here.region.Some? {
        FillingSkip(grid.width, t0, grid.matrix, crop, region, start, cells, q, queue, area, perimeter);
        continue;
      }
      cells, queue, area, perimeter := Visit(grid, t0, crop, region, start, q, cells, queue, area, perimeter);
    }
    size := RegionSize(region, area, perimeter);
  }

  // ---------------------------------------------------------------------------
  // The scan of lines 10-23 and 31-44: a new region at every plot that has
  // none yet, in reading order

  /** Adjacency goes both ways. */
  lemma AdjacentSymmetric(c: Cell, n: Cell)
    requires Adjacent(c, n)
    ensures Adjacent(n, c)
  {
  }

  /** A labelled plot's region id. */
  function Label(w: nat, t: seq<Plot>, c: Cell): int
    requires w > 0 && Labelled(w, t, c)
  {
    PlotAt(w, t, c).value.region.value
  }

  /** `c` comes before `d` in reading order. */
  predicate Before(c: Cell, d: Cell)
  {
    c.1 < d.1 || (c.1 == d.1 && c.0 < d.0)
  }

  /** Region `k + 1` is exactly the plots of `members[k]`, and no plot has an
      id above the number of regions. */
  ghost predicate Members(w: nat, t: seq<Plot>, members: seq<seq<Cell>>)
    requires w > 0
  {
    && (forall c, k :: InGrid(w, t, c) && 0 <= k < |members| ==> (c in members[k] <==> InRegion(w, t, c, k + 1)))
    && (forall c :: Labelled(w, t, c) ==> 1 <= Label(w, t, c) <= |members|)
  }

  /** Region `k + 1` starts at `starts[k]`, grows its crop, and its size is
      the number of its plots and the sum of their fences. */
  ghost predicate Priced(w: nat, t0: seq<Plot>, regions: seq<RegionSize>, members: seq<seq<Cell>>, starts: seq<Cell>)
    requires w > 0
  {
    && |regions| == |members| == |starts|
    && (forall k :: 0 <= k < |starts| ==> InGrid(w, t0, starts[k]) && starts[k] in members[k] && Distinct(members[k]))
    && (forall k, c :: 0 <= k < |starts| && c in members[k] ==>
          InGrid(w, t0, c) && CropAt(w, t0, c) == CropAt(w, t0, starts[k]))
    && (forall k :: 0 <= k < |starts| ==>
          regions[k] == RegionSize(k + 1, |members[k]|, FenceTotal(w, t0, members[k], CropAt(w, t0, starts[k]))))
  }

  /** No region stops short of a neighbouring plot of its crop. */
  ghost predicate Maximal(w: nat, t0: seq<Plot>, members: seq<seq<Cell>>)
    requires w > 0
  {
    forall k, c, n ::
      (0 <= k < |members| && c in members[k] && InGrid(w, t0, c) && Adjacent(c, n) && SameCrop(w, t0, n, CropAt(w, t0, c)))
      ==> n in members[k]
  }

  /** Ids follow reading order: every plot before the start of region
      `k + 1` belongs to one of the regions before it. */
  ghost predicate Discovered(w: nat, t: seq<Plot>, starts: seq<Cell>)
    requires w > 0
  {
    forall k, c :: 0 <= k < |starts| && InGrid(w, t, c) && Before(c, starts[k]) ==>
      Labelled(w, t, c) && Label(w, t, c) <= k
  }

  /** The fences depend on the crops alone. */
  lemma {:induction false} FenceSameCrops(w: nat, t: seq<Plot>, t0: seq<Plot>, cells: seq<Cell>, crop: char)
    requires w > 0 && SameCrops(t, t0)
    ensures FenceTotal(w, t, cells, crop) == FenceTotal(w, t0, cells, crop)
  {
    if |cells| > 0 {
      FenceSameCrops(w, t, t0, cells[..|cells| - 1], crop);
      var c := cells[|cells| - 1];
      SameCropsAgree(w, t, t0, (c.0 + 1, c.1), crop);
      SameCropsAgree(w, t, t0, (c.0, c.1 + 1), crop);
      if c.0 > 0 {
        SameCropsAgree(w, t, t0, (c.0 - 1, c.1), crop);
      }
      if c.1 > 0 {
        SameCropsAgree(w, t, t0, (c.0, c.1 - 1), crop);
      }
    }
  }

  /** The plots before position `(x, y)` in reading order have a region. */
  ghost predicate ScannedTo(w: nat, t: seq<Plot>, x: nat, y: nat)
    requires w > 0
  {
    forall c :: InGrid(w, t, c) && Before(c, (x, y)) ==> Labelled(w, t, c)
  }

  /** What `map_region` promises, for a start plot without a region. */
  ghost predicate Filled(w: nat, t: seq<Plot>, t': seq<Plot>, s: Cell, region: int, size: RegionSize, cells: seq<Cell>)
    requires w > 0
  {
    && InGrid(w, t, s) && SameCrops(t', t)
    && var crop := CropAt(w, t, s);
    && size == RegionSize(region, |cells|, FenceTotal(w, t, cells, crop))
    && Distinct(cells) && s in cells
    && AllClaimed(w, t, t', cells, crop, region)
    && Untouched(w, t, t', cells)
    && Closed(w, t, t', cells, [], crop)
  }

  lemma MembersStep(w: nat, t: seq<Plot>, t': seq<Plot>, s: Cell, size: RegionSize, cells: seq<Cell>, members: seq<seq<Cell>>)
    requires w > 0 && Members(w, t, members) && Filled(w, t, t', s, |members| + 1, size, cells)
    ensures Members(w, t', members + [cells])
  {
    var m' := members + [cells];
    forall c, k | InGrid(w, t', c) && 0 <= k < |m'|
      ensures c in m'[k] <==> InRegion(w, t', c, k + 1)
    {
      assert InGrid(w, t, c);
      if c in cells {
        assert Claimed(w, t, t', c, CropAt(w, t, s), |members| + 1);
      } else {
        assert PlotAt(w, t', c) == PlotAt(w, t, c);
        if InRegion(w, t, c, k + 1) {
          assert Labelled(w, t, c);
        }
      }
      if k < |members| {
        assert m'[k] == members[k];
      }
    }
    forall c | Labelled(w, t', c)
      ensures 1 <= Label(w, t', c) <= |m'|
    {
      if c in cells {
        assert Claimed(w, t, t', c, CropAt(w, t, s), |members| + 1);
      } else {
        assert InGrid(w, t, c);
        assert PlotAt(w, t', c) == PlotAt(w, t, c);
        assert Labelled(w, t, c);
      }
    }
  }

  lemma PricedStep(w: nat, t0: seq<Plot>, t: seq<Plot>, t': seq<Plot>, s: Cell, size: RegionSize, cells: seq<Cell>,
                   regions: seq<RegionSize>, members: seq<seq<Cell>>, starts: seq<Cell>)
    requires w > 0 && SameCrops(t, t0) && Priced(w, t0, regions, members, starts)
    requires Filled(w, t, t', s, |members| + 1, size, cells)
    ensures Priced(w, t0, regions + [size], members + [cells], starts + [s])
  {
    var crop := CropAt(w, t, s);
    FenceSameCrops(w, t, t0, cells, crop);
    forall c | c in cells
      ensures InGrid(w, t0, c) && CropAt(w, t0, c) == crop
    {
      assert Claimed(w, t, t', c, crop, |members| + 1);
    }
  }

  lemma MaximalStep(w: nat, t0: seq<Plot>, t: seq<Plot>, t': seq<Plot>, s: Cell, size: RegionSize, cells: seq<Cell>,
                    members: seq<seq<Cell>>)
    requires w > 0 && SameCrops(t, t0) && Members(w, t, members) && Maximal(w, t0, members)
    requires Filled(w, t, t', s, |members| + 1, size, cells)
    ensures Maximal(w, t0, members + [cells])
  {
    var m' := members + [cells];
    var crop := CropAt(w, t, s);
    forall k, c, n | 0 <= k < |m'| && c in m'[k] && InGrid(w, t0, c) && Adjacent(c, n) && SameCrop(w, t0, n, CropAt(w, t0, c))
      ensures n in m'[k]
    {
      if k < |members| {
        assert m'[k] == members[k];
      } else {
        assert Claimed(w, t, t', c, crop, |members| + 1);
        SameCropsAgree(w, t, t0, n, crop);
        assert Labelled(w, t', n);
        if n !in cells {
          assert PlotAt(w, t', n) == PlotAt(w, t, n);
          var j := Label(w, t, n) - 1;
          assert InGrid(w, t, n) && InRegion(w, t, n, j + 1);
          assert n in members[j];
          AdjacentSymmetric(c, n);
          assert false;
        }
      }
    }
  }

  lemma DiscoveredStep(w: nat, t: seq<Plot>, t': seq<Plot>, s: Cell, size: RegionSize, cells: seq<Cell>,
                       members: seq<seq<Cell>>, starts: seq<Cell>)
    requires w > 0 && Members(w, t, members) && Discovered(w, t, starts) && ScannedTo(w, t, s.0, s.1)
    requires Filled(w, t, t', s, |members| + 1, size, cells) && |starts| == |members|
    ensures Discovered(w, t', starts + [s]) && ScannedTo(w, t', s.0 + 1, s.1)
  {
    var crop := CropAt(w, t, s);
    var s' := starts + [s];
    forall k, c | 0 <= k < |s'| && InGrid(w, t', c) && Before(c, s'[k])
      ensures Labelled(w, t', c) && Label(w, t', c) <= k
    {
      assert Labelled(w, t, c) && Label(w, t, c) <= k by {
        if k < |starts| {
          assert s'[k] == starts[k];
        }
      }
      assert c !in cells;
      assert PlotAt(w, t', c) == PlotAt(w, t, c);
    }
    assert Claimed(w, t, t', s, crop, |members| + 1);
    forall c | InGrid(w, t', c) && Before(c, (s.0 + 1, s.1))
      ensures Labelled(w, t', c)
    {
      assert InGrid(w, t, c);
      if c != s && c !in cells {
        assert PlotAt(w, t', c) == PlotAt(w, t, c);
      }
      if c in cells {
        assert Claimed(w, t, t', c, crop, |members| + 1);
      }
    }
  }

  /** The invariant of the scan. */
  ghost predicate Scanning(w: nat, t0: seq<Plot>, t: seq<Plot>, regions: seq<RegionSize>, members: seq<seq<Cell>>, starts: seq<Cell>)
  {
    && w > 0 && SameCrops(t, t0)
    && Members(w, t, members) && Priced(w, t0, regions, members, starts)
    && Maximal(w, t0, members) && Discovered(w, t, starts)
  }

  /** The body of the scan for plot `(x, y)`: a new region when it has none. */
  method ScanCell(grid: Map, ghost t0: seq<Plot>, x: nat, y: nat, next: int, regions: seq<RegionSize>,
                  ghost members: seq<seq<Cell>>, ghost starts: seq<Cell>)
    returns (next': int, regions': seq<RegionSize>, ghost members': seq<seq<Cell>>, ghost starts': seq<Cell>)
    requires grid.width > 0 && InGrid(grid.width, grid.matrix, (x, y))
    requires Scanning(grid.width, t0, grid.matrix, regions, members, starts) && ScannedTo(grid.width, grid.matrix, x, y)
    requires next == |regions| + 1
    modifies grid
    ensures grid.width == old(grid.width) && |grid.matrix| == |old(grid.matrix)|
    ensures Scanning(grid.width, t0, grid.matrix, regions', members', starts')
    ensures ScannedTo(grid.width, grid.matrix, x + 1, y) && next' == |regions'| + 1
  {
    ghost var w, t := grid.width, grid.matrix;
    if grid.Get(x, y).value.region.None? {
      var size, cells := MapRegion(grid, x, y, next);
      assert Filled(w, t, grid.matrix, (x, y), next, size, cells);
      MembersStep(w, t, grid.matrix, (x, y), size, cells, members);
      PricedStep(w, t0, t, grid.matrix, (x, y), size, cells, regions, members, starts);
      MaximalStep(w, t0, t, grid.matrix, (x, y), size, cells, members);
      DiscoveredStep(w, t, grid.matrix, (x, y), size, cells, members, starts);
      regions' := regions + [size];
      members' := members + [cells];
      starts' := starts + [(x, y)];
      next' := next + 1;
    } else {
      regions', members', starts', next' := regions, members, starts, next;
    }
  }

  /** A finished row moves the scan to the start of the next. */
  lemma RowDone(w: nat, t: seq<Plot>, y: nat)
    requires w > 0 && ScannedTo(w, t, w, y)
    ensures ScannedTo(w, t, 0, y + 1)
  {
  }

  /** No plot has a region yet. */
  ghost predicate NoRegions(t: seq<Plot>)
  {
    forall i :: 0 <= i < |t| ==> t[i].region.None?
  }

  /** What the scan promises about the map `t` it leaves behind. */
  ghost predicate Labelling(w: nat, t0: seq<Plot>, t: seq<Plot>, regions: seq<RegionSize>, members: seq<seq<Cell>>, starts: seq<Cell>)
    requires w > 0
  {
    && SameCrops(t, t0)
    && (forall c :: InGrid(w, t, c) ==> Labelled(w, t, c))
    && Members(w, t, members) && Priced(w, t0, regions, members, starts)
    && Maximal(w, t0, members) && Discovered(w, t, starts)
  }

  /** The scan of lines 10-23: afterwards every plot has a region; region
      `k + 1` is exactly the plots of `members[k]`, all of the crop of its
      first plot `starts[k]`, closed under neighbours of that crop, and its
      size is their number and the sum of their fences; ids grow in reading
      order of the regions' first plots. */
  method LabelRegions(grid: Map) returns (regions: seq<RegionSize>, ghost members: seq<seq<Cell>>, ghost starts: seq<Cell>)
    requires grid.width > 0 && NoRegions(grid.matrix)
    modifies grid
    ensures grid.width == old(grid.width)
    ensures Labelling(grid.width, old(grid.matrix), grid.matrix, regions, members, starts)
  {
    ghost var t0 := grid.matrix;
    var next := 1;
    regions, members, starts := [], [], [];
    var height := Rows(grid.width, grid.matrix);
    for y := 0 to height
      invariant grid.width == old(grid.width) && |grid.matrix| == |t0|
      invariant Scanning(grid.width, t0, grid.matrix, regions, members, starts)
      invariant ScannedTo(grid.width, grid.matrix, 0, y) && next == |regions| + 1
    {
      for x := 0 to grid.width
        invariant grid.width == old(grid.width) && |grid.matrix| == |t0|
        invariant Scanning(grid.width, t0, grid.matrix, regions, members, starts)
        invariant ScannedTo(grid.width, grid.matrix, x, y) && next == |regions| + 1
      {
        next, regions, members, starts := ScanCell(grid, t0, x, y, next, regions, members, starts);
      }
      RowDone(grid.width, grid.matrix, y);
    }
  }

  // ---------------------------------------------------------------------------
  // `count_sides` (lines 138-270): walking around a region's boundary

  /** The walker: a plot of the region and the side of it being followed. */
  datatype Walker = Walker(x: nat, y: nat, edge: Edge)

  function Clockwise(e: Edge): Edge
  {
    match e
    case Top => Right
    case Right => Bottom
    case Bottom => Left
    case Left => Top
  }

  function Anticlockwise(e: Edge): Edge
  {
    match e
    case Top => Left
    case Right => Top
    case Bottom => Right
    case Left => Bottom
  }

  /** The direction of travel along an edge when walking clockwise. */
  function Dx(e: Edge): int
  {
    match e
    case Top => 1
    case Right => 0
    case Bottom => -1
    case Left => 0
  }

  function Dy(e: Edge): int
  {
    match e
    case Top => 0
    case Right => 1
    case Bottom => 0
    case Left => -1
  }

  /** Whether a cell holds a plot of the region: the test
      `is_some_and(|p| p.region == Some(region))` the walk makes. */
  function Inside(w: nat, t: seq<Plot>, region: int): Cell -> bool
    requires w > 0
  {
    c => InRegion(w, t, c, region)
  }

  /** A plot of the region with no plot of the region above it: what lines
      144-145 collect. */
  predicate TopEdge(inside: Cell -> bool, c: Cell)
  {
    inside(c) && (c.1 == 0 || !inside((c.0, c.1 - 1)))
  }

  /** The walker stands on a plot of the region, and across the edge it
      follows lies no plot of the region. */
  predicate OnBoundary(inside: Cell -> bool, k: Walker)
  {
    match k.edge
    case Top => TopEdge(inside, (k.x, k.y))
    case Right => inside((k.x, k.y)) && !inside((k.x + 1, k.y))
    case Bottom => inside((k.x, k.y)) && !inside((k.x, k.y + 1))
    case Left => inside((k.x, k.y)) && (k.x == 0 || !inside((k.x - 1, k.y)))
  }

  /** One turn of the walk's loop (lines 166-260): go round a concave
      corner onto the diagonal plot, carry straight on, or turn clockwise
      at a convex corner on the spot. */
  function Step(inside: Cell -> bool, k: Walker): Walker
  {
    var (x, y) := (k.x, k.y);
    match k.edge
    case Top =>
      if y > 0 && inside((x + 1, y - 1)) then Walker(x + 1, y - 1, Left)
      else if inside((x + 1, y)) then Walker(x + 1, y, Top)
      else Walker(x, y, Right)
    case Right =>
      if inside((x + 1, y + 1)) then Walker(x + 1, y + 1, Top)
      else if inside((x, y + 1)) then Walker(x, y + 1, Right)
      else Walker(x, y, Bottom)
    case Bottom =>
      if x > 0 && inside((x - 1, y + 1)) then Walker(x - 1, y + 1, Right)
      else if x > 0 && inside((x - 1, y)) then Walker(x - 1, y, Bottom)
      else Walker(x, y, Left)
    case Left =>
      if x > 0 && y > 0 && inside((x - 1, y - 1)) then Walker(x - 1, y - 1, Bottom)
      else if y > 0 && inside((x, y - 1)) then Walker(x, y - 1, Left)
      else Walker(x, y, Top)
  }

  /** A walker on the boundary stays on it. */
  lemma StaysOnBoundary(inside: Cell -> bool, k: Walker)
    requires OnBoundary(inside, k)
    ensures OnBoundary(inside, Step(inside, k))
  {
    var (x, y) := (k.x, k.y);
    match k.edge
    case Top =>
      if y > 0 && inside((x + 1, y - 1)) {
      } else if inside((x + 1, y)) {
      }
    case Right =>
      if inside((x + 1, y + 1)) {
      } else if inside((x, y + 1)) {
      }
    case Bottom =>
      if x > 0 && inside((x - 1, y + 1)) {
      } else if x > 0 && inside((x - 1, y)) {
      }
    case Left =>
      if x > 0 && y > 0 && inside((x - 1, y - 1)) {
      } else if y > 0 && inside((x, y - 1)) {
      }
  }

  /** Every step is one of three moves: one plot ahead along the same edge,
      a clockwise quarter turn in place, or an anticlockwise quarter turn
      onto the plot diagonally ahead. */
  lemma StepMoves(inside: Cell -> bool, k: Walker)
    ensures var n := Step(inside, k);
      || (n.edge == k.edge && n.x == k.x + Dx(k.edge) && n.y == k.y + Dy(k.edge))
      || (n.edge == Clockwise(k.edge) && n.x == k.x && n.y == k.y)
      || (n.edge == Anticlockwise(k.edge) && n.x == k.x + Dx(k.edge) + Dx(n.edge) && n.y == k.y + Dy(k.edge) + Dy(n.edge))
  {
  }

  /** Top and bottom edges run across, left and right edges down. */
  predicate Across(e: Edge)
  {
    e == Top || e == Bottom
  }

  /** A quarter turn swaps across and down. */
  lemma TurnSwaps(e: Edge)
    ensures Across(Clockwise(e)) != Across(e) && Across(Anticlockwise(e)) != Across(e)
  {
  }

  /** What the walk needs of a step: straight on means one plot further
      along the same edge, and a turn swaps across and down. */
  lemma Turns(inside: Cell -> bool, k: Walker)
    requires OnBoundary(inside, k)
    ensures OnBoundary(inside, Step(inside, k))
    ensures var n := Step(inside, k);
      && (n.edge == k.edge ==> n.x == k.x + Dx(k.edge) && n.y == k.y + Dy(k.edge))
      && (n.edge != k.edge ==> Across(n.edge) != Across(k.edge))
  {
    StaysOnBoundary(inside, k);
    StepMoves(inside, k);
    TurnSwaps(k.edge);
  }

  /** The loop of lines 161-266, which reads the map only through the test
      `inside`: from the top edge of `(x0, y0)`, walk
      clockwise until back there, counting turns as sides and noting every
      top edge passed. The walk is cut off after `limit` steps. A finished
      walk has turned an even number of times, and at least twice, and has
      marked only top edges, the start among them. */
  method Walk(inside: Cell -> bool, x0: nat, y0: nat, limit: nat, visited: set<Cell>) returns (r: Option<(int, set<Cell>)>)
    requires TopEdge(inside, (x0, y0))
    ensures r.Some? ==> r.value.0 % 2 == 0 && r.value.0 >= 2
    ensures r.Some? ==> visited + {(x0, y0)} <= r.value.1
    ensures r.Some? ==> forall c :: c in r.value.1 ==> c in visited || TopEdge(inside, c)
  {
    var k := Walker(x0, y0, Top);
    var sides := 0;
    var seen := visited;
    var fuel := limit;
    ghost var steps: nat := 0;
    while true
      invariant OnBoundary(inside, k)
      invariant sides >= 0 && sides % 2 == (if Across(k.edge) then 0 else 1)
      invariant sides == 0 ==> k.edge == Top && k.y == y0 && k.x == x0 + steps
      invariant steps == 0 ==> sides == 0
      invariant steps > 0 ==> (x0, y0) in seen
      invariant visited <= seen && forall c :: c in seen ==> c in visited || TopEdge(inside, c)
      decreases fuel
    {
      if fuel == 0 {
        return None;
      }
      fuel := fuel - 1;
      if k.edge == Top {
        seen := seen + {(k.x, k.y)};
      }
      var n := Step(inside, k);
      Turns(inside, k);
      if n.edge != k.edge {
        sides := sides + 1;
      }
      k := n;
      steps := steps + 1;
      if k.x == x0 && k.y == y0 && k.edge == Top {
        break;
      }
    }
    return Some((sides, seen));
  }

  /** Above any plot of a region, in its column, is a top edge. */
  lemma {:induction false} TopEdgeAbove(inside: Cell -> bool, c: Cell)
    requires inside(c)
    ensures exists y: nat :: y <= c.1 && TopEdge(inside, (c.0, y))
    decreases c.1
  {
    if c.1 == 0 || !inside((c.0, c.1 - 1)) {
      assert TopEdge(inside, (c.0, c.1));
    } else {
      TopEdgeAbove(inside, (c.0, c.1 - 1));
    }
  }

  /** Lines 140-150: the top edges of the region, in reading order. */
  method TopEdges(grid: Map, region: int) returns (edges: seq<Cell>)
    requires grid.width > 0
    ensures forall c :: c in edges <==> TopEdge(Inside(grid.width, grid.matrix, region), c)
    ensures forall i, j :: 0 <= i < j < |edges| ==> Before(edges[i], edges[j])
  {
    var w := grid.width;
    edges := [];
    for y := 0 to Rows(w, grid.matrix)
      invariant forall c :: c in edges <==> TopEdge(Inside(w, grid.matrix, region), c) && Before(c, (0, y))
      invariant forall i, j :: 0 <= i < j < |edges| ==> Before(edges[i], edges[j])
    {
      for x := 0 to w
        invariant forall c :: c in edges <==> TopEdge(Inside(w, grid.matrix, region), c) && Before(c, (x, y))
        invariant forall i, j :: 0 <= i < j < |edges| ==> Before(edges[i], edges[j])
      {
        if grid.Get(x, y).value.region == Some(region) && (y == 0 || grid.Get(x, y - 1).value.region != Some(region)) {
          edges := edges + [(x, y)];
        }
      }
    }
  }

  /** `count_sides` (lines 138-270): walk around every boundary of the
      region from its first unvisited top edge, each walk cut off after
      four steps per plot of the map. The count is even, and at least two
      for a region with any plot. */
  method CountSides(grid: Map, region: int) returns (r: Option<int>)
    requires grid.width > 0
    ensures r.Some? ==> r.value % 2 == 0
    ensures r.Some? && (exists c :: InRegion(grid.width, grid.matrix, c, region)) ==> r.value >= 2
  {
    var edges := TopEdges(grid, region);
    var visited: set<Cell> := {};
    var sides := 0;
    for i := 0 to |edges|
      invariant sides >= 0 && sides % 2 == 0
      invariant i == 0 ==> visited == {}
      invariant i > 0 ==> sides >= 2
      invariant forall c :: c in visited ==> TopEdge(Inside(grid.width, grid.matrix, region), c)
    {
      if edges[i] in visited {
        continue;
      }
      var walk := Walk(Inside(grid.width, grid.matrix, region), edges[i].0, edges[i].1, 4 * |grid.matrix|, visited);
      if walk.None? {
        return None;
      }
      sides := sides + walk.value.0;
      visited := walk.value.1;
    }
    if c :| InRegion(grid.width, grid.matrix, c, region) {
      TopEdgeAbove(Inside(grid.width, grid.matrix, region), c);
      var y: nat :| y <= c.1 && TopEdge(Inside(grid.width, grid.matrix, region), (c.0, y));
      assert (c.0, y) in edges;
    }
    return Some(sides);
  }

  // ---------------------------------------------------------------------------
  // Parsing (lines 306-322)

  /** One line's plots, none with a region yet (lines 286-295). */
  function PlotRow(line: string): (r: seq<Plot>)
    ensures |r| == |line| && forall i :: 0 <= i < |line| ==> r[i] == Plot(line[i], None)
  {
    seq(|line|, i requires 0 <= i < |line| => Plot(line[i], None))
  }

  /** The plots of all lines, row after row. */
  function PlotRows(lines: seq<string>): seq<Plot>
  {
    if |lines| == 0 then [] else PlotRows(lines[..|lines| - 1]) + PlotRow(lines[|lines| - 1])
  }

  predicate SameWidth(lines: seq<string>, w: nat)
  {
    forall i :: 0 <= i < |lines| ==> |lines[i]| == w
  }

  /** Lines of one width lay out their characters row after row, none with
      a region. */
  lemma {:induction false} PlotRowsCells(lines: seq<string>, w: nat)
    requires w > 0 && SameWidth(lines, w)
    ensures |PlotRows(lines)| == CellIndex(w, 0, |lines|)
    ensures forall i :: 0 <= i < |PlotRows(lines)| ==> PlotRows(lines)[i].region.None?
    ensures forall y: nat, x: nat :: y < |lines| && x < w ==>
      CellIndex(w, x, y) < |PlotRows(lines)| && PlotRows(lines)[CellIndex(w, x, y)] == Plot(lines[y][x], None)
  {
    if |lines| > 0 {
      var n := |lines| - 1;
      var front := lines[..n];
      PlotRowsCells(front, w);
      assert PlotRows(lines) == PlotRows(front) + PlotRow(lines[n]);
      forall y: nat, x: nat | y < |lines| && x < w
        ensures CellIndex(w, x, y) < |PlotRows(lines)| && PlotRows(lines)[CellIndex(w, x, y)] == Plot(lines[y][x], None)
      {
        if y < n {
          CellIndexBelow(w, x, y, n);
          assert front[y] == lines[y];
        } else {
          CellIndexRow(w, x, n);
        }
      }
    }
  }

  /** `Map::from_str` on the trimmed input: the width is the first line's
      and the plots are the lines' characters, row after row. No lines
      (`lines[0]` panics), lines of different widths (the `assert!`) or an
      empty first line (`height` divides by zero) give nothing. */
  function ParsedGrid(s: string): (r: Option<(nat, seq<Plot>)>)
    ensures var lines := Lines(Trim(s));
      r.None? <==> |lines| == 0 || |lines[0]| == 0 || !SameWidth(lines, |lines[0]|)
    ensures r.Some? ==> r.value.0 > 0
  {
    var lines := Lines(Trim(s));
    if |lines| == 0 || |lines[0]| == 0 || !SameWidth(lines, |lines[0]|) then None
    else Some((|lines[0]|, PlotRows(lines)))
  }

  /** A parsed map has one row per line, no plot with a region, and at
      column `x` of row `y` the `x`-th character of line `y`. */
  lemma ParsedGridCells(s: string)
    requires ParsedGrid(s).Some?
    ensures var (w, t) := ParsedGrid(s).value; var lines := Lines(Trim(s));
      && w == |lines[0]| && Rows(w, t) == |lines|
      && NoRegions(t)
      && forall y: nat, x: nat :: y < |lines| && x < w ==> PlotAt(w, t, (x, y)) == Some(Plot(lines[y][x], None))
  {
    var lines := Lines(Trim(s));
    var (w, t) := ParsedGrid(s).value;
    PlotRowsCells(lines, w);
    CellIndexIs(w, 0, |lines|);
    RowsOfProduct(w, |lines|);
    forall y: nat, x: nat | y < |lines| && x < w
      ensures PlotAt(w, t, (x, y)) == Some(Plot(lines[y][x], None))
    {
      assert CellIndex(w, x, y) == Index(w, t, (x, y));
    }
  }

  // ---------------------------------------------------------------------------
  // The two parts

  /** The regions of the scan cover the map without overlapping. */
  ghost predicate Partition(w: nat, t0: seq<Plot>, members: seq<seq<Cell>>)
    requires w > 0
  {
    && (forall c :: InGrid(w, t0, c) ==> exists k :: 0 <= k < |members| && c in members[k])
    && (forall j, k, c :: 0 <= j < k < |members| && c in members[j] ==> c !in members[k])
  }

  /** Every plot before a region's first plot belongs to an earlier region. */
  ghost predicate InOrder(w: nat, t0: seq<Plot>, members: seq<seq<Cell>>, starts: seq<Cell>)
    requires w > 0
  {
    forall k, c :: 0 <= k < |starts| && InGrid(w, t0, c) && Before(c, starts[k]) ==>
      exists j :: 0 <= j < k && j < |members| && c in members[j]
  }

  /** What the scan establishes about the map it started from. */
  ghost predicate Regions(w: nat, t0: seq<Plot>, regions: seq<RegionSize>, members: seq<seq<Cell>>, starts: seq<Cell>)
    requires w > 0
  {
    Partition(w, t0, members) && InOrder(w, t0, members, starts) && Priced(w, t0, regions, members, starts) && Maximal(w, t0, members)
  }

  /** Once every plot has a region, the region ids partition the map, in
      order of discovery. */
  lemma Partitioned(w: nat, t0: seq<Plot>, t: seq<Plot>, regions: seq<RegionSize>, members: seq<seq<Cell>>, starts: seq<Cell>)
    requires w > 0 && SameCrops(t, t0)
    requires forall c :: InGrid(w, t, c) ==> Labelled(w, t, c)
    requires Members(w, t, members) && Priced(w, t0, regions, members, starts) && Discovered(w, t, starts)
    ensures Partition(w, t0, members) && InOrder(w, t0, members, starts)
  {
    Covered(w, t0, t, members);
    Disjoint(w, t0, t, regions, members, starts);
    Ordered(w, t0, t, members, starts);
  }

  /** After the scan: the regions partition the map in order of discovery,
      and each region's first plot carries its id. */
  lemma Finished(w: nat, t0: seq<Plot>, t: seq<Plot>, regions: seq<RegionSize>, members: seq<seq<Cell>>, starts: seq<Cell>)
    requires w > 0 && Labelling(w, t0, t, regions, members, starts)
    ensures Regions(w, t0, regions, members, starts)
    ensures forall k :: 0 <= k < |regions| ==> InRegion(w, t, starts[k], regions[k].region)
  {
    Partitioned(w, t0, t, regions, members, starts);
    forall k | 0 <= k < |regions|
      ensures InRegion(w, t, starts[k], regions[k].region)
    {
      assert InGrid(w, t, starts[k]);
    }
  }

  lemma Covered(w: nat, t0: seq<Plot>, t: seq<Plot>, members: seq<seq<Cell>>)
    requires w > 0 && |t| == |t0|
    requires forall c :: InGrid(w, t, c) ==> Labelled(w, t, c)
    requires Members(w, t, members)
    ensures forall c :: InGrid(w, t0, c) ==> exists k :: 0 <= k < |members| && c in members[k]
  {
    forall c | InGrid(w, t0, c)
      ensures exists k :: 0 <= k < |members| && c in members[k]
    {
      assert InGrid(w, t, c);
      assert Labelled(w, t, c);
      var k := Label(w, t, c) - 1;
      assert InRegion(w, t, c, k + 1);
      assert c in members[k];
    }
  }

  lemma Disjoint(w: nat, t0: seq<Plot>, t: seq<Plot>, regions: seq<RegionSize>, members: seq<seq<Cell>>, starts: seq<Cell>)
    requires w > 0 && |t| == |t0|
    requires Members(w, t, members) && Priced(w, t0, regions, members, starts)
    ensures forall j, k, c :: 0 <= j < k < |members| && c in members[j] ==> c !in members[k]
  {
    forall j, k, c | 0 <= j < k < |members| && c in members[j]
      ensures c !in members[k]
    {
      assert InGrid(w, t0, c);
      assert InGrid(w, t, c);
      assert InRegion(w, t, c, j + 1);
    }
  }

  lemma Ordered(w: nat, t0: seq<Plot>, t: seq<Plot>, members: seq<seq<Cell>>, starts: seq<Cell>)
    requires w > 0 && |t| == |t0|
    requires Members(w, t, members) && Discovered(w, t, starts)
    ensures InOrder(w, t0, members, starts)
  {
    forall k, c | 0 <= k < |starts| && InGrid(w, t0, c) && Before(c, starts[k])
      ensures exists j :: 0 <= j < k && j < |members| && c in members[j]
    {
      assert InGrid(w, t, c);
      assert Labelled(w, t, c) && Label(w, t, c) <= k;
      var j := Label(w, t, c) - 1;
      assert InRegion(w, t, c, j + 1);
      assert c in members[j];
    }
  }

  /** Line 25: area times perimeter, summed over the regions. */
  function FencePrice(regions: seq<RegionSize>): int
  {
    if |regions| == 0 then 0
    else FencePrice(regions[..|regions| - 1]) + regions[|regions| - 1].area * regions[|regions| - 1].perimeter
  }

  /** Lines 46-49: sides times area, summed over the regions. */
  function SidePrice(sides: seq<int>, regions: seq<RegionSize>): int
    requires |sides| == |regions|
  {
    if |regions| == 0 then 0
    else SidePrice(sides[..|sides| - 1], regions[..|regions| - 1]) + sides[|sides| - 1] * regions[|regions| - 1].area
  }

  /** Lines 8-23 and 29-44: parse the map and label its regions. */
  method Scan(input: string) returns (grid: Option<Map>, regions: seq<RegionSize>, ghost members: seq<seq<Cell>>, ghost starts: seq<Cell>)
    ensures grid.None? <==> ParsedGrid(input).None?
    ensures grid.Some? ==> var (w, t0) := ParsedGrid(input).value;
      && fresh(grid.value) && grid.value.width == w
      && Regions(w, t0, regions, members, starts)
      && forall k :: 0 <= k < |regions| ==> InRegion(w, grid.value.matrix, starts[k], regions[k].region)
  {
    var parsed := ParsedGrid(input);
    if parsed.None? {
      return None, [], [], [];
    }
    var (w, t0) := parsed.value;
    ParsedGridCells(input);
    var m := new Map(w, t0);
    regions, members, starts := LabelRegions(m);
    Finished(w, t0, m.matrix, regions, members, starts);
    grid := Some(m);
  }

  /** `day12part1`: nothing when the input is not a map; otherwise the
      regions of the scan partition the map, in reading order of their first
      plots, each a maximal group of one crop, and the answer is the sum of
      their areas times their perimeters. */
  method Part1(input: string) returns (r: Option<int>, ghost regions: seq<RegionSize>, ghost members: seq<seq<Cell>>, ghost starts: seq<Cell>)
    ensures r.None? <==> ParsedGrid(input).None?
    ensures r.Some? ==> var (w, t0) := ParsedGrid(input).value;
      Regions(w, t0, regions, members, starts) && r.value == FencePrice(regions)
  {
    var grid, found;
    grid, found, members, starts := Scan(input);
    regions := found;
    if grid.None? {
      return None, regions, members, starts;
    }
    r := Some(FencePrice(found));
  }

  /** Lines 46-49: each region's sides times its area, summed; every count
      of sides is even and at least two. Nothing when a walk is cut off. */
  method SidesPrice(grid: Map, regions: seq<RegionSize>, ghost starts: seq<Cell>) returns (r: Option<int>, ghost sides: seq<int>)
    requires grid.width > 0 && |starts| == |regions|
    requires forall k :: 0 <= k < |regions| ==> InRegion(grid.width, grid.matrix, starts[k], regions[k].region)
    ensures r.Some? ==> |sides| == |regions| && r.value == SidePrice(sides, regions)
    ensures r.Some? ==> forall k :: 0 <= k < |sides| ==> sides[k] % 2 == 0 && sides[k] >= 2
  {
    var total := 0;
    sides := [];
    for i := 0 to |regions|
      invariant |sides| == i && total == SidePrice(sides, regions[..i])
      invariant forall k :: 0 <= k < i ==> sides[k] % 2 == 0 && sides[k] >= 2
    {
      var count := CountSides(grid, regions[i].region);
      if count.None? {
        return None, sides;
      }
      assert regions[..i + 1][..i] == regions[..i];
      assert (sides + [count.value])[..i] == sides;
      total := total + count.value * regions[i].area;
      sides := sides + [count.value];
    }
    assert regions[..|regions|] == regions;
    r := Some(total);
  }

  /** `day12part2`: the same regions, each priced by its number of sides
      times its area. Nothing when the input is not a map or a walk is cut
      off. */
  method Part2(input: string)
    returns (r: Option<int>, ghost regions: seq<RegionSize>, ghost members: seq<seq<Cell>>, ghost starts: seq<Cell>, ghost sides: seq<int>)
    ensures ParsedGrid(input).None? ==> r.None?
    ensures r.Some? ==> ParsedGrid(input).Some? && var (w, t0) := ParsedGrid(input).value;
      && Regions(w, t0, regions, members, starts)
      && |sides| == |regions| && (forall k :: 0 <= k < |sides| ==> sides[k] % 2 == 0 && sides[k] >= 2)
      && r.value == SidePrice(sides, regions)
  {
    var grid, found;
    grid, found, members, starts := Scan(input);
    regions := found;
    if grid.None? {
      return None, regions, members, starts, [];
    }
    r, sides := SidesPrice(grid.value, found, starts);
  }
}
