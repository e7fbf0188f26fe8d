/** Day 18: RAM run. Bytes fall onto a square memory grid one after another;
    the walker searches for a way from the top-left corner to the
    bottom-right one, and a binary search finds the first byte after which no
    way is left. */
module Day18 {
  import opened Common

  /** A cell as (x, y). */
  type Pos = (nat, nat)

  /** The blocked-cell grid, row by row: `grid[y][x]` holds iff (x, y) is a
      fallen byte. */
  type Grid = seq<seq<bool>>

  /** The grid that the bytes `blocks` leave on a `w` by `h` memory space. */
  function BlockMap(w: nat, h: nat, blocks: seq<Pos>): (g: Grid)
    ensures |g| == h && forall y :: 0 <= y < h ==> |g[y]| == w
    ensures forall x, y :: 0 <= x < w && 0 <= y < h ==> (g[y][x] <==> (x, y) in blocks)
  {
    seq(h, y requires 0 <= y < h => seq(w, x requires 0 <= x < w => (x, y) in blocks))
  }

  predicate InGrid(w: nat, h: nat, blocks: seq<Pos>)
  {
    forall i :: 0 <= i < |blocks| ==> blocks[i].0 < w && blocks[i].1 < h
  }

  /** Lines 49-53: an empty grid on which the bytes are marked one by one. */
  method BuildMap(w: nat, h: nat, blocks: seq<Pos>) returns (g: Grid)
    requires InGrid(w, h, blocks)
    ensures g == BlockMap(w, h, blocks)
  {
    g := seq(h, y => seq(w, x => false));
    for i := 0 to |blocks|
      invariant |g| == h && forall y :: 0 <= y < h ==> |g[y]| == w
      invariant forall x, y :: 0 <= x < w && 0 <= y < h ==> (g[y][x] <==> (x, y) in blocks[..i])
    {
      var (x, y) := blocks[i];
      g := g[y := g[y][x := true]];
      assert blocks[..i + 1] == blocks[..i] + [blocks[i]];
    }
    assert blocks[..|blocks|] == blocks;
    var m := BlockMap(w, h, blocks);
    forall y | 0 <= y < h
      ensures g[y] == m[y]
    {
    }
  }

  /** A cell that lies on the grid and holds no byte. */
  predicate Open(g: Grid, p: Pos)
  {
    p.1 < |g| && p.0 < |g[p.1]| && !g[p.1][p.0]
  }

  /** Orthogonal neighbours. */
  predicate Adjacent(p: Pos, q: Pos)
  {
    Abs(p.0 - q.0) + Abs(p.1 - q.1) == 1
  }

  /** A walk from (0, 0) by unit steps over open cells. */
  ghost predicate IsWalk(g: Grid, p: seq<Pos>)
  {
    && |p| >= 1 && p[0] == (0, 0)
    && forall i :: 1 <= i < |p| ==> Adjacent(p[i - 1], p[i]) && Open(g, p[i])
  }

  /** After the bytes `blocks` have fallen, the exit (w - 1, h - 1) can still be
      reached from (0, 0). */
  ghost predicate HasPath(w: nat, h: nat, blocks: seq<Pos>)
    requires w >= 1 && h >= 1
  {
    exists p :: IsWalk(BlockMap(w, h, blocks), p) && p[|p| - 1] == (w - 1, h - 1)
  }

  lemma ExtendWalk(g: Grid, p: seq<Pos>, q: Pos)
    requires IsWalk(g, p) && Adjacent(p[|p| - 1], q) && Open(g, q)
    ensures IsWalk(g, p + [q])
  {
  }

  // ---------------------------------------------------------------------------
  // The search queue

  /** A queue entry: the priority (minus the least number of steps a way
      through this cell can have), minus the steps taken, and the cell. */
  datatype Entry = Entry(priority: int, steps: int, pos: Pos)

  /** Rust's ordering of the `(isize, isize, (usize, usize))` tuples. */
  predicate EntryLe(a: Entry, b: Entry)
  {
    if a.priority != b.priority then a.priority < b.priority
    else if a.steps != b.steps then a.steps < b.steps
    else if a.pos.0 != b.pos.0 then a.pos.0 < b.pos.0
    else a.pos.1 <= b.pos.1
  }

  /** The entry `BinaryHeap::pop` hands out: a greatest one. */
  method MaxIndex(q: seq<Entry>) returns (k: nat)
    requires |q| > 0
    ensures k < |q| && forall j :: 0 <= j < |q| ==> EntryLe(q[j], q[k])
  {
    k := 0;
    for i := 1 to |q|
      invariant k < i && forall j :: 0 <= j < i ==> EntryLe(q[j], q[k])
    {
      if !EntryLe(q[i], q[k]) {
        k := i;
      }
    }
  }

  function Positions(q: seq<Entry>): set<Pos>
  {
    set i | 0 <= i < |q| :: q[i].pos
  }

  function Cells(w: nat, h: nat): set<Pos>
  {
    set x, y | 0 <= x < w && 0 <= y < h :: (x, y)
  }

  /** Every open neighbour of a seen cell is seen or waits in the queue. */
  ghost predicate Closed(g: Grid, seen: set<Pos>, q: seq<Entry>)
  {
    forall s, n :: s in seen && Adjacent(s, n) && Open(g, n) ==> n in seen || n in Positions(q)
  }

  /** When nothing waits, every walk stays among the seen cells. */
  lemma {:induction false} WalkStaysSeen(g: Grid, seen: set<Pos>, p: seq<Pos>)
    requires (0, 0) in seen && Closed(g, seen, []) && IsWalk(g, p)
    ensures p[|p| - 1] in seen
    decreases |p|
  {
    if |p| > 1 {
      var p' := p[..|p| - 1];
      assert IsWalk(g, p');
      WalkStaysSeen(g, seen, p');
      assert Adjacent(p'[|p'| - 1], p[|p| - 1]);
    }
  }

  /** Every queued entry lies on the grid and is the end of a walk whose
      length matches the entry's step count. */
  ghost predicate QueueWalks(g: Grid, w: nat, h: nat, q: seq<Entry>, walks: seq<seq<Pos>>)
  {
    && |walks| == |q|
    && (forall i :: 0 <= i < |q| ==> q[i].pos in Cells(w, h))
    && (forall i :: 0 <= i < |q| ==>
          IsWalk(g, walks[i]) && walks[i][|walks[i]| - 1] == q[i].pos && |walks[i]| == 1 - q[i].steps)
  }

  /** The state of the search loop: what the queue holds is reachable by the
      recorded walks, and what has been seen is closed under steps. */
  ghost predicate SearchInv(g: Grid, w: nat, h: nat, q: seq<Entry>, walks: seq<seq<Pos>>, seen: set<Pos>)
  {
    && QueueWalks(g, w, h, q, walks)
    && seen <= Cells(w, h)
    && ((0, 0) in seen || (0, 0) in Positions(q))
    && Closed(g, seen, q)
  }

  /** Every open neighbour of a seen cell is seen, waits in the queue, or is
      the cell `p`. */
  ghost predicate ClosedExcept(g: Grid, seen: set<Pos>, q: seq<Entry>, p: Pos)
  {
    forall s, n :: s in seen && Adjacent(s, n) && Open(g, n) ==> n in seen || n in Positions(q) || n == p
  }

  /** Taking out an entry at `p` leaves the cells closed up to `p`. */
  lemma AfterPop(g: Grid, seen: set<Pos>, q: seq<Entry>, q': seq<Entry>, p: Pos)
    requires Closed(g, seen, q) && Positions(q) <= Positions(q') + {p}
    ensures ClosedExcept(g, seen, q', p)
    ensures p in seen ==> Closed(g, seen, q')
  {
  }

  /** The four neighbours of a cell. */
  lemma NeighbourCases(p: Pos, n: Pos)
    requires Adjacent(p, n)
    ensures n == (p.0 + 1, p.1) || n == (p.0 - 1, p.1) || n == (p.0, p.1 + 1) || n == (p.0, p.1 - 1)
  {
  }

  /** Once `p` is seen and its open neighbours queued, the cells are closed. */
  lemma AfterExpand(g: Grid, seen: set<Pos>, q: seq<Entry>, q': seq<Entry>, p: Pos)
    requires ClosedExcept(g, seen, q, p) && Positions(q) <= Positions(q')
    requires forall n :: Adjacent(p, n) && Open(g, n) && n !in seen + {p} ==> n in Positions(q')
    ensures Closed(g, seen + {p}, q')
  {
  }

  /** `BinaryHeap::pop` (line 65): the greatest entry and the queue without it. */
  method Pop(g: Grid, w: nat, h: nat, q: seq<Entry>, ghost walks: seq<seq<Pos>>)
    returns (e: Entry, ghost walk: seq<Pos>, q': seq<Entry>, ghost walks': seq<seq<Pos>>)
    requires |q| > 0 && QueueWalks(g, w, h, q, walks)
    ensures forall j :: 0 <= j < |q| ==> EntryLe(q[j], e)
    ensures multiset(q) == multiset(q') + multiset{e} && |q'| == |q| - 1
    ensures IsWalk(g, walk) && walk[|walk| - 1] == e.pos && |walk| == 1 - e.steps && e.pos in Cells(w, h)
    ensures QueueWalks(g, w, h, q', walks')
    ensures Positions(q) <= Positions(q') + {e.pos}
  {
    var k := MaxIndex(q);
    e := q[k];
    walk := walks[k];
    RemovePositions(q, k);
    q' := q[..k] + q[k + 1..];
    walks' := walks[..k] + walks[k + 1..];
    assert q == q[..k] + [e] + q[k + 1..];
    forall i | 0 <= i < |q'|
      ensures q'[i] == q[if i < k then i else i + 1] && walks'[i] == walks[if i < k then i else i + 1]
    {
    }
  }

  /** The queue without its `k`th entry still names every other position. */
  lemma RemovePositions(q: seq<Entry>, k: nat)
    requires k < |q|
    ensures Positions(q) <= Positions(q[..k] + q[k + 1..]) + {q[k].pos}
  {
    forall p | p in Positions(q)
      ensures p in Positions(q[..k] + q[k + 1..]) + {q[k].pos}
    {
      var i :| 0 <= i < |q| && q[i].pos == p;
      if i < k {
        assert (q[..k] + q[k + 1..])[i] == q[i];
      } else if i > k {
        assert (q[..k] + q[k + 1..])[i - 1] == q[i];
      }
    }
  }

  /** Lines 74-93: push the cell (nx, ny) when it is on the grid, open and not
      yet seen, one step further than the entry just popped. */
  method Push(g: Grid, w: nat, h: nat, seen: set<Pos>, q: seq<Entry>, ghost walks: seq<seq<Pos>>,
              e: Entry, ghost walk: seq<Pos>, nx: int, ny: int)
    returns (q': seq<Entry>, ghost walks': seq<seq<Pos>>)
    requires |g| == h && forall y :: 0 <= y < h ==> |g[y]| == w
    requires w >= 1 && h >= 1
    requires QueueWalks(g, w, h, q, walks)
    requires IsWalk(g, walk) && walk[|walk| - 1] == e.pos && |walk| == 1 - e.steps
    requires Abs(e.pos.0 - nx) + Abs(e.pos.1 - ny) == 1
    ensures QueueWalks(g, w, h, q', walks')
    ensures Positions(q) <= Positions(q')
    ensures 0 <= nx && 0 <= ny && Open(g, (nx, ny)) && (nx, ny) !in seen ==> (nx, ny) in Positions(q')
    ensures !(0 <= nx < w && 0 <= ny < h && Open(g, (nx, ny)) && (nx, ny) !in seen) ==> q' == q
    ensures 0 <= nx < w && 0 <= ny < h && Open(g, (nx, ny)) && (nx, ny) !in seen
      ==> q' == q + [Entry(-(Abs(w - 1 - nx) + Abs(h - 1 - ny)) + e.steps - 1, e.steps - 1, (nx, ny))]
  {
    q', walks' := q, walks;
    if 0 <= nx < w && 0 <= ny < h && !g[ny][nx] && (nx, ny) !in seen {
      var distToEnd := Abs(w - 1 - nx) + Abs(h - 1 - ny);
      var minSteps := -distToEnd + e.steps - 1;
      var n: Pos := (nx, ny);
      ExtendWalk(g, walk, n);
      q' := q + [Entry(minSteps, e.steps - 1, n)];
      walks' := walks + [walk + [n]];
      assert q'[|q|].pos == n;
      forall p | p in Positions(q)
        ensures p in Positions(q')
      {
        var i :| 0 <= i < |q| && q[i].pos == p;
        assert q'[i] == q[i];
      }
    }
  }

  /** Lines 72-93: mark the popped cell seen and queue its open neighbours. */
  method Expand(g: Grid, w: nat, h: nat, seen: set<Pos>, q: seq<Entry>, ghost walks: seq<seq<Pos>>,
                e: Entry, ghost walk: seq<Pos>)
    returns (seen': set<Pos>, q': seq<Entry>, ghost walks': seq<seq<Pos>>)
    requires |g| == h && forall y :: 0 <= y < h ==> |g[y]| == w
    requires w >= 1 && h >= 1
    requires QueueWalks(g, w, h, q, walks)
    requires IsWalk(g, walk) && walk[|walk| - 1] == e.pos && |walk| == 1 - e.steps
    requires ClosedExcept(g, seen, q, e.pos)
    ensures seen' == seen + {e.pos}
    ensures QueueWalks(g, w, h, q', walks') && Positions(q) <= Positions(q')
    ensures Closed(g, seen', q')
  {
    var (x, y) := e.pos;
    seen' := seen + {e.pos};
    var q1, w1 := Push(g, w, h, seen', q, walks, e, walk, x + 1, y);
    var q2, w2 := Push(g, w, h, seen', q1, w1, e, walk, x - 1, y);
    var q3, w3 := Push(g, w, h, seen', q2, w2, e, walk, x, y + 1);
    q', walks' := Push(g, w, h, seen', q3, w3, e, walk, x, y - 1);
    forall n | Adjacent(e.pos, n) && Open(g, n) && n !in seen'
      ensures n in Positions(q')
    {
      NeighbourCases(e.pos, n);
    }
    AfterExpand(g, seen, q, q', e.pos);
  }

  /** `shortest_path_len` (lines 48-97): a best-first search from (0, 0) to
      (w - 1, h - 1). A number it returns is the length of a walk that
      exists; `None` means that no walk exists. */
  method ShortestPathLen(w: nat, h: nat, blocks: seq<Pos>) returns (r: Option<nat>)
    requires w >= 1 && h >= 1 && InGrid(w, h, blocks)
    ensures r.Some? ==> exists p :: IsWalk(BlockMap(w, h, blocks), p)
                                 && p[|p| - 1] == (w - 1, h - 1) && |p| == r.value + 1
    ensures r.None? ==> !HasPath(w, h, blocks)
  {
    var g := BuildMap(w, h, blocks);
    var dest: Pos := (w - 1, h - 1);
    var start: Pos := (0, 0);
    var queue := [Entry(-(w + h - 2), 0, start)];
    ghost var walks := [[start]];
    var seen: set<Pos> := {};
    assert start in Positions(queue) by { assert queue[0].pos == start; }
    while queue != []
      invariant SearchInv(g, w, h, queue, walks, seen)
      invariant dest !in seen
      decreases Cells(w, h) - seen, |queue|
    {
      ghost var before := queue;
      var e;
      ghost var walk;
      e, walk, queue, walks := Pop(g, w, h, queue, walks);
      AfterPop(g, seen, before, queue, e.pos);
      if e.pos == dest {
        return Some(-e.steps);
      }
      if e.pos in seen {
        continue;
      }
      ghost var seenBefore := seen;
      seen, queue, walks := Expand(g, w, h, seen, queue, walks, e, walk);
      assert Cells(w, h) - seen < Cells(w, h) - seenBefore by {
        assert e.pos in Cells(w, h) - seenBefore;
      }
    }
    forall p | IsWalk(g, p) && p[|p| - 1] == dest
      ensures false
    {
      WalkStaysSeen(g, seen, p);
    }
    return None;
  }

  // ---------------------------------------------------------------------------
  // The binary search

  /** The way survives the first `k - 1` bytes, and the `k`th cuts it unless it
      is the last one. */
  ghost predicate LastKept(w: nat, h: nat, blocks: seq<Pos>, k: int)
    requires w >= 1 && h >= 1
  {
    1 <= k <= |blocks| && HasPath(w, h, blocks[..k - 1]) && (k == |blocks| || !HasPath(w, h, blocks[..k]))
  }

  /** The way survives the first `k - 1` bytes and the `k`th cuts it. */
  ghost predicate Cuts(w: nat, h: nat, blocks: seq<Pos>, k: int)
    requires w >= 1 && h >= 1
  {
    1 <= k <= |blocks| && HasPath(w, h, blocks[..k - 1]) && !HasPath(w, h, blocks[..k])
  }

  /** The loop of lines 27-39 with `upper` starting at `top`: it ends with
      `lower == upper`, past every prefix found to leave a way and at one
      found to leave none (or at `top`). */
  method Bisect(w: nat, h: nat, blocks: seq<Pos>, top: nat) returns (lower: nat)
    requires w >= 1 && h >= 1 && InGrid(w, h, blocks) && top <= |blocks| + 1
    ensures lower <= top
    ensures lower == 0 || HasPath(w, h, blocks[..lower - 1])
    ensures lower == top || !HasPath(w, h, blocks[..lower])
  {
    lower := 0;
    var upper := top;
    while lower < upper
      invariant 0 <= lower <= upper <= top
      invariant lower == 0 || HasPath(w, h, blocks[..lower - 1])
      invariant upper == top || !HasPath(w, h, blocks[..upper])
    {
      var n := (lower + upper) / 2;
      var found := Survives(w, h, blocks, n);
      if found {
        lower := n + 1;
      } else {
        upper := n;
      }
    }
  }

  /** Line 31: a way is left after the first `n` bytes. */
  method Survives(w: nat, h: nat, blocks: seq<Pos>, n: nat) returns (b: bool)
    requires w >= 1 && h >= 1 && InGrid(w, h, blocks) && n <= |blocks|
    ensures b <==> HasPath(w, h, blocks[..n])
  {
    var found := ShortestPathLen(w, h, blocks[..n]);
    b := found.Some?;
  }

  /** `first_block_in_path` (lines 21-46) as written. The loop only ever tests
      the first `n` bytes for `n < |blocks|`, and on leaving it
      `lower == upper` always holds, so the answer is `blocks[lower - 1]`; the
      case `lower == 0`, an arithmetic panic in the source, is `None` here.
      When the way survives every byte the last byte is still returned. */
  method FirstBlockInPath(w: nat, h: nat, blocks: seq<Pos>) returns (r: Option<Pos>)
    requires w >= 1 && h >= 1 && InGrid(w, h, blocks)
    ensures r.Some? ==> exists k :: LastKept(w, h, blocks, k) && r.value == blocks[k - 1]
    ensures r.None? ==> |blocks| == 0 || !HasPath(w, h, [])
  {
    var lower := Bisect(w, h, blocks, |blocks|);
    if lower == 0 {
      assert blocks[..0] == [];
      return None;
    }
    assert LastKept(w, h, blocks, lower);
    return Some(blocks[lower - 1]);
  }

  /** The search as evidently intended: the full list is tried as well, and
      the answer is the byte whose fall cuts the last way, or `None` when no
      byte does. */
  method FirstCuttingBlock(w: nat, h: nat, blocks: seq<Pos>) returns (r: Option<Pos>)
    requires w >= 1 && h >= 1 && InGrid(w, h, blocks)
    ensures r.Some? ==> exists k :: Cuts(w, h, blocks, k) && r.value == blocks[k - 1]
    ensures r.None? ==> HasPath(w, h, blocks) || !HasPath(w, h, [])
  {
    var lower := Bisect(w, h, blocks, |blocks| + 1);
    if lower == 0 {
      assert blocks[..0] == [];
      return None;
    }
    if lower == |blocks| + 1 {
      assert blocks[..|blocks|] == blocks;
      return None;
    }
    assert Cuts(w, h, blocks, lower);
    return Some(blocks[lower - 1]);
  }

  /** On a 2 by 2 grid one byte at (1, 0) leaves the way down and right open. */
  lemma OneByteLeavesWay()
    ensures HasPath(2, 2, [(1, 0)])
  {
    var g := BlockMap(2, 2, [(1, 0)]);
    var p: seq<Pos> := [(0, 0), (0, 1), (1, 1)];
    assert !g[1][0] && !g[1][1];
    assert IsWalk(g, p);
  }

  /** The as-written search names that byte although the way survives it. */
  method LastByteReturned() returns (r: Option<Pos>)
    ensures r == Some((1, 0)) && HasPath(2, 2, [(1, 0)])
  {
    OneByteLeavesWay();
    var blocks: seq<Pos> := [(1, 0)];
    assert blocks[..0] == [] && blocks[..1] == blocks;
    r := FirstBlockInPath(2, 2, blocks);
  }

  /** The corrected search reports that no byte cuts the way. */
  method NoCuttingByte() returns (r: Option<Pos>)
    ensures r == None
  {
    OneByteLeavesWay();
    var blocks: seq<Pos> := [(1, 0)];
    assert blocks[..0] == [] && blocks[..1] == blocks;
    r := FirstCuttingBlock(2, 2, blocks);
  }

  // ---------------------------------------------------------------------------
  // Parsing

  /** Lines 103-104: "x,y" with two `usize` numbers; anything else is skipped. */
  function ParseBlock(line: string): (r: Option<Pos>)
    ensures r.Some? ==> r.value.0 < U64_LIMIT && r.value.1 < U64_LIMIT
  {
    match SplitOnce(line, ",")
    case None => None
    case Some((a, b)) =>
      match (ParseUnsigned(a, U64_LIMIT), ParseUnsigned(b, U64_LIMIT))
      case (Some(x), Some(y)) => Some((x, y))
      case _ => None
  }

  /** `parse` (lines 99-110): the blocks of the lines that parse, in order. */
  function ParseBlocks(lines: seq<string>): (r: seq<Pos>)
    ensures |r| <= |lines|
  {
    if |lines| == 0 then []
    else
      match ParseBlock(lines[0])
      case Some(p) => [p] + ParseBlocks(lines[1..])
      case None => ParseBlocks(lines[1..])
  }

  function ShowBlock(p: Pos): string
  {
    ShowNat(p.0) + "," + ShowNat(p.1)
  }

  /** A printed block parses back to itself. */
  lemma ParseShowBlock(p: Pos)
    requires p.0 < U64_LIMIT && p.1 < U64_LIMIT
    ensures ParseBlock(ShowBlock(p)) == Some(p)
  {
    SplitOnceAt(ShowNat(p.0), ShowNat(p.1), ',');
    ParseShowNat(p.0, U64_LIMIT);
    ParseShowNat(p.1, U64_LIMIT);
  }

  /** The input listing `blocks`, one per line. */
  function ShowBlocks(blocks: seq<Pos>): (lines: seq<string>)
    ensures |lines| == |blocks|
    ensures forall i :: 0 <= i < |blocks| ==> lines[i] == ShowBlock(blocks[i])
  {
    if |blocks| == 0 then [] else [ShowBlock(blocks[0])] + ShowBlocks(blocks[1..])
  }

  /** Lines that each parse to a block give those blocks, in order. */
  lemma {:induction false} ParseBlocksAll(lines: seq<string>, blocks: seq<Pos>)
    requires |lines| == |blocks|
    requires forall i :: 0 <= i < |lines| ==> ParseBlock(lines[i]) == Some(blocks[i])
    ensures ParseBlocks(lines) == blocks
  {
    if |lines| > 0 {
      assert ParseBlock(lines[0]) == Some(blocks[0]);
      ParseBlocksAll(lines[1..], blocks[1..]);
    }
  }

  /** Parsing the printed list of blocks gives back the list. */
  lemma {:induction false} ParseShowBlocks(blocks: seq<Pos>)
    requires Printable(blocks)
    ensures ParseBlocks(ShowBlocks(blocks)) == blocks
  {
    var lines := ShowBlocks(blocks);
    forall i | 0 <= i < |lines| ensures ParseBlock(lines[i]) == Some(blocks[i]) {
      ParseShowBlock(blocks[i]);
    }
    ParseBlocksAll(lines, blocks);
  }

  /** Every coordinate fits the source's `usize` parse. */
  predicate Printable(blocks: seq<Pos>)
  {
    forall i :: 0 <= i < |blocks| ==> blocks[i].0 < U64_LIMIT && blocks[i].1 < U64_LIMIT
  }

  /** A line without a comma is skipped. */
  lemma SkipsCommaless(line: string)
    requires ',' !in line
    ensures ParseBlock(line) == None
  {
  }
}
