/** Day 9: disk fragmenter. The disk map alternates file and free-space
    lengths; part 1 moves file blocks one at a time from the end into the
    leftmost gaps, part 2 moves whole files, highest id first, into the
    leftmost gap that fits. The answer is a checksum over block positions. */
module Day09 {
  import opened Common

  datatype Fragment = Empty | File(id: nat)

  /** `DiskSegment` (lines 118-122): a run of blocks with one content. */
  datatype Segment = Segment(content: Fragment, len: nat)

  // ---------------------------------------------------------------------------
  // What a disk holds

  /** The blocks of file `id` in a run. */
  function Own(s: Segment, id: nat): nat
  {
    if s.content == File(id) then s.len else 0
  }

  /** The blocks of file `id` on a disk. */
  function Units(d: seq<Segment>, id: nat): nat
  {
    if |d| == 0 then 0 else Units(d[..|d| - 1], id) + Own(d[|d| - 1], id)
  }

  /** Two disks hold the same blocks of every file. */
  ghost predicate SameFiles(a: seq<Segment>, b: seq<Segment>)
  {
    forall id :: Units(a, id) == Units(b, id)
  }

  /** The number of blocks on a disk, free or not. */
  function TotalLen(d: seq<Segment>): nat
  {
    if |d| == 0 then 0 else TotalLen(d[..|d| - 1]) + d[|d| - 1].len
  }

  lemma {:induction false} AppendOne(a: seq<Segment>, b: seq<Segment>, id: nat)
    ensures Units(a + b, id) == Units(a, id) + Units(b, id)
    decreases |b|
  {
    if |b| == 0 {
      assert a + b == a;
    } else {
      assert (a + b)[..|a + b| - 1] == a + b[..|b| - 1];
      AppendOne(a, b[..|b| - 1], id);
    }
  }

  lemma {:induction false} AppendLen(a: seq<Segment>, b: seq<Segment>)
    ensures TotalLen(a + b) == TotalLen(a) + TotalLen(b)
    decreases |b|
  {
    if |b| == 0 {
      assert a + b == a;
    } else {
      assert (a + b)[..|a + b| - 1] == a + b[..|b| - 1];
      AppendLen(a, b[..|b| - 1]);
    }
  }

  /** Blocks and size add up over a concatenation. */
  lemma {:induction false} Append(a: seq<Segment>, b: seq<Segment>)
    ensures forall id :: Units(a + b, id) == Units(a, id) + Units(b, id)
    ensures TotalLen(a + b) == TotalLen(a) + TotalLen(b)
  {
    forall id ensures Units(a + b, id) == Units(a, id) + Units(b, id) {
      AppendOne(a, b, id);
    }
    AppendLen(a, b);
  }

  lemma Single(s: Segment)
    ensures forall id :: Units([s], id) == Own(s, id)
    ensures TotalLen([s]) == s.len
  {
    assert [s][..0] == [];
  }

  /** A disk without a file has none of its blocks. */
  lemma {:induction false} UnitsAbsent(d: seq<Segment>, id: nat)
    requires forall j :: 0 <= j < |d| ==> d[j].content != File(id)
    ensures Units(d, id) == 0
  {
    if |d| > 0 {
      UnitsAbsent(d[..|d| - 1], id);
    }
  }

  // ---------------------------------------------------------------------------
  // Parsing

  /** The disk the map parses to: the `i`th digit gives a run of that length,
      a file with id `i / 2` at even `i` and free space at odd `i`. */
  predicate Parsed(d: seq<Segment>)
  {
    forall i :: 0 <= i < |d| ==> d[i].content == (if i % 2 == 0 then File(i / 2) else Empty)
  }

  /** `parse_disk_map` (lines 133-159). A character below '0' underflows the
      `u32` subtraction, so the source demands there be none. */
  method ParseDiskMap(input: string) returns (d: seq<Segment>)
    requires forall c :: c in Trim(input) ==> c >= '0'
    ensures |d| == |Trim(input)| && Parsed(d)
    ensures forall i :: 0 <= i < |d| ==> d[i].len == Trim(input)[i] as int - '0' as int
  {
    var s := Trim(input);
    d := [];
    var isFile := true;
    var nextId := 0;
    for i := 0 to |s|
      invariant |d| == i && Parsed(d)
      invariant isFile == (i % 2 == 0) && nextId == (i + 1) / 2
      invariant DigitLengths(d, s)
    {
      Parity(i);
      assert s[i] in s;
      var len := s[i] as int - '0' as int;
      var seg;
      if isFile {
        seg := Segment(File(nextId), len);
        isFile := false;
        nextId := nextId + 1;
      } else {
        seg := Segment(Empty, len);
        isFile := true;
      }
      ParsedAppend(d, seg);
      DigitAppend(d, s, seg);
      d := d + [seg];
    }
  }

  /** Each run is as long as its digit says. */
  predicate DigitLengths(d: seq<Segment>, s: string)
    requires |d| <= |s|
  {
    forall j :: 0 <= j < |d| ==> d[j].len == s[j] as int - '0' as int
  }

  lemma DigitAppend(d: seq<Segment>, s: string, seg: Segment)
    requires |d| < |s| && DigitLengths(d, s) && seg.len == s[|d|] as int - '0' as int
    ensures DigitLengths(d + [seg], s)
  {
    forall j | 0 <= j < |d| + 1
      ensures (d + [seg])[j].len == s[j] as int - '0' as int
    {
      if j < |d| {
        assert (d + [seg])[j] == d[j];
      }
    }
  }

  lemma Parity(i: nat)
    ensures (i + 1) % 2 == 0 <==> i % 2 == 1
    ensures (i + 2) / 2 == (i + 1) / 2 + (if i % 2 == 0 then 1 else 0)
  {
  }

  lemma ParsedAppend(d: seq<Segment>, seg: Segment)
    requires Parsed(d) && seg.content == (if |d| % 2 == 0 then File(|d| / 2) else Empty)
    ensures Parsed(d + [seg])
  {
  }

  /** The lengths of the files (lines 45-54): a later run of an id overrides
      an earlier one, as `collect` into a map does. */
  function Lengths(d: seq<Segment>): map<nat, nat>
  {
    if |d| == 0 then map[]
    else
      var m := Lengths(d[..|d| - 1]);
      match d[|d| - 1].content
      case File(id) => m[id := d[|d| - 1].len]
      case Empty => m
  }

  /** On a parsed disk file `k` is the run at index `2k`; it is the only run
      of `k`, so its blocks and its recorded length are that run's length. */
  lemma {:induction false} ParsedPrefix(d: seq<Segment>, n: nat, k: nat)
    requires Parsed(d) && n <= |d|
    ensures Units(d[..n], k) == (if 2 * k < n then d[2 * k].len else 0)
    ensures k in Lengths(d[..n]) <==> 2 * k < n
    ensures 2 * k < n ==> Lengths(d[..n])[k] == d[2 * k].len
  {
    if n > 0 {
      assert d[..n][..n - 1] == d[..n - 1];
      ParsedPrefix(d, n - 1, k);
    }
  }

  lemma {:induction false} ParsedWhole(d: seq<Segment>, k: nat)
    requires Parsed(d)
    ensures Units(d, k) == (if 2 * k < |d| then d[2 * k].len else 0)
    ensures k in Lengths(d) <==> 2 * k < |d|
    ensures 2 * k < |d| ==> Lengths(d)[k] == d[2 * k].len
  {
    assert d[..|d|] == d;
    ParsedPrefix(d, |d|, k);
  }

  // ---------------------------------------------------------------------------
  // Checksum

  /** Blocks `pos`, `pos + 1`, ... of a run of `n` blocks of file `id`. */
  function RunSum(id: nat, n: nat, pos: nat): nat
  {
    if n == 0 then 0 else id * pos + RunSum(id, n - 1, pos + 1)
  }

  /** The checksum of a disk whose first block sits at `pos`. */
  function Check(d: seq<Segment>, pos: nat): nat
  {
    if |d| == 0 then 0
    else
      (match d[0].content case File(id) => RunSum(id, d[0].len, pos) case Empty => 0)
      + Check(d[1..], pos + d[0].len)
  }

  /** `checksum` (lines 161-177). */
  method Checksum(d: seq<Segment>) returns (acc: nat)
    ensures acc == Check(d, 0)
  {
    var pos: nat := 0;
    acc := 0;
    for k := 0 to |d|
      invariant acc + Check(d[k..], pos) == Check(d, 0)
    {
      assert d[k..][1..] == d[k + 1..];
      match d[k].content
      case File(id) =>
        for b := 0 to d[k].len
          invariant acc + RunSum(id, d[k].len - b, pos) + Check(d[k + 1..], pos + d[k].len - b) == Check(d, 0)
        {
          acc := acc + id * pos;
          pos := pos + 1;
        }
      case Empty =>
        pos := pos + d[k].len;
    }
  }

  /** What a block holds: a file id or nothing. */
  function Content(f: Fragment): Option<nat>
  {
    match f case File(id) => Some(id) case Empty => None
  }

  /** `n` blocks holding `c`. */
  function Run(c: Option<nat>, n: nat): (r: seq<Option<nat>>)
    ensures |r| == n
  {
    seq(n, _ => c)
  }

  /** A run of `a + b` blocks is a run of `a` then a run of `b`. */
  lemma RunSplit(c: Option<nat>, a: nat, b: nat)
    ensures Run(c, a + b) == Run(c, a) + Run(c, b)
  {
  }

  /** A run is one block then the rest, or the rest then one block. */
  lemma RunCons(c: Option<nat>, n: nat)
    requires n > 0
    ensures Run(c, n) == [c] + Run(c, n - 1)
    ensures Run(c, n) == Run(c, n - 1) + [c]
  {
  }

  /** The disk block by block: a file id or nothing. */
  function Blocks(d: seq<Segment>): seq<Option<nat>>
  {
    if |d| == 0 then [] else Run(Content(d[0].content), d[0].len) + Blocks(d[1..])
  }

  /** The checksum read off the blocks: each file block's id times its
      position. */
  function BlockCheck(bs: seq<Option<nat>>, pos: nat): nat
  {
    if |bs| == 0 then 0
    else (match bs[0] case Some(id) => id * pos case None => 0) + BlockCheck(bs[1..], pos + 1)
  }

  lemma {:induction false} BlockCheckAppend(a: seq<Option<nat>>, b: seq<Option<nat>>, pos: nat)
    ensures BlockCheck(a + b, pos) == BlockCheck(a, pos) + BlockCheck(b, pos + |a|)
  {
    if |a| == 0 {
      assert a + b == b;
    } else {
      assert (a + b)[1..] == a[1..] + b;
      BlockCheckAppend(a[1..], b, pos + 1);
    }
  }

  lemma {:induction false} RunBlocks(c: Fragment, n: nat, pos: nat)
    ensures BlockCheck(Run(Content(c), n), pos) == match c case File(id) => RunSum(id, n, pos) case Empty => 0
  {
    if n > 0 {
      RunBlocks(c, n - 1, pos + 1);
      assert Run(Content(c), n)[1..] == Run(Content(c), n - 1);
    }
  }

  /** The checksum counts each file block at its position, and free blocks
      only move the position on. */
  lemma {:induction false} CheckIsBlockCheck(d: seq<Segment>, pos: nat)
    ensures Check(d, pos) == BlockCheck(Blocks(d), pos)
  {
    if |d| > 0 {
      BlockCheckAppend(Run(Content(d[0].content), d[0].len), Blocks(d[1..]), pos);
      RunBlocks(d[0].content, d[0].len, pos);
      CheckIsBlockCheck(d[1..], pos + d[0].len);
    }
  }

  /** A run of `n` blocks of `c` holds `n` blocks of `c` and none else. */
  lemma {:induction false} RunCount(c: Option<nat>, n: nat, x: Option<nat>)
    ensures multiset(Run(c, n))[x] == if c == x then n else 0
  {
    if n > 0 {
      assert Run(c, n) == Run(c, n - 1) + [c];
      RunCount(c, n - 1, x);
    }
  }

  /** The blocks of file `id` on a disk are its blocks counted one by one. */
  lemma {:induction false} UnitsBlocks(d: seq<Segment>, id: nat)
    ensures Units(d, id) == multiset(Blocks(d))[Some(id)]
  {
    if |d| > 0 {
      var init, last := d[..|d| - 1], d[|d| - 1];
      UnitsBlocks(init, id);
      BlocksLast(d);
      RunCount(Content(last.content), last.len, Some(id));
    }
  }

  /** The blocks of two disks one after the other. */
  lemma {:induction false} BlocksAppend(a: seq<Segment>, b: seq<Segment>)
    ensures Blocks(a + b) == Blocks(a) + Blocks(b)
  {
    if |a| == 0 {
      assert a + b == b;
    } else {
      assert (a + b)[1..] == a[1..] + b;
      BlocksAppend(a[1..], b);
    }
  }

  /** The blocks from run `i` on: run `i`'s, then those after it. */
  lemma BlocksFrom(d: seq<Segment>, i: nat)
    requires i < |d|
    ensures Blocks(d[i..]) == Run(Content(d[i].content), d[i].len) + Blocks(d[i + 1..])
  {
    assert d[i..][0] == d[i] && d[i..][1..] == d[i + 1..];
  }

  /** The blocks of file `id` from run `i` on. */
  lemma {:induction false} UnitsFrom(d: seq<Segment>, i: nat, id: nat)
    requires i < |d|
    ensures Units(d[i..], id) == Own(d[i], id) + Units(d[i + 1..], id)
  {
    SplitAt(d, i);
    Append([d[i]], d[i + 1..]);
    Single(d[i]);
  }

  lemma BlocksOne(s: Segment)
    ensures Blocks([s]) == Run(Content(s.content), s.len)
  {
    assert Blocks([s][1..]) == [];
  }

  // ---------------------------------------------------------------------------
  // Part 1: moving single blocks

  /** Block compaction as the puzzle states it, on the blocks of a disk: the
      last file block moves into the leftmost free block, one at a time,
      until no free block stands before a file block; free blocks at the end
      are dropped. */
  function Compact(bs: seq<Option<nat>>): seq<Option<nat>>
    decreases |bs|
  {
    if |bs| == 0 then []
    else if bs[|bs| - 1].None? then Compact(bs[..|bs| - 1])
    else if bs[0].Some? then [bs[0]] + Compact(bs[1..])
    else [bs[|bs| - 1]] + Compact(bs[1..|bs| - 1])
  }

  /** The compacted blocks are all file blocks. */
  lemma {:induction false} CompactNoGaps(bs: seq<Option<nat>>)
    ensures forall k :: 0 <= k < |Compact(bs)| ==> Compact(bs)[k].Some?
    decreases |bs|
  {
    if |bs| == 0 {
    } else if bs[|bs| - 1].None? {
      CompactNoGaps(bs[..|bs| - 1]);
    } else if bs[0].Some? {
      CompactNoGaps(bs[1..]);
    } else {
      CompactNoGaps(bs[1..|bs| - 1]);
    }
  }

  /** Compaction keeps every file's blocks: as many blocks of each file as
      before. */
  lemma {:induction false} CompactCount(bs: seq<Option<nat>>, id: nat)
    ensures multiset(Compact(bs))[Some(id)] == multiset(bs)[Some(id)]
    decreases |bs|
  {
    if |bs| == 0 {
    } else if bs[|bs| - 1].None? {
      CompactCount(bs[..|bs| - 1], id);
      CountLastFree(bs, id);
    } else if bs[0].Some? {
      CompactCount(bs[1..], id);
      CountFirstFile(bs, id);
    } else {
      CompactCount(bs[1..|bs| - 1], id);
      CountMoved(bs, id);
    }
  }

  /** One step of `CompactCount`: a free block at the end. */
  lemma {:induction false} CountLastFree(bs: seq<Option<nat>>, id: nat)
    requires |bs| > 0 && bs[|bs| - 1].None?
    requires multiset(Compact(bs[..|bs| - 1]))[Some(id)] == multiset(bs[..|bs| - 1])[Some(id)]
    ensures multiset(Compact(bs))[Some(id)] == multiset(bs)[Some(id)]
  {
    var init := bs[..|bs| - 1];
    assert Compact(bs) == Compact(init);
    MultisetSnoc(bs);
  }

  /** One step of `CompactCount`: a file block in front stays. */
  lemma {:induction false} CountFirstFile(bs: seq<Option<nat>>, id: nat)
    requires |bs| > 0 && bs[|bs| - 1].Some? && bs[0].Some?
    requires multiset(Compact(bs[1..]))[Some(id)] == multiset(bs[1..])[Some(id)]
    ensures multiset(Compact(bs))[Some(id)] == multiset(bs)[Some(id)]
  {
    assert Compact(bs) == [bs[0]] + Compact(bs[1..]);
    MultisetCons(bs);
  }

  /** One step of `CompactCount`: the last block moves to the free block in
      front. */
  lemma {:induction false} CountMoved(bs: seq<Option<nat>>, id: nat)
    requires |bs| > 0 && bs[|bs| - 1].Some? && bs[0].None?
    requires multiset(Compact(bs[1..|bs| - 1]))[Some(id)] == multiset(bs[1..|bs| - 1])[Some(id)]
    ensures multiset(Compact(bs))[Some(id)] == multiset(bs)[Some(id)]
  {
    assert Compact(bs) == [bs[|bs| - 1]] + Compact(bs[1..|bs| - 1]);
    MultisetEnds(bs);
  }

  /** A file block that is already inside the compacted area stays where it
      is: only blocks from the end move, and only into free blocks. */
  lemma {:induction false} CompactStays(bs: seq<Option<nat>>, p: nat)
    requires p < |Compact(bs)| && p < |bs| && bs[p].Some?
    ensures Compact(bs)[p] == bs[p]
    decreases |bs|
  {
    if bs[|bs| - 1].None? {
      CompactLength(bs[..|bs| - 1]);
      CompactStays(bs[..|bs| - 1], p);
    } else if p > 0 {
      CompactLength(bs[1..]);
      CompactLength(bs[1..|bs| - 1]);
      if bs[0].Some? {
        CompactStays(bs[1..], p - 1);
      } else {
        CompactStays(bs[1..|bs| - 1], p - 1);
      }
    }
  }

  /** Compaction never lengthens the blocks. */
  lemma {:induction false} CompactLength(bs: seq<Option<nat>>)
    ensures |Compact(bs)| <= |bs|
    decreases |bs|
  {
    if |bs| == 0 {
    } else if bs[|bs| - 1].None? {
      CompactLength(bs[..|bs| - 1]);
    } else if bs[0].Some? {
      CompactLength(bs[1..]);
    } else {
      CompactLength(bs[1..|bs| - 1]);
    }
  }

  /** Free blocks at the end change nothing. */
  lemma {:induction false} CompactDropFree(bs: seq<Option<nat>>, k: nat)
    ensures Compact(bs + Run(None, k)) == Compact(bs)
  {
    if k > 0 {
      var s := bs + Run(None, k);
      assert s[..|s| - 1] == bs + Run(None, k - 1);
      CompactDropFree(bs, k - 1);
    } else {
      assert bs + Run(None, k) == bs;
    }
  }

  /** A file block in front stays in front. */
  lemma {:induction false} CompactFront(x: nat, bs: seq<Option<nat>>)
    ensures Compact([Some(x)] + bs) == [Some(x)] + Compact(bs)
    decreases |bs|
  {
    var s := [Some(x)] + bs;
    if |bs| > 0 && bs[|bs| - 1].None? {
      assert s[..|s| - 1] == [Some(x)] + bs[..|bs| - 1];
      CompactFront(x, bs[..|bs| - 1]);
    } else {
      assert s[1..] == bs;
    }
  }

  /** A file run in front stays in front. */
  lemma {:induction false} CompactFileRun(x: nat, m: nat, bs: seq<Option<nat>>)
    ensures Compact(Run(Some(x), m) + bs) == Run(Some(x), m) + Compact(bs)
  {
    if m > 0 {
      RunCons(Some(x), m);
      Assoc([Some(x)], Run(Some(x), m - 1), bs);
      CompactFront(x, Run(Some(x), m - 1) + bs);
      CompactFileRun(x, m - 1, bs);
      Assoc([Some(x)], Run(Some(x), m - 1), Compact(bs));
    } else {
      AppendNil(bs);
      AppendNil(Compact(bs));
    }
  }

  /** `k` free blocks in front take the last `k` blocks of a file run at the
      end. */
  lemma {:induction false} CompactFill(a: nat, mid: seq<Option<nat>>, y: nat, m: nat, k: nat)
    requires k <= a && k <= m
    ensures Compact(Run(None, a) + mid + Run(Some(y), m))
         == Run(Some(y), k) + Compact(Run(None, a - k) + mid + Run(Some(y), m - k))
  {
    if k > 0 {
      var s := Run(None, a) + mid + Run(Some(y), m);
      FillInner(a, mid, y, m);
      assert Compact(s) == [Some(y)] + Compact(s[1..|s| - 1]);
      CompactFill(a - 1, mid, y, m - 1, k - 1);
      RunCons(Some(y), k);
      Assoc([Some(y)], Run(Some(y), k - 1), Compact(Run(None, a - k) + mid + Run(Some(y), m - k)));
    } else {
      AppendNil(Compact(Run(None, a) + mid + Run(Some(y), m)));
    }
  }

  /** The ends of free blocks, `mid`, then a file run, and what lies
      between them. */
  lemma FillInner(a: nat, mid: seq<Option<nat>>, y: nat, m: nat)
    requires a > 0 && m > 0
    ensures var s := Run(None, a) + mid + Run(Some(y), m);
      |s| >= 2 && s[0] == None && s[|s| - 1] == Some(y)
      && s[1..|s| - 1] == Run(None, a - 1) + mid + Run(Some(y), m - 1)
  {
  }

  /** Free blocks in front of one last run: the run, if it is a file. */
  lemma CompactLastRun(a: nat, c: Option<nat>, m: nat)
    ensures Compact(Run(None, a) + Run(c, m)) == if c.Some? then Run(c, m) else []
  {
    if c.None? {
      RunSplit(None, a, m);
      AppendNil(Run(None, a + m));
      CompactDropFree([], a + m);
    } else {
      CompactFileEnd(a, c.value, m);
    }
  }

  /** Free blocks in front of one last file run: the run. */
  lemma {:induction false} CompactFileEnd(a: nat, y: nat, m: nat)
    ensures Compact(Run(None, a) + Run(Some(y), m)) == Run(Some(y), m)
    decreases m
  {
    if m == 0 {
      AppendNil(Run(None, a));
      CompactDropFree([], a);
    } else if a == 0 {
      AppendNil(Run(Some(y), m));
      CompactFileRun(y, m, []);
    } else {
      AppendNil(Run(None, a));
      AppendNil(Run(None, a - 1));
      CompactFill(a, [], y, m, 1);
      CompactFileEnd(a - 1, y, m - 1);
      RunSplit(Some(y), 1, m - 1);
    }
  }

  predicate AllFiles(d: seq<Segment>)
  {
    forall k :: 0 <= k < |d| ==> d[k].content.File?
  }

  /** The block compaction of `day09part1` (lines 6-37): the result is made
      of file runs only, holds every file block of the disk, and its blocks
      are the disk's blocks compacted as the puzzle states it. */
  method CompactBlocks(disk: seq<Segment>) returns (out: seq<Segment>)
    ensures AllFiles(out)
    ensures SameFiles(out, disk)
    ensures Blocks(out) == Compact(Blocks(disk))
  {
    var d := disk;
    out := [];
    var n := |disk|;
    var i := 0;
    assert d[i..] == disk;
    while i < n && i < |d|
      invariant i <= |d| <= n
      invariant AllFiles(out)
      invariant Blocks(out) + Compact(Blocks(d[i..])) == Compact(Blocks(disk))
      decreases n - i
    {
      var fragment := d[i];
      assert d[i..] == [fragment] + d[i + 1..];
      match fragment.content {
        case File(x) =>
          KeepFile(out, fragment, d[i + 1..]);
          out := out + [fragment];
        case Empty =>
          out, d := FillGap(out, d, i);
      }
      i := i + 1;
    }
    assert d[i..] == [];
    forall id
      ensures Units(out, id) == Units(disk, id)
    {
      UnitsBlocks(out, id);
      UnitsBlocks(disk, id);
      CompactCount(Blocks(disk), id);
    }
  }

  /** A file run met by the outer loop goes to the output as it is. */
  lemma {:induction false} KeepFile(out: seq<Segment>, f: Segment, rest: seq<Segment>)
    requires f.content.File?
    ensures Blocks(out + [f]) + Compact(Blocks(rest)) == Blocks(out) + Compact(Blocks([f] + rest))
  {
    BlocksAppend([f], rest);
    BlocksOne(f);
    CompactFileRun(f.content.id, f.len, Blocks(rest));
    BlocksAppend(out, [f]);
  }

  /** Lines 18-34: fill the gap at `i` from the end of the disk, popping
      free runs and whole files and splitting the last file when it does not
      fit; the run right after the gap is never touched. The blocks added to
      the output and the compaction of what is left after the gap are the
      compaction of the disk from the gap on. */
  method FillGap(out: seq<Segment>, d: seq<Segment>, i: nat) returns (out': seq<Segment>, d': seq<Segment>)
    requires i < |d| && d[i].content == Empty && AllFiles(out)
    ensures AllFiles(out')
    ensures i < |d'| <= |d| && d'[..i + 1] == d[..i + 1]
    ensures i + 1 < |d| ==> i + 1 < |d'| && d'[i + 1] == d[i + 1]
    ensures forall id :: Units(out', id) + Units(d'[i + 1..], id) == Units(out, id) + Units(d[i + 1..], id)
    ensures Blocks(out') + Compact(Blocks(d'[i + 1..])) == Blocks(out) + Compact(Blocks(d[i..]))
  {
    out', d' := out, d;
    var len: nat := d[i].len;
    BlocksFrom(d, i);
    while |d'| > i + 2 && len > 0
      invariant i < |d'| <= |d| && d'[..i + 1] == d[..i + 1]
      invariant i + 1 < |d| ==> i + 1 < |d'| && d'[i + 1] == d[i + 1]
      invariant AllFiles(out')
      invariant Blocks(out') + Compact(Run(None, len) + Blocks(d'[i + 1..])) == Blocks(out) + Compact(Blocks(d[i..]))
      decreases |d'|, len
    {
      var last := d'[|d'| - 1];
      var rest := d'[..|d'| - 1];
      SplitLast(d');
      if last.content == Empty {
        PopFree(rest, i, last, len);
        d' := rest;
      } else if last.len <= len {
        PopFile(out', rest, i, last, len);
        len := len - last.len;
        out' := out' + [last];
        d' := rest;
      } else {
        var piece := Segment(last.content, len);
        var kept := Segment(last.content, last.len - len);
        SplitFile(out', rest, i, last, len);
        d' := rest + [kept];
        len := 0;
        out' := out' + [piece];
      }
    }
    FillGapEnd(d', i, len);
    GapUnits(out, d, out', d', i);
  }

  /** The blocks of each file that `FillGap` moves to the output are those
      it takes off the disk. */
  lemma {:induction false} GapUnits(out: seq<Segment>, d: seq<Segment>, out': seq<Segment>, d': seq<Segment>, i: nat)
    requires i < |d| && d[i].content == Empty && i < |d'|
    requires Blocks(out') + Compact(Blocks(d'[i + 1..])) == Blocks(out) + Compact(Blocks(d[i..]))
    ensures forall id :: Units(out', id) + Units(d'[i + 1..], id) == Units(out, id) + Units(d[i + 1..], id)
  {
    forall id
      ensures Units(out', id) + Units(d'[i + 1..], id) == Units(out, id) + Units(d[i + 1..], id)
    {
      GapUnitsOf(out, d, out', d', i, id);
    }
  }

  lemma {:induction false} GapUnitsOf(out: seq<Segment>, d: seq<Segment>, out': seq<Segment>, d': seq<Segment>, i: nat, id: nat)
    requires i < |d| && d[i].content == Empty && i < |d'|
    requires Blocks(out') + Compact(Blocks(d'[i + 1..])) == Blocks(out) + Compact(Blocks(d[i..]))
    ensures Units(out', id) + Units(d'[i + 1..], id) == Units(out, id) + Units(d[i + 1..], id)
  {
    var x := Some(id);
    var a, b := Blocks(out'), Compact(Blocks(d'[i + 1..]));
    var c, e := Blocks(out), Compact(Blocks(d[i..]));
    assert multiset(a + b)[x] == multiset(c + e)[x];
    UnitsBlocks(out', id);
    UnitsBlocks(out, id);
    UnitsBlocks(d'[i + 1..], id);
    UnitsBlocks(d[i..], id);
    CompactCount(Blocks(d'[i + 1..]), id);
    CompactCount(Blocks(d[i..]), id);
    UnitsFrom(d, i, id);
  }

  /** A free run popped off the end changes no compaction. */
  lemma PopFree(rest: seq<Segment>, i: nat, last: Segment, len: nat)
    requires i < |rest| && last.content == Empty
    ensures Compact(Run(None, len) + Blocks((rest + [last])[i + 1..])) == Compact(Run(None, len) + Blocks(rest[i + 1..]))
  {
    SnocSlices(rest, last, i + 1);
    BlocksAppend(rest[i + 1..], [last]);
    BlocksOne(last);
    CompactDropFree(Run(None, len) + Blocks(rest[i + 1..]), last.len);
    Assoc(Run(None, len), Blocks(rest[i + 1..]), Run(None, last.len));
  }

  /** A last file that fits the gap goes to the output whole. */
  lemma {:induction false} PopFile(out: seq<Segment>, rest: seq<Segment>, i: nat, last: Segment, len: nat)
    requires i < |rest| && last.content.File? && last.len <= len
    ensures Blocks(out + [last]) + Compact(Run(None, len - last.len) + Blocks(rest[i + 1..]))
         == Blocks(out) + Compact(Run(None, len) + Blocks((rest + [last])[i + 1..]))
  {
    var before := Blocks(rest[i + 1..]);
    var y := last.content.id;
    SnocSlices(rest, last, i + 1);
    BlocksAppend(rest[i + 1..], [last]);
    BlocksOne(last);
    Assoc(Run(None, len), before, Run(Some(y), last.len));
    CompactFill(len, before, y, last.len, last.len);
    AppendNil(Run(None, len - last.len) + before);
    BlocksAppend(out, [last]);
    Assoc(Blocks(out), Run(Some(y), last.len), Compact(Run(None, len - last.len) + before));
  }

  /** A last file longer than the gap fills it and keeps the rest. */
  lemma {:induction false} SplitFile(out: seq<Segment>, rest: seq<Segment>, i: nat, last: Segment, len: nat)
    requires i < |rest| && last.content.File? && last.len > len
    ensures Blocks(out + [Segment(last.content, len)])
              + Compact(Run(None, 0) + Blocks((rest + [Segment(last.content, last.len - len)])[i + 1..]))
         == Blocks(out) + Compact(Run(None, len) + Blocks((rest + [last])[i + 1..]))
  {
    var before := Blocks(rest[i + 1..]);
    var y := last.content.id;
    var kept := Segment(last.content, last.len - len);
    var piece := Segment(last.content, len);
    ghost var moved := Run(Some(y), len);
    ghost var left := Run(Some(y), last.len - len);
    SplitRuns(rest, i, last, len);
    CompactFill(len, before, y, last.len, len);
    BlocksAppend(out, [piece]);
    BlocksOne(piece);
    Assoc(Blocks(out), moved, Compact(Run(None, len - len) + before + left));
  }

  /** The blocks after the gap before and after the split. */
  lemma SplitRuns(rest: seq<Segment>, i: nat, last: Segment, len: nat)
    requires i < |rest| && last.content.File? && last.len > len
    ensures Run(None, len) + Blocks((rest + [last])[i + 1..])
         == Run(None, len) + Blocks(rest[i + 1..]) + Run(Some(last.content.id), last.len)
    ensures Run(None, 0) + Blocks((rest + [Segment(last.content, last.len - len)])[i + 1..])
         == Run(None, len - len) + Blocks(rest[i + 1..]) + Run(Some(last.content.id), last.len - len)
  {
    var kept := Segment(last.content, last.len - len);
    SnocSlices(rest, last, i + 1);
    SnocSlices(rest, kept, i + 1);
    BlocksAppend(rest[i + 1..], [last]);
    BlocksOne(last);
    BlocksAppend(rest[i + 1..], [kept]);
    BlocksOne(kept);
    Assoc(Run(None, len), Blocks(rest[i + 1..]), Run(Some(last.content.id), last.len));
    Assoc(Run(None, 0), Blocks(rest[i + 1..]), Run(Some(last.content.id), last.len - len));
  }

  /** When `FillGap` stops, the free blocks it has left change nothing: either
      none is left, or at most one run follows the gap. */
  lemma FillGapEnd(d: seq<Segment>, i: nat, len: nat)
    requires i < |d| && (|d| <= i + 2 || len == 0)
    ensures Compact(Run(None, len) + Blocks(d[i + 1..])) == Compact(Blocks(d[i + 1..]))
  {
    if len == 0 {
      assert Run(None, len) + Blocks(d[i + 1..]) == Blocks(d[i + 1..]);
    } else if |d| == i + 1 {
      assert Run(None, len) + Blocks(d[i + 1..]) == [] + Run(None, len);
      CompactDropFree([], len);
    } else {
      var s := d[i + 1];
      assert d[i + 1..] == [s];
      BlocksOne(s);
      CompactLastRun(len, Content(s.content), s.len);
      CompactLastRun(0, Content(s.content), s.len);
      assert Run(None, 0) + Run(Content(s.content), s.len) == Run(Content(s.content), s.len);
    }
  }

  // ---------------------------------------------------------------------------
  // Part 2: moving whole files

  /** A free run that can take `len` blocks. */
  predicate Fits(s: Segment, len: nat)
  {
    s.content == Empty && s.len >= len
  }

  /** Some run before index `j` holds file `id`. */
  predicate FileBefore(d: seq<Segment>, id: nat, j: int)
  {
    exists k :: 0 <= k < j && k < |d| && d[k].content == File(id)
  }

  /** Lines 62-77 from run `k` on: the first free run that fits the file,
      looking no further than the file itself. */
  function FirstFit(d: seq<Segment>, id: nat, len: nat, k: nat): (r: Option<nat>)
    ensures r.Some? ==> k <= r.value < |d| && Fits(d[r.value], len)
    ensures r.Some? ==> forall j :: k <= j < r.value ==> d[j].content != File(id) && !Fits(d[j], len)
    ensures r.None? ==> forall j :: k <= j < |d| && Fits(d[j], len) ==> exists f :: k <= f < j && d[f].content == File(id)
    decreases |d| - k
  {
    if k >= |d| then None
    else if d[k].content == File(id) then None
    else if Fits(d[k], len) then Some(k)
    else FirstFit(d, id, len, k + 1)
  }

  /** The search of lines 62-77. */
  method FindDest(d: seq<Segment>, id: nat, len: nat) returns (dest: Option<nat>)
    ensures dest == FirstFit(d, id, len, 0)
  {
    dest := None;
    for i := 0 to |d|
      invariant FirstFit(d, id, len, 0) == FirstFit(d, id, len, i)
    {
      match d[i].content {
        case File(thisId) =>
          if thisId == id {
            return;
          }
        case Empty =>
          if d[i].len >= len {
            dest := Some(i);
            return;
          }
      }
    }
  }

  /** No two free runs stand next to each other from index `i` on. */
  predicate MergedFrom(d: seq<Segment>, i: nat)
  {
    forall j :: i <= j && j + 1 < |d| ==> !(d[j].content == Empty && d[j + 1].content == Empty)
  }

  /** A block of `c` once file `id` has left: its blocks are free. */
  function Freed(c: Fragment, id: nat): Option<nat>
  {
    if c == File(id) then None else Content(c)
  }

  /** One step of lines 91-108: a run after the gap is kept when it holds
      another file, and otherwise (free space, or the old place of the moved
      file) joins a free run that ends the disk or starts a new one. */
  function Place(r: seq<Segment>, seg: Segment, id: nat): (r': seq<Segment>)
    requires |r| > 0
    ensures |r'| > 0
  {
    if seg.content.File? && seg.content.id != id then r + [seg]
    else if r[|r| - 1].content == Empty then r[..|r| - 1] + [Segment(Empty, r[|r| - 1].len + seg.len)]
    else r + [Segment(Empty, seg.len)]
  }

  /** A placed run keeps the runs up to a file at `i`, keeps free runs
      merged from `i` on, and adds its blocks except those of file `id`. */
  lemma {:induction false} PlaceMeans(r: seq<Segment>, seg: Segment, id: nat, i: nat)
    requires i < |r| && r[i].content.File? && MergedFrom(r, i)
    ensures i < |Place(r, seg, id)| && Place(r, seg, id)[..i + 1] == r[..i + 1]
    ensures MergedFrom(Place(r, seg, id), i)
    ensures TotalLen(Place(r, seg, id)) == TotalLen(r) + seg.len
    ensures forall k :: Units(Place(r, seg, id), k) == Units(r, k) + (if k == id then 0 else Own(seg, k))
  {
    if seg.content.File? && seg.content.id != id {
      PushMerged(r, seg, i);
    } else if r[|r| - 1].content == Empty {
      PlaceJoinsMeans(r, seg, id, i);
    } else {
      PushMerged(r, Segment(Empty, seg.len), i);
    }
  }

  /** `PlaceMeans` for a run that joins the free run at the end. */
  lemma {:induction false} PlaceJoinsMeans(r: seq<Segment>, seg: Segment, id: nat, i: nat)
    requires i < |r| && r[i].content.File? && MergedFrom(r, i)
    requires r[|r| - 1].content == Empty && !(seg.content.File? && seg.content.id != id)
    ensures i < |Place(r, seg, id)| && Place(r, seg, id)[..i + 1] == r[..i + 1]
    ensures MergedFrom(Place(r, seg, id), i)
    ensures TotalLen(Place(r, seg, id)) == TotalLen(r) + seg.len
    ensures forall k :: Units(Place(r, seg, id), k) == Units(r, k) + (if k == id then 0 else Own(seg, k))
  {
    var front, last := r[..|r| - 1], r[|r| - 1];
    SplitLast(r);
    SnocSlices(front, last, i + 1);
    GrowMerged(front, last, Segment(Empty, last.len + seg.len), i);
  }

  /** A run added after the last one, when the two are not both free. */
  lemma {:induction false} PushMerged(r: seq<Segment>, s: Segment, i: nat)
    requires i < |r| && r[i].content.File? && MergedFrom(r, i)
    requires !(r[|r| - 1].content == Empty && s.content == Empty)
    ensures (r + [s])[..i + 1] == r[..i + 1]
    ensures MergedFrom(r + [s], i)
    ensures TotalLen(r + [s]) == TotalLen(r) + s.len
    ensures forall k :: Units(r + [s], k) == Units(r, k) + Own(s, k)
  {
    Push(r, s);
    SnocSlices(r, s, i + 1);
    MergedPush(r, s, i);
  }

  /** Free runs stay merged after a run that does not join a free last run. */
  lemma MergedPush(r: seq<Segment>, s: Segment, i: nat)
    requires i < |r| && MergedFrom(r, i)
    requires !(r[|r| - 1].content == Empty && s.content == Empty)
    ensures MergedFrom(r + [s], i)
  {
    forall j | i <= j && j + 1 < |r| + 1
      ensures !((r + [s])[j].content == Empty && (r + [s])[j + 1].content == Empty)
    {
      assert (r + [s])[j] == r[j];
      if j + 1 < |r| {
        assert (r + [s])[j + 1] == r[j + 1];
      } else {
        assert (r + [s])[j + 1] == s;
      }
    }
  }

  /** The last run, free, grown to the free run `g`. */
  lemma {:induction false} GrowMerged(front: seq<Segment>, last: Segment, g: Segment, i: nat)
    requires i < |front| && MergedFrom(front + [last], i)
    requires last.content == Empty && g.content == Empty
    ensures (front + [g])[..i + 1] == front[..i + 1]
    ensures MergedFrom(front + [g], i)
    ensures TotalLen(front + [g]) + last.len == TotalLen(front + [last]) + g.len
    ensures forall k :: Units(front + [g], k) == Units(front + [last], k)
  {
    Push(front, g);
    Push(front, last);
    SnocSlices(front, g, i + 1);
    MergedSwap(front, last, g, i);
  }

  /** Free runs stay merged when a free last run is replaced by another. */
  lemma MergedSwap(front: seq<Segment>, last: Segment, g: Segment, i: nat)
    requires i < |front| && MergedFrom(front + [last], i) && last.content == Empty
    ensures MergedFrom(front + [g], i)
  {
    forall j | i <= j && j + 1 < |front| + 1
      ensures !((front + [g])[j].content == Empty && (front + [g])[j + 1].content == Empty)
    {
      assert (front + [last])[j] == front[j];
      if j + 1 < |front| {
        assert (front + [last])[j + 1] == front[j + 1];
      } else {
        assert (front + [last])[j + 1] == last;
      }
    }
  }

  /** Block by block, a placed run adds its blocks with file `id` freed. */
  lemma {:induction false} PlaceBlocks(r: seq<Segment>, seg: Segment, id: nat)
    requires |r| > 0
    ensures Blocks(Place(r, seg, id)) == Blocks(r) + Run(Freed(seg.content, id), seg.len)
  {
    if seg.content.File? && seg.content.id != id {
      PlaceKeepsBlocks(r, seg, id);
    } else if r[|r| - 1].content == Empty {
      PlaceJoinsBlocks(r, seg, id);
    } else {
      PlaceGapBlocks(r, seg, id);
    }
  }

  /** `PlaceBlocks` for a run of another file. */
  lemma {:induction false} PlaceKeepsBlocks(r: seq<Segment>, seg: Segment, id: nat)
    requires |r| > 0 && seg.content.File? && seg.content.id != id
    ensures Blocks(Place(r, seg, id)) == Blocks(r) + Run(Freed(seg.content, id), seg.len)
  {
    PushBlocks(r, seg, Freed(seg.content, id));
  }

  /** `PlaceBlocks` for a run that joins the free run at the end: its
      blocks, of file `id` or free, are freed. */
  lemma {:induction false} PlaceJoinsBlocks(r: seq<Segment>, seg: Segment, id: nat)
    requires |r| > 0 && r[|r| - 1].content == Empty && !(seg.content.File? && seg.content.id != id)
    ensures Blocks(Place(r, seg, id)) == Blocks(r) + Run(Freed(seg.content, id), seg.len)
  {
    PlaceJoinsFree(r, seg, id);
  }

  /** The run joining the free run at the end adds free blocks. */
  lemma {:induction false} PlaceJoinsFree(r: seq<Segment>, seg: Segment, id: nat)
    requires |r| > 0 && r[|r| - 1].content == Empty && !(seg.content.File? && seg.content.id != id)
    ensures Blocks(Place(r, seg, id)) == Blocks(r) + Run(None, seg.len)
  {
    PlaceGrows(r, seg, id);
    PlaceMerges(r, seg.len);
    EqTrans(Blocks(Place(r, seg, id)), Blocks(r[..|r| - 1] + [Segment(Empty, r[|r| - 1].len + seg.len)]), Blocks(r) + Run(None, seg.len));
  }

  /** `PlaceBlocks` for a run that starts a free run after a file. */
  lemma {:induction false} PlaceGapBlocks(r: seq<Segment>, seg: Segment, id: nat)
    requires |r| > 0 && r[|r| - 1].content != Empty && !(seg.content.File? && seg.content.id != id)
    ensures Blocks(Place(r, seg, id)) == Blocks(r) + Run(Freed(seg.content, id), seg.len)
  {
    PushBlocks(r, Segment(Empty, seg.len), Freed(seg.content, id));
  }

  /** A run that joins a free last run grows it. */
  lemma PlaceGrows(r: seq<Segment>, seg: Segment, id: nat)
    requires |r| > 0 && r[|r| - 1].content == Empty && !(seg.content.File? && seg.content.id != id)
    ensures Blocks(Place(r, seg, id)) == Blocks(r[..|r| - 1] + [Segment(Empty, r[|r| - 1].len + seg.len)])
  {
  }

  /** The blocks of a disk with one more run, whose blocks hold `c`. */
  lemma {:induction false} PushBlocks(r: seq<Segment>, s: Segment, c: Option<nat>)
    requires c == Content(s.content)
    ensures Blocks(r + [s]) == Blocks(r) + Run(c, s.len)
  {
    BlocksAppend(r, [s]);
    BlocksOne(s);
  }

  /** The blocks of a disk whose free last run grows by `n` free blocks. */
  lemma {:induction false} PlaceMerges(r: seq<Segment>, n: nat)
    requires |r| > 0 && r[|r| - 1].content == Empty
    ensures Blocks(r[..|r| - 1] + [Segment(Empty, r[|r| - 1].len + n)]) == Blocks(r) + Run(None, n)
  {
    var front, last := r[..|r| - 1], r[|r| - 1];
    var grown := Segment(Empty, last.len + n);
    BlocksAppend(front, [grown]);
    BlocksOne(grown);
    BlocksLast(r);
    RunSplit(None, last.len, n);
    Assoc(Blocks(front), Run(None, last.len), Run(None, n));
  }

  /** A disk's blocks are those of all its runs but the last, then the
      last run's. */
  lemma {:induction false} BlocksLast(d: seq<Segment>)
    requires |d| > 0
    ensures Blocks(d) == Blocks(d[..|d| - 1]) + Run(Content(d[|d| - 1].content), d[|d| - 1].len)
  {
    SplitLast(d);
    BlocksAppend(d[..|d| - 1], [d[|d| - 1]]);
    BlocksOne(d[|d| - 1]);
  }

  /** The blocks `bs` with those of file `id` freed. */
  function FreedBlocks(bs: seq<Option<nat>>, id: nat): (r: seq<Option<nat>>)
    ensures |r| == |bs|
  {
    seq(|bs|, k requires 0 <= k < |bs| => if bs[k] == Some(id) then None else bs[k])
  }

  /** Lines 91-108: the runs `rest` placed one by one after `r`. */
  function Settle(r: seq<Segment>, rest: seq<Segment>, id: nat): (r': seq<Segment>)
    requires |r| > 0
    ensures |r'| > 0
    decreases |rest|
  {
    if rest == [] then r else Place(Settle(r, rest[..|rest| - 1], id), rest[|rest| - 1], id)
  }

  /** Lines 81-90: the runs before the gap, the moved file, and what is left
      of the gap. */
  function Landing(d: seq<Segment>, i: nat, id: nat, len: nat): (r: seq<Segment>)
    requires i < |d|
    ensures i < |r| && r[..i] == d[..i] && r[i] == Segment(File(id), len)
  {
    d[..i] + [Segment(File(id), len)] + (if d[i].len > len then [Segment(Empty, d[i].len - len)] else [])
  }

  /** Lines 80-109: the disk with file `id` moved into the free run at `i`. */
  function Relocate(d: seq<Segment>, i: nat, id: nat, len: nat): seq<Segment>
    requires i < |d|
  {
    Settle(Landing(d, i, id, len), d[i + 1..], id)
  }

  /** Settling keeps the runs up to a file at `i`, keeps free runs merged
      from `i` on, and adds the blocks of the settled runs except those of
      file `id`. */
  lemma {:induction false} SettleMeans(r: seq<Segment>, rest: seq<Segment>, id: nat, i: nat)
    requires i < |r| && r[i].content.File? && MergedFrom(r, i)
    ensures i < |Settle(r, rest, id)| && Settle(r, rest, id)[..i + 1] == r[..i + 1]
    ensures MergedFrom(Settle(r, rest, id), i)
    ensures TotalLen(Settle(r, rest, id)) == TotalLen(r) + TotalLen(rest)
    ensures forall k :: Units(Settle(r, rest, id), k) == Units(r, k) + (if k == id then 0 else Units(rest, k))
    decreases |rest|
  {
    if rest != [] {
      var init, last := rest[..|rest| - 1], rest[|rest| - 1];
      SettleMeans(r, init, id, i);
      var mid := Settle(r, init, id);
      assert mid[i] == r[i] by { assert mid[..i + 1][i] == r[..i + 1][i]; }
      PlaceMeans(mid, last, id, i);
      assert Place(mid, last, id)[..i + 1] == mid[..i + 1];
    }
  }

  /** Block by block, settling adds the settled runs' blocks with those of
      file `id` freed. */
  lemma {:induction false} SettleBlocks(r: seq<Segment>, rest: seq<Segment>, id: nat)
    requires |r| > 0
    ensures Blocks(Settle(r, rest, id)) == Blocks(r) + FreedBlocks(Blocks(rest), id)
    decreases |rest|
  {
    if rest == [] {
      AppendNil(Blocks(r));
    } else {
      var init, last := rest[..|rest| - 1], rest[|rest| - 1];
      SettleBlocks(r, init, id);
      PlaceBlocks(Settle(r, init, id), last, id);
      BlocksLast(rest);
      FreedAppend(Blocks(init), Run(Content(last.content), last.len), id);
      FreedRun(last.content, last.len, id);
      Assoc(Blocks(r), FreedBlocks(Blocks(init), id), Run(Freed(last.content, id), last.len));
    }
  }

  lemma FreedRun(c: Fragment, n: nat, id: nat)
    ensures FreedBlocks(Run(Content(c), n), id) == Run(Freed(c, id), n)
  {
  }

  lemma FreedAppend(a: seq<Option<nat>>, b: seq<Option<nat>>, id: nat)
    ensures FreedBlocks(a + b, id) == FreedBlocks(a, id) + FreedBlocks(b, id)
  {
  }

  /** Lines 80-109: the disk with file `id` moved into the free run at `i`.
      The runs before `i` stay, what is left of the gap stays free, the old
      place of the file becomes free, and free runs from `i` on are merged. */
  method MoveFile(d: seq<Segment>, i: nat, id: nat, len: nat) returns (r: seq<Segment>)
    requires i < |d| && Fits(d[i], len)
    requires forall j :: 0 <= j < i ==> d[j].content != File(id)
    ensures r == Relocate(d, i, id, len)
    ensures i < |r| && r[..i] == d[..i] && r[i] == Segment(File(id), len)
    ensures MergedFrom(r, i)
    ensures TotalLen(r) == TotalLen(d)
    ensures Units(r, id) == len
    ensures forall k :: k != id ==> Units(r, k) == Units(d, k)
  {
    var moved := Segment(File(id), len);
    r := d[..i] + [moved];
    if d[i].len > len {
      r := r + [Segment(Empty, d[i].len - len)];
    }
    assert r == Landing(d, i, id, len);
    assert d[i + 1..i + 1] == [];
    for j := i + 1 to |d|
      invariant r == Settle(Landing(d, i, id, len), d[i + 1..j], id)
    {
      SettleStep(Landing(d, i, id, len), d, i + 1, j, id);
      r := Place(r, d[j], id);
    }
    assert d[i + 1..|d|] == d[i + 1..];
    RelocateMeans(d, i, id, len);
  }

  /** Settling the runs `lo` to `j` of `d` settles those before `j`, then
      places run `j`. */
  lemma {:induction false} SettleStep(r: seq<Segment>, d: seq<Segment>, lo: nat, j: nat, id: nat)
    requires |r| > 0 && lo <= j < |d|
    ensures Settle(r, d[lo..j + 1], id) == Place(Settle(r, d[lo..j], id), d[j], id)
  {
    assert d[lo..j + 1][..j - lo] == d[lo..j];
  }

  /** What a relocation keeps and changes. */
  lemma {:induction false} RelocateMeans(d: seq<Segment>, i: nat, id: nat, len: nat)
    requires i < |d| && Fits(d[i], len)
    requires forall j :: 0 <= j < i ==> d[j].content != File(id)
    ensures var r := Relocate(d, i, id, len);
      && i < |r| && r[..i] == d[..i] && r[i] == Segment(File(id), len)
      && MergedFrom(r, i)
      && TotalLen(r) == TotalLen(d)
      && Units(r, id) == len
      && forall k :: k != id ==> Units(r, k) == Units(d, k)
  {
    var start := Landing(d, i, id, len);
    LandingMeans(d, i, id, len);
    DiskAround(d, i);
    SettleMeans(start, d[i + 1..], id, i);
    PrefixAgree(Relocate(d, i, id, len), start, i);
  }

  /** The runs up to the moved file and what is left of the gap: the file
      `id` in place of the free run `i`. */
  lemma {:induction false} LandingMeans(d: seq<Segment>, i: nat, id: nat, len: nat)
    requires i < |d| && Fits(d[i], len)
    requires forall j :: 0 <= j < i ==> d[j].content != File(id)
    ensures var start := Landing(d, i, id, len);
      && MergedFrom(start, i)
      && TotalLen(start) == TotalLen(d[..i]) + d[i].len
      && Units(start, id) == len
      && forall k :: k != id ==> Units(start, k) == Units(d[..i], k) + Own(d[i], k)
  {
    var moved := Segment(File(id), len);
    Append(d[..i], [moved]);
    Single(moved);
    UnitsAbsent(d[..i], id);
    if d[i].len > len {
      var gap := Segment(Empty, d[i].len - len);
      Append(d[..i] + [moved], [gap]);
      Single(gap);
    } else {
      AppendNil(d[..i] + [moved]);
    }
  }

  /** A disk's runs before `i`, its run `i` and its runs after `i`. */
  lemma {:induction false} DiskAround(d: seq<Segment>, i: nat)
    requires i < |d|
    ensures TotalLen(d) == TotalLen(d[..i]) + d[i].len + TotalLen(d[i + 1..])
    ensures forall k :: Units(d, k) == Units(d[..i], k) + Own(d[i], k) + Units(d[i + 1..], k)
  {
    SplitAt(d, i);
    Append(d[..i], [d[i]] + d[i + 1..]);
    Append([d[i]], d[i + 1..]);
    Single(d[i]);
  }

  /** Two disks that agree up to run `i` agree before it and at it. */
  lemma PrefixAgree(r: seq<Segment>, s: seq<Segment>, i: nat)
    requires i < |r| && i < |s| && r[..i + 1] == s[..i + 1]
    ensures r[..i] == s[..i] && r[i] == s[i]
  {
    TakeTake(r, i, i + 1);
    TakeTake(s, i, i + 1);
    assert r[i] == r[..i + 1][i];
  }

  /** The blocks of a disk with file `id` moved to block `p`: the `len`
      blocks from `p` on hold the file, its other blocks are free, and every
      other block is unchanged. */
  function MoveBlocks(bs: seq<Option<nat>>, p: nat, len: nat, id: nat): (r: seq<Option<nat>>)
    ensures |r| == |bs|
  {
    seq(|bs|, k requires 0 <= k < |bs| => if p <= k < p + len then Some(id) else if bs[k] == Some(id) then None else bs[k])
  }

  /** A disk has as many blocks as its runs' lengths add up to. */
  lemma {:induction false} BlocksLength(d: seq<Segment>)
    ensures |Blocks(d)| == TotalLen(d)
  {
    if |d| > 0 {
      var init, last := d[..|d| - 1], d[|d| - 1];
      BlocksLength(init);
      assert d == init + [last];
      BlocksAppend(init, [last]);
      BlocksOne(last);
    }
  }

  /** Blocks without file `id` have nothing to free. */
  lemma FreedNone(bs: seq<Option<nat>>, id: nat)
    requires multiset(bs)[Some(id)] == 0
    ensures FreedBlocks(bs, id) == bs
  {
    forall k | 0 <= k < |bs|
      ensures bs[k] != Some(id)
    {
      assert bs[k] in multiset(bs);
    }
  }

  /** Moving into the front of a free stretch, block by block. */
  lemma MoveInto(a: seq<Option<nat>>, g: nat, b: seq<Option<nat>>, len: nat, id: nat)
    requires len <= g && FreedBlocks(a, id) == a
    ensures MoveBlocks(a + Run(None, g) + b, |a|, len, id)
         == a + Run(Some(id), len) + Run(None, g - len) + FreedBlocks(b, id)
  {
    var lhs := MoveBlocks(a + Run(None, g) + b, |a|, len, id);
    var rhs := a + Run(Some(id), len) + Run(None, g - len) + FreedBlocks(b, id);
    forall k | 0 <= k < |lhs|
      ensures lhs[k] == rhs[k]
    {
      if k < |a| {
        assert a[k] == FreedBlocks(a, id)[k];
      }
    }
  }

  /** Moving into the front of a free stretch, with the disks before and
      after named. */
  lemma MoveIntoAt(bs: seq<Option<nat>>, a: seq<Option<nat>>, g: nat, b: seq<Option<nat>>,
                   x: seq<Option<nat>>, p: nat, len: nat, id: nat)
    requires len <= g && FreedBlocks(a, id) == a && p == |a|
    requires bs == a + Run(None, g) + b
    requires x == a + Run(Some(id), len) + Run(None, g - len)
    ensures MoveBlocks(bs, p, len, id) == x + FreedBlocks(b, id)
  {
    MoveInto(a, g, b, len, id);
  }

  /** Block by block, a relocation moves file `id` into the first `len`
      blocks of the free run at `i` and frees its old blocks; every other
      block stays. The blocks it moves into were free. */
  lemma {:induction false} RelocateBlocks(d: seq<Segment>, i: nat, id: nat, len: nat)
    requires i < |d| && Fits(d[i], len)
    requires forall j :: 0 <= j < i ==> d[j].content != File(id)
    ensures TotalLen(d[..i]) + len <= |Blocks(d)|
    ensures forall k :: TotalLen(d[..i]) <= k < TotalLen(d[..i]) + len ==> Blocks(d)[k] == None
    ensures Blocks(Relocate(d, i, id, len)) == MoveBlocks(Blocks(d), TotalLen(d[..i]), len, id)
  {
    RelocateGapFree(d, i, len);
    RelocateMoves(d, i, id, len);
  }

  /** The free run at `i` starts after the blocks of the runs before it. */
  lemma {:induction false} RelocateGapFree(d: seq<Segment>, i: nat, len: nat)
    requires i < |d| && Fits(d[i], len)
    ensures TotalLen(d[..i]) + len <= |Blocks(d)|
    ensures forall k :: TotalLen(d[..i]) <= k < TotalLen(d[..i]) + len ==> Blocks(d)[k] == None
  {
    BlocksLength(d[..i]);
    BlocksAround(d, i);
  }

  /** `RelocateBlocks`, block by block. */
  lemma {:induction false} RelocateMoves(d: seq<Segment>, i: nat, id: nat, len: nat)
    requires i < |d| && Fits(d[i], len)
    requires forall j :: 0 <= j < i ==> d[j].content != File(id)
    ensures Blocks(Relocate(d, i, id, len)) == MoveBlocks(Blocks(d), TotalLen(d[..i]), len, id)
  {
    var start := Landing(d, i, id, len);
    SettleBlocks(start, d[i + 1..], id);
    LandingMoves(d, i, id, len);
    EqTrans(Blocks(Relocate(d, i, id, len)), Blocks(start) + FreedBlocks(Blocks(d[i + 1..]), id),
            MoveBlocks(Blocks(d), TotalLen(d[..i]), len, id));
  }

  /** Moving file `id` into the free run at `i` gives the blocks of the
      landing runs, then those after the gap with file `id` freed. */
  lemma {:induction false} LandingMoves(d: seq<Segment>, i: nat, id: nat, len: nat)
    requires i < |d| && Fits(d[i], len)
    requires forall j :: 0 <= j < i ==> d[j].content != File(id)
    ensures MoveBlocks(Blocks(d), TotalLen(d[..i]), len, id)
         == Blocks(Landing(d, i, id, len)) + FreedBlocks(Blocks(d[i + 1..]), id)
  {
    var a := Blocks(d[..i]);
    BlocksLength(d[..i]);
    UnitsAbsent(d[..i], id);
    UnitsBlocks(d[..i], id);
    FreedNone(a, id);
    BlocksAround(d, i);
    LandingBlocks(d, i, id, len);
    MoveIntoAt(Blocks(d), a, d[i].len, Blocks(d[i + 1..]), Blocks(Landing(d, i, id, len)), TotalLen(d[..i]), len, id);
  }

  /** The blocks of a disk around its run `i`. */
  lemma {:induction false} BlocksAround(d: seq<Segment>, i: nat)
    requires i < |d|
    ensures Blocks(d) == Blocks(d[..i]) + Run(Content(d[i].content), d[i].len) + Blocks(d[i + 1..])
  {
    SplitAt(d, i);
    BlocksAppend(d[..i], [d[i]] + d[i + 1..]);
    BlocksAppend([d[i]], d[i + 1..]);
    BlocksOne(d[i]);
    Assoc(Blocks(d[..i]), Run(Content(d[i].content), d[i].len), Blocks(d[i + 1..]));
  }

  /** The blocks of the runs up to the moved file and what is left of the
      gap. */
  lemma LandingBlocks(d: seq<Segment>, i: nat, id: nat, len: nat)
    requires i < |d| && d[i].len >= len
    ensures Blocks(Landing(d, i, id, len)) == Blocks(d[..i]) + Run(Some(id), len) + Run(None, d[i].len - len)
  {
    var moved := Segment(File(id), len);
    var tail := if d[i].len > len then [Segment(Empty, d[i].len - len)] else [];
    assert Landing(d, i, id, len) == d[..i] + ([moved] + tail);
    BlocksAppend(d[..i], [moved] + tail);
    BlocksAppend([moved], tail);
    BlocksOne(moved);
    if d[i].len > len {
      BlocksOne(Segment(Empty, d[i].len - len));
    } else {
      assert Blocks(tail) == [] == Run(None, d[i].len - len);
    }
  }

  /** One run more at the end of a disk. */
  lemma {:induction false} Push(d: seq<Segment>, seg: Segment)
    ensures TotalLen(d + [seg]) == TotalLen(d) + seg.len
    ensures forall k :: Units(d + [seg], k) == Units(d, k) + Own(seg, k)
  {
    assert (d + [seg])[..|d|] == d;
  }

  /** One turn of the `while` of lines 54-113: file `id` moves to the first
      free run that fits it, if there is one before it. */
  function MoveStep(d: seq<Segment>, id: nat, len: nat): seq<Segment>
  {
    match FirstFit(d, id, len, 0)
    case None => d
    case Some(i) => Relocate(d, i, id, len)
  }

  /** Lines 54-113: files `id`, `id - 1`, ..., 1 moved in turn, each with the
      length `lengths` records. */
  function FileCompact(d: seq<Segment>, lengths: map<nat, nat>, id: nat): seq<Segment>
    requires forall k :: 0 < k <= id ==> k in lengths
    decreases id
  {
    if id == 0 then d else FileCompact(MoveStep(d, id, lengths[id]), lengths, id - 1)
  }

  /** The file compaction of `day09part2` (lines 42-116) on a parsed disk:
      the files are taken from the highest id down to id 1. Every file keeps
      its blocks and the disk keeps its size. */
  method CompactFiles(disk: seq<Segment>) returns (d: seq<Segment>)
    requires Parsed(disk) && |disk| > 0
    ensures LengthsCover(disk)
    ensures d == FileCompact(disk, Lengths(disk), (|disk| - 1) / 2)
    ensures SameFiles(d, disk)
    ensures TotalLen(d) == TotalLen(disk)
  {
    var lengths := Lengths(disk);
    var maxId := (|disk| - 1) / 2;
    LengthsCoverParsed(disk);
    d := disk;
    var fileId: nat := maxId;
    while fileId > 0
      invariant fileId <= maxId
      invariant FileCompact(d, lengths, fileId) == FileCompact(disk, lengths, maxId)
      invariant SameFiles(d, disk) && TotalLen(d) == TotalLen(disk)
      decreases fileId
    {
      ParsedWhole(disk, fileId);
      var len := lengths[fileId];
      var dest := FindDest(d, fileId, len);
      if dest.Some? {
        var i := dest.value;
        var r := MoveFile(d, i, fileId, len);
        assert Units(d, fileId) == len;
        d := r;
      }
      fileId := fileId - 1;
    }
  }

  /** Every file id from 1 up to the largest has a recorded length. */
  ghost predicate LengthsCover(disk: seq<Segment>)
  {
    forall k :: 0 < k <= (|disk| - 1) / 2 ==> k in Lengths(disk)
  }

  lemma LengthsCoverParsed(disk: seq<Segment>)
    requires Parsed(disk) && |disk| > 0
    ensures LengthsCover(disk)
  {
    forall k | 0 < k <= (|disk| - 1) / 2
      ensures k in Lengths(disk)
    {
      ParsedWhole(disk, k);
    }
  }

  /** Moving files `id` down to 1, each with its own length, keeps every
      file's blocks and the disk's size. */
  lemma {:induction false} FileCompactKeeps(d: seq<Segment>, lengths: map<nat, nat>, id: nat)
    requires forall k :: 0 < k <= id ==> k in lengths && lengths[k] == Units(d, k)
    ensures SameFiles(FileCompact(d, lengths, id), d)
    ensures TotalLen(FileCompact(d, lengths, id)) == TotalLen(d)
    decreases id
  {
    if id > 0 {
      var next := MoveStep(d, id, lengths[id]);
      MoveStepKeeps(d, id, lengths[id]);
      FileCompactKeeps(next, lengths, id - 1);
    }
  }

  /** One turn keeps every file's blocks and the disk's size. */
  lemma {:induction false} MoveStepKeeps(d: seq<Segment>, id: nat, len: nat)
    requires len == Units(d, id)
    ensures SameFiles(MoveStep(d, id, len), d) && TotalLen(MoveStep(d, id, len)) == TotalLen(d)
  {
    match FirstFit(d, id, len, 0) {
      case None =>
      case Some(i) => RelocateMeans(d, i, id, len);
    }
  }

  /** Each file moves at most once: once file `id + 1` has had its turn, no
      later move touches a block of a file above `id`. */
  lemma {:induction false} FileCompactSettled(d: seq<Segment>, lengths: map<nat, nat>, id: nat, x: nat, k: nat)
    requires forall j :: 0 < j <= id ==> j in lengths
    requires x > id && k < |Blocks(d)| && Blocks(d)[k] == Some(x)
    ensures |Blocks(FileCompact(d, lengths, id))| == |Blocks(d)|
    ensures Blocks(FileCompact(d, lengths, id))[k] == Some(x)
    decreases id
  {
    if id > 0 {
      var next := MoveStep(d, id, lengths[id]);
      MoveStepSettled(d, id, lengths[id], x, k);
      FileCompactSettled(next, lengths, id - 1, x, k);
      assert FileCompact(d, lengths, id) == FileCompact(next, lengths, id - 1);
    }
  }

  /** One turn for file `id` leaves a block of a larger file where it is. */
  lemma {:induction false} MoveStepSettled(d: seq<Segment>, id: nat, len: nat, x: nat, k: nat)
    requires x > id && k < |Blocks(d)| && Blocks(d)[k] == Some(x)
    ensures |Blocks(MoveStep(d, id, len))| == |Blocks(d)|
    ensures Blocks(MoveStep(d, id, len))[k] == Some(x)
  {
    match FirstFit(d, id, len, 0) {
      case None =>
      case Some(i) =>
        RelocateBlocks(d, i, id, len);
        MoveKeepsBlock(Blocks(d), TotalLen(d[..i]), len, id, k);
    }
  }

  /** Moving file `id` onto free blocks leaves a block of another file. */
  lemma MoveKeepsBlock(bs: seq<Option<nat>>, p: nat, len: nat, id: nat, k: nat)
    requires k < |bs| && bs[k] != None && bs[k] != Some(id)
    requires forall j :: p <= j < p + len && j < |bs| ==> bs[j] == None
    ensures MoveBlocks(bs, p, len, id)[k] == bs[k]
  {
  }

  /** The largest id on a parsed disk is the one `CompactFiles` starts from. */
  lemma {:induction false} MaxIdIsLargest(disk: seq<Segment>, k: nat)
    requires Parsed(disk) && |disk| > 0
    ensures (|disk| - 1) / 2 in Lengths(disk)
    ensures k in Lengths(disk) ==> k <= (|disk| - 1) / 2
  {
    ParsedWhole(disk, k);
    ParsedWhole(disk, (|disk| - 1) / 2);
  }

  // ---------------------------------------------------------------------------
  // The answers

  /** The size file `id` has on the map `s`, 0 for an id the map lacks. */
  function FileSize(s: string, id: nat): int
  {
    if 2 * id < |s| then s[2 * id] as int - '0' as int else 0
  }

  /** The number of blocks the map `s` describes. */
  function DigitSum(s: string): int
  {
    if |s| == 0 then 0 else DigitSum(s[..|s| - 1]) + (s[|s| - 1] as int - '0' as int)
  }

  lemma {:induction false} ParsedTotal(d: seq<Segment>, s: string)
    requires |d| == |s|
    requires forall i :: 0 <= i < |d| ==> d[i].len == s[i] as int - '0' as int
    ensures TotalLen(d) == DigitSum(s)
  {
    if |d| > 0 {
      ParsedTotal(d[..|d| - 1], s[..|s| - 1]);
    }
  }

  /** The blocks of each file on a freshly parsed disk are its size on the map. */
  lemma {:induction false} ParsedSizes(d: seq<Segment>, s: string)
    requires |d| == |s| && Parsed(d)
    requires forall i :: 0 <= i < |d| ==> d[i].len == s[i] as int - '0' as int
    ensures forall id :: Units(d, id) == FileSize(s, id)
  {
    forall id ensures Units(d, id) == FileSize(s, id) {
      ParsedWhole(d, id);
    }
  }

  /** `day09part1` (lines 3-40): the checksum of the parsed disk compacted
      block by block: a layout of file runs only, in which every file has the
      size the map gives it. */
  method Part1(input: string) returns (r: nat, ghost disk: seq<Segment>, ghost layout: seq<Segment>)
    requires forall c :: c in Trim(input) ==> c >= '0'
    ensures |disk| == |Trim(input)| && Parsed(disk)
    ensures forall i :: 0 <= i < |disk| ==> disk[i].len == Trim(input)[i] as int - '0' as int
    ensures Blocks(layout) == Compact(Blocks(disk))
    ensures r == Check(layout, 0) && AllFiles(layout)
    ensures forall id :: Units(layout, id) == FileSize(Trim(input), id)
  {
    var parsed := ParseDiskMap(input);
    disk := parsed;
    ParsedSizes(parsed, Trim(input));
    var out := CompactBlocks(parsed);
    r := Checksum(out);
    layout := out;
  }

  /** `day09part2` (lines 42-116): the checksum of the parsed disk with its
      files moved whole, highest id first: a layout of the disk's size in
      which every file has the size the map gives it. An empty map has no
      largest file id and panics in the source. */
  method Part2(input: string) returns (r: nat, ghost disk: seq<Segment>, ghost layout: seq<Segment>)
    requires forall c :: c in Trim(input) ==> c >= '0'
    requires |Trim(input)| > 0
    ensures |disk| == |Trim(input)| && Parsed(disk) && LengthsCover(disk)
    ensures forall i :: 0 <= i < |disk| ==> disk[i].len == Trim(input)[i] as int - '0' as int
    ensures layout == FileCompact(disk, Lengths(disk), (|disk| - 1) / 2)
    ensures r == Check(layout, 0) && TotalLen(layout) == DigitSum(Trim(input))
    ensures forall id :: Units(layout, id) == FileSize(Trim(input), id)
  {
    var parsed := ParseDiskMap(input);
    disk := parsed;
    ParsedSizes(parsed, Trim(input));
    ParsedTotal(parsed, Trim(input));
    var out := CompactFiles(parsed);
    r := Checksum(out);
    layout := out;
  }

  /** A layout of file runs only has no free block: part 1 leaves no gap
      before its last file block. */
  lemma {:induction false} AllFilesNoGaps(d: seq<Segment>)
    requires AllFiles(d)
    ensures forall k :: 0 <= k < |Blocks(d)| ==> Blocks(d)[k].Some?
  {
    if |d| > 0 {
      AllFilesNoGaps(d[1..]);
    }
  }
}
