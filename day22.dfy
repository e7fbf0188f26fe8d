/** Day 22: monkey market. Each buyer's secret number evolves by a fixed
    mixing function; the price a buyer offers is the last decimal digit of the
    secret, and a buyer sells at the first time a given run of four price
    changes appears. */
module Day22 {
  import opened Common

  /** `monkey` (lines 77-82) on a `u32`: three shift-xor-mask rounds. The
      middle round masks with 28 bits, the others with 24. */
  function Monkey(n: bv32): (r: bv32)
    ensures r < 0x100_0000
  {
    var n1 := ((n << 6) ^ n) & 0xff_ffff;
    var n2 := ((n1 >> 5) ^ n1) & 0xfff_ffff;
    ((n2 << 11) ^ n2) & 0xff_ffff
  }

  /** The mixing function as the puzzle describes it: each round mixes
      (xors) and prunes to 24 bits. */
  function MonkeyPruned(n: bv32): bv32
  {
    var n1 := ((n << 6) ^ n) & 0xff_ffff;
    var n2 := ((n1 >> 5) ^ n1) & 0xff_ffff;
    ((n2 << 11) ^ n2) & 0xff_ffff
  }

  /** After the first round the value has 24 bits, and so has its xor with
      itself shifted right: the 28-bit mask of the middle round keeps exactly
      what a 24-bit mask keeps. */
  lemma MiddleMaskHarmless(n1: bv32)
    requires n1 < 0x100_0000
    ensures ((n1 >> 5) ^ n1) & 0xfff_ffff == ((n1 >> 5) ^ n1) & 0xff_ffff
  {
  }

  lemma MonkeyIsPruned(n: bv32)
    ensures Monkey(n) == MonkeyPruned(n)
  {
    MiddleMaskHarmless(((n << 6) ^ n) & 0xff_ffff);
  }

  /** The secret after `k` rounds. */
  function Iterate(n: bv32, k: nat): (r: bv32)
    ensures k > 0 ==> r < 0x100_0000
  {
    if k == 0 then n else Monkey(Iterate(n, k - 1))
  }

  const ROUNDS: nat := 2000

  /** Lines 8-14: each seed evolved 2000 times. */
  function SumOfSecrets(seeds: seq<bv32>, rounds: nat): int
  {
    if |seeds| == 0 then 0
    else SumOfSecrets(seeds[..|seeds| - 1], rounds) + Iterate(seeds[|seeds| - 1], rounds) as int
  }

  /** `day22part1` (lines 4-16) after the seeds are read. */
  method Part1(seeds: seq<bv32>) returns (sum: int)
    ensures sum == SumOfSecrets(seeds, ROUNDS)
  {
    sum := 0;
    for i := 0 to |seeds|
      invariant sum == SumOfSecrets(seeds[..i], ROUNDS)
    {
      var n := seeds[i];
      for r := 0 to ROUNDS
        invariant n == Iterate(seeds[i], r)
      {
        n := Monkey(n);
      }
      assert seeds[..i + 1][..i] == seeds[..i];
      sum := sum + n as int;
    }
    assert seeds[..|seeds|] == seeds;
  }

  /** The numbers on the lines that parse as `u32`; other lines are skipped
      (lines 5 and 19). */
  function ParseSeeds(lines: seq<string>): (r: seq<bv32>)
    ensures |r| <= |lines|
  {
    if |lines| == 0 then []
    else
      var rest := ParseSeeds(lines[1..]);
      match ParseUnsigned(lines[0], U32_LIMIT)
      case Some(n) => [n as bv32] + rest
      case None => rest
  }

  // ---------------------------------------------------------------------------
  // Part 2: prices and sequences of four changes

  /** The price a secret offers: its last decimal digit (line 28). */
  function Price(n: bv32): (p: int)
    ensures 0 <= p <= 9
  {
    (n as int) % 10
  }

  /** The prices after each of the first `count` rounds (lines 24-30). */
  function Prices(seed: bv32, count: nat): (p: seq<int>)
    ensures |p| == count
    ensures forall i :: 0 <= i < count ==> p[i] == Price(Iterate(seed, i + 1))
  {
    if count == 0 then [] else Prices(seed, count - 1) + [Price(Iterate(seed, count))]
  }

  method BuyerPrices(seed: bv32, count: nat) returns (prices: seq<int>)
    ensures prices == Prices(seed, count)
  {
    prices := [];
    var n := seed;
    for k := 0 to count
      invariant n == Iterate(seed, k) && prices == Prices(seed, k)
    {
      n := Monkey(n);
      prices := prices + [Price(n)];
    }
  }

  /** Consecutive price changes (lines 34-43). */
  function Diffs(prices: seq<int>): (d: seq<int>)
    requires |prices| >= 1
    ensures |d| == |prices| - 1
    ensures forall i :: 0 <= i < |d| ==> d[i] == prices[i + 1] - prices[i]
  {
    seq(|prices| - 1, i requires 0 <= i < |prices| - 1 => prices[i + 1] - prices[i])
  }

  /** Every price is a digit, so every change lies in [-9, 9]. */
  lemma {:induction false} DiffsBounded(seed: bv32, count: nat)
    requires count >= 1
    ensures forall i :: 0 <= i < count ==> 0 <= Prices(seed, count)[i] <= 9
    ensures forall i :: 0 <= i < count - 1 ==> -9 <= Diffs(Prices(seed, count))[i] <= 9
  {
  }

  type Window = (int, int, int, int)

  /** The four changes ending at index `i`. */
  function WindowAt(d: seq<int>, i: int): Window
    requires 3 <= i < |d|
  {
    (d[i - 3], d[i - 2], d[i - 1], d[i])
  }

  /** `w` appears first at index `i`. */
  ghost predicate FirstAt(d: seq<int>, w: Window, i: int)
  {
    3 <= i < |d| && WindowAt(d, i) == w && forall j :: 3 <= j < i ==> WindowAt(d, j) != w
  }

  /** The table of one buyer with price changes `d`: every window of four
      changes that appears, with the price right after its first appearance. */
  ghost predicate IsFirstTable(d: seq<int>, prices: seq<int>, table: map<Window, int>)
    requires |prices| == |d| + 1
  {
    && (forall i :: 3 <= i < |d| ==> WindowAt(d, i) in table)
    && (forall w :: w in table ==> exists i :: FirstAt(d, w, i) && table[w] == prices[i + 1])
  }

  ghost predicate IsBuyerTable(prices: seq<int>, table: map<Window, int>)
    requires |prices| >= 1
  {
    IsFirstTable(Diffs(prices), prices, table)
  }

  /** Lines 48-56: the table of one buyer. */
  method BuyerTable(prices: seq<int>) returns (table: map<Window, int>)
    requires |prices| >= 1
    ensures IsBuyerTable(prices, table)
  {
    table := FirstTable(Diffs(prices), prices);
  }

  /** The loop of lines 50-54: `or_insert` keeps the first price. */
  method FirstTable(d: seq<int>, prices: seq<int>) returns (table: map<Window, int>)
    requires |prices| == |d| + 1
    ensures IsFirstTable(d, prices, table)
  {
    table := map[];
    ghost var first: map<Window, int> := map[];
    var i := 3;
    while i < |d|
      invariant 3 <= i
      invariant forall j :: 3 <= j < i && j < |d| ==> WindowAt(d, j) in table
      invariant table.Keys == first.Keys
      invariant forall w :: w in first ==> first[w] < i && FirstAt(d, w, first[w]) && table[w] == prices[first[w] + 1]
    {
      var w := WindowAt(d, i);
      if w !in table {
        table := table[w := prices[i + 1]];
        first := first[w := i];
      }
      i := i + 1;
    }
    forall w | w in table
      ensures exists j :: FirstAt(d, w, j) && table[w] == prices[j + 1]
    {
      assert FirstAt(d, w, first[w]);
    }
  }

  /** A buyer's table never holds a window that does not appear. */
  lemma TableOnlyAppearing(d: seq<int>, prices: seq<int>, table: map<Window, int>, w: Window)
    requires |prices| == |d| + 1 && IsFirstTable(d, prices, table)
    requires forall i :: 3 <= i < |d| ==> WindowAt(d, i) != w
    ensures w !in table
  {
  }

  lemma FirstAtUnique(d: seq<int>, w: Window, i: int, j: int)
    requires FirstAt(d, w, i) && FirstAt(d, w, j)
    ensures i == j
  {
  }

  /** The table is determined by the prices: two tables that both meet the
      description are equal. */
  lemma FirstTableUnique(d: seq<int>, prices: seq<int>, t1: map<Window, int>, t2: map<Window, int>)
    requires |prices| == |d| + 1 && IsFirstTable(d, prices, t1) && IsFirstTable(d, prices, t2)
    ensures t1 == t2
  {
    forall w | w in t1
      ensures w in t2 && t1[w] == t2[w]
    {
      var i :| FirstAt(d, w, i) && t1[w] == prices[i + 1];
      assert WindowAt(d, i) in t2;
      var j :| FirstAt(d, w, j) && t2[w] == prices[j + 1];
      FirstAtUnique(d, w, i, j);
    }
    forall w | w in t2
      ensures w in t1
    {
      var j :| FirstAt(d, w, j) && t2[w] == prices[j + 1];
      assert WindowAt(d, j) in t1;
    }
  }

  /** The bananas a window earns over all buyers; a buyer whose table lacks it
      sells nothing (line 69). */
  function Bananas(tables: seq<map<Window, int>>, w: Window): int
  {
    if |tables| == 0 then 0
    else Bananas(tables[..|tables| - 1], w) + (if w in tables[|tables| - 1] then tables[|tables| - 1][w] else 0)
  }

  /** Every window in any table (lines 59-62). */
  function AllWindows(tables: seq<map<Window, int>>): (r: set<Window>)
    ensures forall k, w :: 0 <= k < |tables| && w in tables[k] ==> w in r
    ensures forall w :: w in r ==> exists k :: 0 <= k < |tables| && w in tables[k]
  {
    if |tables| == 0 then {}
    else AllWindows(tables[..|tables| - 1]) + tables[|tables| - 1].Keys
  }

  /** Lines 64-74: the largest banana total over the windows that occur, or 0;
      the windows are visited in no particular order. */
  method MaxBananas(tables: seq<map<Window, int>>) returns (best: int)
    ensures forall w :: w in AllWindows(tables) ==> best >= Bananas(tables, w)
    ensures best == 0 || exists w :: w in AllWindows(tables) && best == Bananas(tables, w)
  {
    best := 0;
    var remaining := AllWindows(tables);
    ghost var visited: set<Window> := {};
    while remaining != {}
      invariant remaining + visited == AllWindows(tables)
      invariant forall w :: w in visited ==> best >= Bananas(tables, w)
      invariant best == 0 || exists w :: w in visited && best == Bananas(tables, w)
      decreases |remaining|
    {
      var w :| w in remaining;
      var bananas := Bananas(tables, w);
      if bananas > best {
        best := bananas;
      }
      remaining := remaining - {w};
      visited := visited + {w};
    }
  }

  /** `day22part2` (lines 18-75) after the seeds are read. */
  method Part2(seeds: seq<bv32>) returns (best: int)
    ensures exists tables: seq<map<Window, int>> ::
      && |tables| == |seeds|
      && (forall k :: 0 <= k < |seeds| ==> IsBuyerTable(Prices(seeds[k], ROUNDS), tables[k]))
      && (forall w :: w in AllWindows(tables) ==> best >= Bananas(tables, w))
      && (best == 0 || exists w :: w in AllWindows(tables) && best == Bananas(tables, w))
  {
    var tables: seq<map<Window, int>> := [];
    for i := 0 to |seeds|
      invariant |tables| == i
      invariant forall k :: 0 <= k < i ==> IsBuyerTable(Prices(seeds[k], ROUNDS), tables[k])
    {
      var prices := BuyerPrices(seeds[i], ROUNDS);
      var table := BuyerTable(prices);
      tables := tables + [table];
    }
    best := MaxBananas(tables);
  }
}
