/** Day 11: stones that change every blink. The solver keeps, for every value,
    how many stones carry it (a `BTreeMap` from value to count, here a
    `multiset<nat>`), since the stones' order never influences their number. */
module Day11 {
  import opened Common

  // ---------------------------------------------------------------------------
  // Decimal digits

  function Pow10(k: nat): (p: nat)
    ensures p >= 1
  {
    if k == 0 then 1 else 10 * Pow10(k - 1)
  }

  /** Number of decimal digits of `n` (1 for zero). */
  function NumDigits(n: nat): (d: nat)
    ensures d >= 1
    ensures n < Pow10(d)
    ensures d > 1 ==> Pow10(d - 1) <= n
  {
    if n < 10 then 1 else NumDigits(n / 10) + 1
  }

  /** `digits` (lines 60-67). */
  method Digits(n: nat) returns (digits: nat)
    ensures digits == NumDigits(n)
  {
    digits := 1;
    var m := n;
    while m >= 10
      invariant digits >= 1 && digits - 1 + NumDigits(m) == NumDigits(n)
    {
      m := m / 10;
      digits := digits + 1;
    }
  }

  /** The digit count is the length of the printed number. */
  lemma {:induction false} NumDigitsShown(n: nat)
    ensures NumDigits(n) == |ShowNat(n)|
  {
    if n >= 10 {
      NumDigitsShown(n / 10);
    }
  }

  // ---------------------------------------------------------------------------
  // One stone

  /** What one stone turns into: 0 becomes 1; a number with an even count of
      digits splits into its left and right halves; any other is multiplied
      by 2024 (lines 35-49). */
  function BlinkStone(v: nat): (r: seq<nat>)
    ensures 1 <= |r| <= 2
  {
    if v == 0 then [1]
    else
      var d := NumDigits(v);
      if d % 2 == 0 then
        var m := Pow10(d / 2);
        [v / m, v % m]
      else [v * 2024]
  }

  lemma {:induction false} Pow10Add(a: nat, b: nat)
    ensures Pow10(a + b) == Pow10(a) * Pow10(b)
  {
    if a > 0 {
      Pow10Add(a - 1, b);
    }
  }

  /** A stone with `d` digits, `d` even, splits into its quotient and
      remainder by 10^(d/2): the left half has exactly d/2 digits (no
      leading zero) and the right half is below 10^(d/2). */
  lemma {:induction false} SplitHalves(v: nat)
    requires v != 0 && NumDigits(v) % 2 == 0
    ensures BlinkStone(v) == [v / Pow10(NumDigits(v) / 2), v % Pow10(NumDigits(v) / 2)]
    ensures NumDigits(v / Pow10(NumDigits(v) / 2)) == NumDigits(v) / 2
    ensures v % Pow10(NumDigits(v) / 2) < Pow10(NumDigits(v) / 2)
  {
    HalfDigits(v, NumDigits(v), NumDigits(v) / 2);
  }

  lemma {:induction false} HalfDigits(v: nat, d: nat, h: nat)
    requires d == NumDigits(v) && d % 2 == 0 && h == d / 2
    ensures NumDigits(v / Pow10(h)) == h
  {
    var m := Pow10(h);
    Pow10Add(h, h);
    Pow10Add(h - 1, h);
    assert Pow10(d - 1) == Pow10(h - 1) * m;
    assert Pow10(d) == Pow10(h) * m;
    DivBounds(v, m, Pow10(h - 1), Pow10(h));
    DigitsBetween(v / m, h);
  }

  /** `lo * m <= v < hi * m` bounds the quotient `v / m` by `lo` and `hi`. */
  lemma DivBounds(v: nat, m: nat, lo: nat, hi: nat)
    requires m > 0 && lo * m <= v < hi * m
    ensures lo <= v / m < hi
  {
    var a := v / m;
    assert v == a * m + v % m && v % m < m;
    if a < lo {
      MulMono(a + 1, lo, m);
    }
    if a >= hi {
      MulMono(hi, a, m);
    }
  }

  lemma MulMono(x: nat, y: nat, m: nat)
    requires x <= y
    ensures x * m <= y * m
  {
  }

  /** A number between 10^(k-1) and 10^k has k digits. */
  lemma {:induction false} DigitsBetween(n: nat, k: nat)
    requires k >= 1 && Pow10(k - 1) <= n < Pow10(k)
    ensures NumDigits(n) == k
  {
    if k > 1 {
      assert n >= 10;
      DigitsBetween(n / 10, k - 1);
    } else {
      assert n < 10;
    }
  }

  // ---------------------------------------------------------------------------
  // A row of stones, and its counters

  /** `f` applied to every element of `s`, the results concatenated. */
  function FlatMap(f: nat -> seq<nat>, s: seq<nat>): seq<nat>
  {
    if |s| == 0 then [] else f(s[0]) + FlatMap(f, s[1..])
  }

  lemma {:induction false} FlatMapAppend(f: nat -> seq<nat>, a: seq<nat>, b: seq<nat>)
    ensures FlatMap(f, a + b) == FlatMap(f, a) + FlatMap(f, b)
  {
    if |a| > 0 {
      assert (a + b)[1..] == a[1..] + b;
      FlatMapAppend(f, a[1..], b);
    } else {
      assert a + b == b;
    }
  }

  /** What a row becomes, counted by value, depends only on the row counted
      by value. */
  lemma {:induction false} FlatMapPermutation(f: nat -> seq<nat>, a: seq<nat>, b: seq<nat>)
    requires multiset(a) == multiset(b)
    ensures multiset(FlatMap(f, a)) == multiset(FlatMap(f, b))
    decreases |a|
  {
    if |a| > 0 {
      var x := a[0];
      assert x in multiset(b);
      var i :| 0 <= i < |b| && b[i] == x;
      var left, right := b[..i], b[i + 1..];
      RemoveOne(a, b, i);
      FlatMapPermutation(f, a[1..], left + right);
      assert b == left + [x] + right;
      FlatMapAppend(f, left + [x], right);
      FlatMapAppend(f, left, [x]);
      FlatMapAppend(f, left, right);
      assert a == [x] + a[1..];
      FlatMapAppend(f, [x], a[1..]);
      assert FlatMap(f, [x]) == f(x);
    }
  }

  /** Every stone of a row blinked, in order. */
  function BlinkAll(stones: seq<nat>): seq<nat>
  {
    FlatMap(BlinkStone, stones)
  }

  lemma BlinkAllAppend(a: seq<nat>, b: seq<nat>)
    ensures BlinkAll(a + b) == BlinkAll(a) + BlinkAll(b)
  {
    FlatMapAppend(BlinkStone, a, b);
  }

  /** The stones a row becomes, counted by value, depend only on the stones
      counted by value: this is what lets the solver forget the order. */
  lemma BlinkAllPermutation(a: seq<nat>, b: seq<nat>)
    requires multiset(a) == multiset(b)
    ensures multiset(BlinkAll(a)) == multiset(BlinkAll(b))
  {
    FlatMapPermutation(BlinkStone, a, b);
  }

  /** Taking the first element of `a` and the matching `b[i]` away leaves
      equal multisets. */
  lemma RemoveOne(a: seq<nat>, b: seq<nat>, i: nat)
    requires multiset(a) == multiset(b) && |a| > 0 && i < |b| && b[i] == a[0]
    ensures multiset(a[1..]) == multiset(b[..i] + b[i + 1..])
  {
    assert b == b[..i] + [b[i]] + b[i + 1..];
    assert a == [a[0]] + a[1..];
    assert multiset(a[1..]) == multiset(a) - multiset{a[0]};
  }

  /** `c` copies of `x`. */
  function Copies(x: nat, c: nat): (s: seq<nat>)
    ensures |s| == c && multiset(s)[x] == c
    ensures forall y :: y != x ==> multiset(s)[y] == 0
  {
    if c == 0 then [] else [x] + Copies(x, c - 1)
  }

  /** Some row of stones with these counts. */
  ghost function Enumerate(m: multiset<nat>): (s: seq<nat>)
    ensures multiset(s) == m
    decreases |m|
  {
    if |m| == 0 then []
    else
      var x :| x in m;
      [x] + Enumerate(m - multiset{x})
  }

  /** Adds `c` stones of value `x` to the counters. */
  function AddCount(m: multiset<nat>, x: nat, c: nat): (r: multiset<nat>)
    ensures r == m + multiset(Copies(x, c))
  {
    m[x := m[x] + c]
  }

  /** The body of the loop of lines 34-51: the stones that `count` stones of
      value `value` become, added to the counters. */
  method AddBlinked(next: multiset<nat>, value: nat, count: nat) returns (r: multiset<nat>)
    ensures r == next + Times(BlinkStone(value), count)
  {
    if value == 0 {
      r := AddCount(next, 1, count);
      TimesSingle(1, count);
    } else {
      var digits := Digits(value);
      if digits % 2 == 0 {
        var m := Pow10(digits / 2);
        r := AddCount(next, value / m, count);
        r := AddCount(r, value % m, count);
        TimesPair(value / m, value % m, count);
      } else {
        r := AddCount(next, value * 2024, count);
        TimesSingle(value * 2024, count);
      }
    }
  }

  /** Blinking a row that holds `count` stones of value `value` and the
      stones of `others`. */
  lemma {:induction false} BlinkGroup(rest: seq<nat>, value: nat, count: nat, others: seq<nat>)
    requires multiset(rest) == multiset(Copies(value, count) + others)
    ensures multiset(BlinkAll(rest)) == Times(BlinkStone(value), count) + multiset(BlinkAll(others))
  {
    BlinkAllPermutation(rest, Copies(value, count) + others);
    BlinkAllAppend(Copies(value, count), others);
    BlinkAllCopies(value, count);
  }

  /** All stones of value `x`, then the others, make up the counters. */
  lemma {:induction false} SplitOff(m: multiset<nat>, x: nat)
    ensures multiset(Copies(x, m[x]) + Enumerate(m[x := 0])) == m
  {
    var c := multiset(Copies(x, m[x]));
    var e := m[x := 0];
    assert multiset(Copies(x, m[x]) + Enumerate(e)) == c + e;
    forall y ensures (c + e)[y] == m[y] {
    }
  }

  /** Handling all stones of value `x` keeps the loop's account: what is
      counted so far plus what the remaining stones will become. */
  lemma GroupBlinked(before: multiset<nat>, after: multiset<nat>, rest: seq<nat>, x: nat, target: multiset<nat>)
    requires x in multiset(rest)
    requires before + multiset(BlinkAll(rest)) == target
    requires after == before + Times(BlinkStone(x), multiset(rest)[x])
    ensures after + multiset(BlinkAll(Enumerate(multiset(rest)[x := 0]))) == target
    ensures |multiset(rest)[x := 0]| < |multiset(rest)|
  {
    var m := multiset(rest);
    var others := Enumerate(m[x := 0]);
    SplitOff(m, x);
    BlinkGroup(rest, x, m[x], others);
  }

  /** `blink` (lines 31-54): the counters of the row after one blink. */
  method Blink(counters: multiset<nat>) returns (next: multiset<nat>)
    ensures forall stones: seq<nat> | multiset(stones) == counters :: next == multiset(BlinkAll(stones))
  {
    next := multiset{};
    var rem := counters;
    ghost var rest := Enumerate(counters);
    ghost var target := multiset(BlinkAll(rest));
    while rem != multiset{}
      invariant multiset(rest) == rem
      invariant next + multiset(BlinkAll(rest)) == target
      decreases |rem|
    {
      var value :| value in rem;
      var count := rem[value];
      ghost var before := next;
      next := AddBlinked(next, value, count);
      GroupBlinked(before, next, rest, value, target);
      rest := Enumerate(rem[value := 0]);
      rem := rem[value := 0];
    }
    forall stones: seq<nat> | multiset(stones) == counters
      ensures next == multiset(BlinkAll(stones))
    {
      BlinkAllPermutation(stones, Enumerate(counters));
    }
  }

  /** `c` stones of value `x` blink into `c` copies of what one of them becomes. */
  lemma {:induction false} BlinkAllCopies(x: nat, c: nat)
    ensures multiset(BlinkAll(Copies(x, c))) == Times(BlinkStone(x), c)
  {
    if c > 0 {
      var r := Copies(x, c - 1);
      assert Copies(x, c) == [x] + r;
      BlinkAllAppend([x], r);
      assert BlinkAll([x]) == BlinkStone(x) + BlinkAll([]) by {
        assert [x][1..] == [];
      }
      BlinkAllCopies(x, c - 1);
      assert BlinkAll(Copies(x, c)) == BlinkStone(x) + BlinkAll(r);
    }
  }

  /** `c` copies of every element of `s`, as a multiset. */
  function Times(s: seq<nat>, c: nat): multiset<nat>
  {
    if c == 0 then multiset{} else multiset(s) + Times(s, c - 1)
  }

  /** `total_stones` (lines 56-58). */
  function TotalStones(counters: multiset<nat>): nat
  {
    |counters|
  }
  lemma {:induction false} TimesSingle(x: nat, c: nat)
    ensures Times([x], c) == multiset(Copies(x, c))
  {
    if c > 0 {
      TimesSingle(x, c - 1);
    }
  }

  lemma {:induction false} TimesPair(x: nat, y: nat, c: nat)
    ensures Times([x, y], c) == multiset(Copies(x, c)) + multiset(Copies(y, c))
  {
    TimesSplit(x, y, c);
    TimesSingle(x, c);
    TimesSingle(y, c);
  }

  lemma {:induction false} TimesSplit(x: nat, y: nat, c: nat)
    ensures Times([x, y], c) == Times([x], c) + Times([y], c)
  {
    if c > 0 {
      TimesSplit(x, y, c - 1);
      var a, b := Times([x], c - 1), Times([y], c - 1);
      assert multiset([x, y]) == multiset{x} + multiset{y};
      assert Times([x], c) == multiset{x} + a;
      assert Times([y], c) == multiset{y} + b;
      assert Times([x, y], c) == multiset{x} + multiset{y} + (a + b);
    }
  }

  /** The row after `n` blinks. */
  function BlinkTimes(n: nat, stones: seq<nat>): seq<nat>
  {
    if n == 0 then stones else BlinkAll(BlinkTimes(n - 1, stones))
  }

  /** The loops of lines 6-8 and 16-18. */
  method BlinkRepeatedly(counters: multiset<nat>, n: nat) returns (r: multiset<nat>)
    ensures forall stones: seq<nat> | multiset(stones) == counters :: r == multiset(BlinkTimes(n, stones))
  {
    r := counters;
    var i := 0;
    while i < n
      invariant i <= n
      invariant forall stones: seq<nat> | multiset(stones) == counters :: r == multiset(BlinkTimes(i, stones))
    {
      r := Blink(r);
      i := i + 1;
    }
  }

  // ---------------------------------------------------------------------------
  // Reading the stones (lines 23-29)

  /** The words that parse as `usize`; the others are dropped. */
  function ParsedValues(words: seq<string>): (values: seq<nat>)
    ensures |values| <= |words|
  {
    if |words| == 0 then []
    else
      var rest := ParsedValues(words[1..]);
      match ParseUnsigned(words[0], U64_LIMIT)
      case Some(n) => [n] + rest
      case None => rest
  }

  /** `parse_stones` as written: collecting `(value, 1)` pairs into a map keeps
      a single entry per value, so repeated values count once. */
  function CountersOf(values: seq<nat>): (m: multiset<nat>)
    ensures forall v :: m[v] == if v in values then 1 else 0
  {
    multiset(set v | v in values)
  }

  /** The intended counters: one per stone. */
  function IntendedCountersOf(values: seq<nat>): (m: multiset<nat>)
    ensures |m| == |values|
    ensures forall v :: m[v] == Count(values, v)
  {
    multiset(values)
  }

  /** Two stones engraved 0 are counted as one. */
  lemma RepeatedStoneLost()
    ensures |CountersOf([0, 0])| == 1
    ensures |IntendedCountersOf([0, 0])| == 2
  {
    assert CountersOf([0, 0]) == multiset{0};
  }

  /** With distinct values the two agree. */
  lemma {:induction false} CountersOfDistinct(values: seq<nat>)
    requires forall i, j :: 0 <= i < j < |values| ==> values[i] != values[j]
    ensures CountersOf(values) == IntendedCountersOf(values)
  {
    forall v ensures CountersOf(values)[v] == IntendedCountersOf(values)[v] {
      if v in values {
        var i :| 0 <= i < |values| && values[i] == v;
        CountOne(values, i);
      }
    }
  }

  lemma {:induction false} CountOne(values: seq<nat>, i: nat)
    requires i < |values|
    requires forall a, b :: 0 <= a < b < |values| ==> values[a] != values[b]
    ensures Count(values, values[i]) == 1
  {
    if i > 0 {
      CountOne(values[1..], i - 1);
      assert values[1..][i - 1] == values[i];
    } else {
      assert values[0] !in values[1..];
    }
  }

  /** Part 1 and part 2 (lines 3-21): the number of stones after `n` blinks of
      a row whose counters the parser produced. */
  method Solve(input: string, n: nat) returns (total: nat)
    ensures forall stones: seq<nat> | multiset(stones) == CountersOf(ParsedValues(Words(input))) ::
      total == |BlinkTimes(n, stones)|
  {
    var counters := CountersOf(ParsedValues(Words(input)));
    var r := BlinkRepeatedly(counters, n);
    total := TotalStones(r);
  }

  /** The intended answer: every stone of the input counted. */
  method SolveIntended(input: string, n: nat) returns (total: nat)
    ensures total == |BlinkTimes(n, ParsedValues(Words(input)))|
  {
    var counters := IntendedCountersOf(ParsedValues(Words(input)));
    var r := BlinkRepeatedly(counters, n);
    total := TotalStones(r);
  }

  // ---------------------------------------------------------------------------
  // Stones of the test at lines 73-80

  lemma ExampleStones()
    ensures BlinkStone(0) == [1]
    ensures BlinkStone(17) == [1, 7]
    ensures BlinkStone(125) == [253000]
    ensures BlinkStone(2024) == [20, 24]
  {
  }
}
