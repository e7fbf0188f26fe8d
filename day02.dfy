/** Day 2: reports of levels. A report is safe when its levels move in one
    direction by steps of 1 to 3; part 2 tolerates one bad level. */
module Day02 {
  import opened Common

  // ---------------------------------------------------------------------------
  // Reading a report

  /** The words of a line that parse as `i32`; the others are dropped. */
  function ParsedLevels(words: seq<string>): (levels: seq<int>)
    ensures |levels| <= |words|
  {
    if |words| == 0 then []
    else
      var rest := ParsedLevels(words[1..]);
      match ParseSigned(words[0], I32_LIMIT)
      case Some(n) => [n] + rest
      case None => rest
  }

  function Levels(line: string): seq<int>
  {
    ParsedLevels(Words(Trim(line)))
  }

  // ---------------------------------------------------------------------------
  // What "safe" means

  /** The step from `a` to `b`, multiplied by `sign`, lies in 1..3. */
  predicate GoodStep(a: int, b: int, sign: int)
  {
    1 <= (b - a) * sign <= 3
  }

  /** Every step `levels[i+1] - levels[i]`, multiplied by `sign`, lies in 1..3. */
  predicate StepsWithin(levels: seq<int>, sign: int)
  {
    forall i :: 0 <= i < |levels| - 1 ==> GoodStep(levels[i], levels[i + 1], sign)
  }

  /** All increasing or all decreasing, by 1 to 3 each step. */
  predicate Safe(levels: seq<int>)
  {
    StepsWithin(levels, 1) || StepsWithin(levels, -1)
  }

  function Remove(levels: seq<int>, k: nat): (r: seq<int>)
    requires k < |levels|
    ensures |r| == |levels| - 1
  {
    levels[..k] + levels[k + 1..]
  }

  /** Safe, or safe once some single level is removed. */
  ghost predicate Tolerable(levels: seq<int>)
  {
    Safe(levels) || exists k :: 0 <= k < |levels| && Safe(Remove(levels, k))
  }

  // ---------------------------------------------------------------------------
  // Part 1: minimum and maximum of the differences (lines 3-21)

  /** `itertools::MinMaxResult`. */
  datatype MinMaxResult = NoElements | OneElement(x: int) | MinMax(lo: int, hi: int)

  /** Differences of neighbouring levels, earlier minus later (`tuple_windows`). */
  function Diffs(levels: seq<int>): (d: seq<int>)
    ensures |d| == if |levels| == 0 then 0 else |levels| - 1
    ensures forall i :: 0 <= i < |d| ==> d[i] == levels[i] - levels[i + 1]
  {
    if |levels| <= 1 then [] else [levels[0] - levels[1]] + Diffs(levels[1..])
  }

  function SeqMin(s: seq<int>): (m: int)
    requires |s| > 0
    ensures m in s && forall i :: 0 <= i < |s| ==> m <= s[i]
  {
    if |s| == 1 then s[0]
    else
      var rest := SeqMin(s[1..]);
      assert forall i :: 1 <= i < |s| ==> s[i] == s[1..][i - 1];
      if s[0] <= rest then s[0] else rest
  }

  function SeqMax(s: seq<int>): (m: int)
    requires |s| > 0
    ensures m in s && forall i :: 0 <= i < |s| ==> s[i] <= m
  {
    if |s| == 1 then s[0]
    else
      var rest := SeqMax(s[1..]);
      assert forall i :: 1 <= i < |s| ==> s[i] == s[1..][i - 1];
      if s[0] >= rest then s[0] else rest
  }

  /** `Itertools::minmax`: a single element is reported as `OneElement`. */
  function MinMaxOf(s: seq<int>): (r: MinMaxResult)
    ensures r.NoElements? <==> |s| == 0
    ensures r.OneElement? <==> |s| == 1
    ensures r.MinMax? ==> r.lo in s && r.hi in s
    ensures r.MinMax? ==> forall i :: 0 <= i < |s| ==> r.lo <= s[i] <= r.hi
  {
    if |s| == 0 then NoElements
    else if |s| == 1 then OneElement(s[0])
    else MinMax(SeqMin(s), SeqMax(s))
  }

  /** The filter of part 1 on one report, as written. */
  predicate Part1Keeps(levels: seq<int>)
  {
    match MinMaxOf(Diffs(levels))
    case MinMax(lo, hi) => (lo >= 1 && hi <= 3) || (lo >= -3 && hi <= -1)
    case _ => false
  }

  /** Part 1 keeps exactly the safe reports of at least three levels: with
      two levels there is a single difference and `minmax` does not report
      a `MinMax`. */
  lemma Part1KeepsIff(levels: seq<int>)
    ensures Part1Keeps(levels) <==> |levels| >= 3 && Safe(levels)
  {
    var d := Diffs(levels);
    DiffsDecreasing(levels);
    DiffsIncreasing(levels);
    if |levels| >= 3 {
      var lo, hi := SeqMin(d), SeqMax(d);
      assert lo in d && hi in d;
    }
  }

  /** Every entry of `d` lies in `lo..hi`. */
  predicate AllWithin(d: seq<int>, lo: int, hi: int)
  {
    forall i :: 0 <= i < |d| ==> lo <= d[i] <= hi
  }

  lemma {:induction false} DiffsDecreasing(levels: seq<int>)
    ensures StepsWithin(levels, -1) <==> AllWithin(Diffs(levels), 1, 3)
  {
    var d := Diffs(levels);
    if StepsWithin(levels, -1) {
      forall i | 0 <= i < |d| ensures 1 <= d[i] <= 3 {
        assert GoodStep(levels[i], levels[i + 1], -1);
      }
    } else {
      var i :| 0 <= i < |levels| - 1 && !GoodStep(levels[i], levels[i + 1], -1);
      assert i < |d| && !(1 <= d[i] <= 3);
    }
  }

  lemma {:induction false} DiffsIncreasing(levels: seq<int>)
    ensures StepsWithin(levels, 1) <==> AllWithin(Diffs(levels), -3, -1)
  {
    var d := Diffs(levels);
    if StepsWithin(levels, 1) {
      forall i | 0 <= i < |d| ensures -3 <= d[i] <= -1 {
        assert GoodStep(levels[i], levels[i + 1], 1);
      }
    } else {
      var i :| 0 <= i < |levels| - 1 && !GoodStep(levels[i], levels[i + 1], 1);
      assert i < |d| && !(-3 <= d[i] <= -1);
    }
  }

  /** The report `1 2` is safe, yet part 1 does not count it. */
  lemma Part1TwoLevels()
    ensures Safe([1, 2]) && !Part1Keeps([1, 2])
  {
    assert MinMaxOf(Diffs([1, 2])) == OneElement(-1);
  }

  function CountPart1(lines: seq<string>): (n: nat)
    ensures n <= |lines|
  {
    if |lines| == 0 then 0
    else CountPart1(lines[..|lines| - 1]) + (if Part1Keeps(Levels(lines[|lines| - 1])) then 1 else 0)
  }

  function Part1(input: string): nat
  {
    CountPart1(Split(input, '\n'))
  }

  /** The intended count: every non-empty safe report. */
  function CountPart1Intended(lines: seq<string>): (n: nat)
    ensures n <= |lines|
  {
    if |lines| == 0 then 0
    else
      var levels := Levels(lines[|lines| - 1]);
      CountPart1Intended(lines[..|lines| - 1]) + (if |levels| > 0 && Safe(levels) then 1 else 0)
  }

  /** The as-written count never exceeds the intended one. */
  lemma {:induction false} Part1BelowIntended(lines: seq<string>)
    ensures CountPart1(lines) <= CountPart1Intended(lines)
  {
    if |lines| > 0 {
      Part1BelowIntended(lines[..|lines| - 1]);
      Part1KeepsIff(Levels(lines[|lines| - 1]));
    }
  }

  // ---------------------------------------------------------------------------
  // Part 2: the greedy count of levels to skip (lines 39-66)

  /** Walking `rest` from the last kept level `prev`: a level whose step from
      `prev` is good becomes the new `prev`, any other is skipped and counted. */
  function Skipped(prev: int, rest: seq<int>, sign: int): (n: nat)
    ensures n <= |rest|
    decreases |rest|
  {
    if |rest| == 0 then 0
    else if GoodStep(prev, rest[0], sign) then Skipped(rest[0], rest[1..], sign)
    else 1 + Skipped(prev, rest[1..], sign)
  }

  function InvalidCount(levels: seq<int>, sign: int): nat
  {
    if |levels| == 0 then 0 else Skipped(levels[0], levels[1..], sign)
  }

  /** `count_invalid`: the loop of lines 39-54. */
  method CountInvalid(levels: seq<int>, sign: int) returns (count: nat)
    ensures count == InvalidCount(levels, sign)
  {
    if |levels| == 0 {
      return 0;
    }
    count := 0;
    var prev := levels[0];
    var i := 1;
    while i < |levels|
      invariant 1 <= i <= |levels|
      invariant count + Skipped(prev, levels[i..], sign) == InvalidCount(levels, sign)
    {
      assert levels[i..][1..] == levels[i + 1..];
      var diff := (levels[i] - prev) * sign;
      if 1 <= diff <= 3 {
        prev := levels[i];
      } else {
        count := count + 1;
      }
      i := i + 1;
    }
  }

  /** `min_invalid`; the source slices `levels[1..]`, so the report must not
      be empty (part 2 filters empty reports out first). */
  function MinInvalid(levels: seq<int>): nat
    requires |levels| > 0
  {
    var a := InvalidCount(levels, 1);
    var b := InvalidCount(levels, -1);
    var c := InvalidCount(levels[1..], 1) + 1;
    var d := InvalidCount(levels[1..], -1) + 1;
    var m1 := if a <= b then a else b;
    var m2 := if c <= d then c else d;
    if m1 <= m2 then m1 else m2
  }

  /** Good steps throughout `[x] + s`: a good first step, then good steps in `s`. */
  lemma StepsWithinCons(x: int, s: seq<int>, sign: int)
    ensures StepsWithin([x] + s, sign) <==>
      (|s| == 0 || GoodStep(x, s[0], sign)) && StepsWithin(s, sign)
  {
    var t := [x] + s;
    assert forall i :: 0 < i < |t| ==> t[i] == s[i - 1];
    if (|s| == 0 || GoodStep(x, s[0], sign)) && StepsWithin(s, sign) {
      forall i | 0 <= i < |t| - 1 ensures GoodStep(t[i], t[i + 1], sign) {
        if i > 0 {
          assert t[i + 1] == s[i] && t[i] == s[i - 1];
        }
      }
    }
    if StepsWithin(t, sign) {
      if |s| > 0 {
        assert t[1] == s[0] && t[0] == x;
      }
      forall i | 0 <= i < |s| - 1 ensures GoodStep(s[i], s[i + 1], sign) {
        assert s[i + 1] == t[i + 2] && s[i] == t[i + 1];
      }
    }
  }

  /** Nothing skipped exactly when every step is good. */
  lemma {:induction false} SkippedZeroIff(prev: int, rest: seq<int>, sign: int)
    ensures Skipped(prev, rest, sign) == 0 <==> StepsWithin([prev] + rest, sign)
    decreases |rest|
  {
    StepsWithinCons(prev, rest, sign);
    if |rest| > 0 {
      SkippedZeroIff(rest[0], rest[1..], sign);
      assert [rest[0]] + rest[1..] == rest;
    }
  }

  lemma InvalidCountZeroIff(levels: seq<int>, sign: int)
    ensures InvalidCount(levels, sign) == 0 <==> StepsWithin(levels, sign)
  {
    if |levels| > 0 {
      SkippedZeroIff(levels[0], levels[1..], sign);
      assert [levels[0]] + levels[1..] == levels;
    }
  }

  /** A single skip is a removal that leaves good steps only: the skipped level. */
  lemma {:induction false} SkippedOneSound(prev: int, rest: seq<int>, sign: int)
    requires Skipped(prev, rest, sign) == 1
    ensures exists k :: 0 <= k < |rest| && StepsWithin([prev] + Remove(rest, k), sign)
    decreases |rest|
  {
    if GoodStep(prev, rest[0], sign) {
      SkippedOneSound(rest[0], rest[1..], sign);
      var k :| 0 <= k < |rest[1..]| && StepsWithin([rest[0]] + Remove(rest[1..], k), sign);
      var t := [rest[0]] + Remove(rest[1..], k);
      assert Remove(rest, k + 1) == t by {
        assert rest == [rest[0]] + rest[1..];
      }
      StepsWithinCons(prev, t, sign);
      assert StepsWithin([prev] + Remove(rest, k + 1), sign);
    } else {
      SkippedZeroIff(prev, rest[1..], sign);
      assert Remove(rest, 0) == rest[1..];
    }
  }

  /** The as-written part 2 only accepts tolerable reports. */
  lemma MinInvalidSound(levels: seq<int>)
    requires |levels| > 0
    requires MinInvalid(levels) <= 1
    ensures Tolerable(levels)
  {
    var tail := levels[1..];
    if InvalidCount(levels, 1) == 0 || InvalidCount(levels, -1) == 0 {
      InvalidCountZeroIff(levels, 1);
      InvalidCountZeroIff(levels, -1);
    } else if InvalidCount(levels, 1) == 1 {
      OneSkipTolerable(levels, 1);
    } else if InvalidCount(levels, -1) == 1 {
      OneSkipTolerable(levels, -1);
    } else {
      assert InvalidCount(tail, 1) == 0 || InvalidCount(tail, -1) == 0;
      InvalidCountZeroIff(tail, 1);
      InvalidCountZeroIff(tail, -1);
      assert Remove(levels, 0) == tail;
    }
  }

  /** One level skipped by the greedy walk: removing it leaves a safe report. */
  lemma OneSkipTolerable(levels: seq<int>, sign: int)
    requires |levels| > 0 && InvalidCount(levels, sign) == 1 && (sign == 1 || sign == -1)
    ensures Tolerable(levels)
  {
    var tail := levels[1..];
    SkippedOneSound(levels[0], tail, sign);
    var k :| 0 <= k < |tail| && StepsWithin([levels[0]] + Remove(tail, k), sign);
    assert [levels[0]] + Remove(tail, k) == Remove(levels, k + 1);
  }

  /** `1 3 2 3` becomes safe without the first `3`, but the greedy count is
      2: it keeps that `3` (a good step from 1) and then skips both 2 and the
      last 3. The test at line 106 expects 1. */
  lemma MinInvalidIncomplete()
    ensures MinInvalid([1, 3, 2, 3]) == 2
    ensures Safe(Remove([1, 3, 2, 3], 1))
  {
    assert Remove([1, 3, 2, 3], 1) == [1, 2, 3];
    assert [1, 3, 2, 3][1..] == [3, 2, 3];
    assert InvalidCount([1, 3, 2, 3], 1) == 2;
    assert InvalidCount([1, 3, 2, 3], -1) == 3;
    assert InvalidCount([3, 2, 3], 1) == 2;
    assert InvalidCount([3, 2, 3], -1) == 1;
  }

  /** Whether removing one of the levels at `k` or later makes the report safe. */
  function SomeRemovalSafe(levels: seq<int>, k: nat): (b: bool)
    requires k <= |levels|
    ensures b <==> exists j :: k <= j < |levels| && Safe(Remove(levels, j))
    decreases |levels| - k
  {
    if k == |levels| then false
    else Safe(Remove(levels, k)) || SomeRemovalSafe(levels, k + 1)
  }

  /** The intended part-2 test: safe, or safe after removing any one level. */
  function Tolerant(levels: seq<int>): (b: bool)
    ensures b <==> Tolerable(levels)
  {
    Safe(levels) || SomeRemovalSafe(levels, 0)
  }

  /** Lines 23-37: non-empty reports whose greedy count is at most 1. */
  function CountPart2(lines: seq<string>): (n: nat)
    ensures n <= |lines|
  {
    if |lines| == 0 then 0
    else
      var levels := Levels(lines[|lines| - 1]);
      CountPart2(lines[..|lines| - 1]) + (if |levels| > 0 && MinInvalid(levels) <= 1 then 1 else 0)
  }

  function Part2(input: string): nat
  {
    CountPart2(Split(input, '\n'))
  }

  function CountPart2Intended(lines: seq<string>): (n: nat)
    ensures n <= |lines|
  {
    if |lines| == 0 then 0
    else
      var levels := Levels(lines[|lines| - 1]);
      CountPart2Intended(lines[..|lines| - 1]) + (if |levels| > 0 && Tolerant(levels) then 1 else 0)
  }

  /** Every report part 1 counts, part 2 counts too, and part 2 never counts
      more than the intended tolerant reports. */
  lemma {:induction false} CountsOrdered(lines: seq<string>)
    ensures CountPart1(lines) <= CountPart2(lines) <= CountPart2Intended(lines)
  {
    if |lines| > 0 {
      CountsOrdered(lines[..|lines| - 1]);
      var levels := Levels(lines[|lines| - 1]);
      Part1KeepsIff(levels);
      if |levels| > 0 {
        InvalidCountZeroIff(levels, 1);
        InvalidCountZeroIff(levels, -1);
        if MinInvalid(levels) <= 1 {
          MinInvalidSound(levels);
        }
      }
    }
  }

  // ---------------------------------------------------------------------------
  // Examples from the tests at lines 100-101

  lemma MinInvalidExamples()
    ensures MinInvalid([1, 2, 3, 4, 5]) == 0
    ensures MinInvalid([1, 2, 3, 100, 4, 5]) == 1
  {
    assert [1, 2, 3, 4, 5][1..] == [2, 3, 4, 5];
    assert [1, 2, 3, 100, 4, 5][1..] == [2, 3, 100, 4, 5];
    assert InvalidCount([1, 2, 3, 100, 4, 5], 1) == 1;
  }
}
