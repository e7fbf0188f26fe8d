/** Day 1: two columns of location ids. Part 1 pairs the columns up after
    sorting both and sums the distances; part 2 weighs every left id by how
    often it occurs in the right column. */
module Day01 {
  import opened Common

  // ---------------------------------------------------------------------------
  // Reading the two columns

  /** One line: None when it is malformed (a single field or a field that
      does not parse, where the source's `unwrap` panics), Some(None) when it
      has no field and is skipped, otherwise its first two fields. */
  function ParseLine(line: string, limit: nat): (r: Option<Option<(int, int)>>)
    requires limit > 0
    ensures r == Some(None) <==> Words(line) == []
  {
    var parts := Words(line);
    if |parts| == 0 then Some(None)
    else if |parts| < 2 then None
    else
      match (ParseSigned(parts[0], limit), ParseSigned(parts[1], limit))
      case (Some(a), Some(b)) => Some(Some((a, b)))
      case _ => None
  }

  /** The columns read from `lines`, or None when some line is malformed. */
  function Columns(lines: seq<string>, limit: nat): (r: Option<(seq<int>, seq<int>)>)
    requires limit > 0
    ensures r.Some? ==> |r.value.0| == |r.value.1| <= |lines|
  {
    if |lines| == 0 then Some(([], []))
    else
      var prefix := Columns(lines[..|lines| - 1], limit);
      var last := ParseLine(lines[|lines| - 1], limit);
      if prefix.None? || last.None? then None
      else if last.value.None? then prefix
      else Some((prefix.value.0 + [last.value.value.0], prefix.value.1 + [last.value.value.1]))
  }

  /** Lines without any field are skipped. */
  lemma {:induction false} BlankLinesSkipped(lines: seq<string>, blank: string, limit: nat)
    requires limit > 0
    requires Words(blank) == []
    ensures Columns(lines + [blank], limit) == Columns(lines, limit)
  {
    assert (lines + [blank])[..|lines|] == lines;
  }

  /** The loop at lines 6-12 (and 26-32) of the source. */
  method ReadColumns(input: string, limit: nat) returns (r: Option<(seq<int>, seq<int>)>)
    requires limit > 0
    ensures r == Columns(Split(input, '\n'), limit)
  {
    var lines := Split(input, '\n');
    var left: seq<int> := [];
    var right: seq<int> := [];
    var i := 0;
    while i < |lines|
      invariant 0 <= i <= |lines|
      invariant Columns(lines[..i], limit) == Some((left, right))
    {
      var parsed := ParseLine(lines[i], limit);
      ColumnsStep(lines, i, limit);
      if parsed.None? {
        ColumnsFailurePersists(lines, i + 1, limit);
        return None;
      }
      if parsed.value.Some? {
        left := left + [parsed.value.value.0];
        right := right + [parsed.value.value.1];
      }
      i := i + 1;
    }
    assert lines[..i] == lines;
    r := Some((left, right));
  }

  /** One more line read onto the columns of the lines before it. */
  lemma {:induction false} ColumnsStep(lines: seq<string>, i: nat, limit: nat)
    requires limit > 0 && i < |lines|
    ensures var prefix := Columns(lines[..i], limit);
      var last := ParseLine(lines[i], limit);
      Columns(lines[..i + 1], limit) ==
        if prefix.None? || last.None? then None
        else if last.value.None? then prefix
        else Some((prefix.value.0 + [last.value.value.0], prefix.value.1 + [last.value.value.1]))
  {
    assert lines[..i + 1][..i] == lines[..i];
  }

  /** Once a prefix of the lines fails to parse, so does every longer prefix. */
  lemma {:induction false} ColumnsFailurePersists(lines: seq<string>, k: nat, limit: nat)
    requires limit > 0
    requires k <= |lines|
    requires Columns(lines[..k], limit).None?
    ensures Columns(lines, limit).None?
    decreases |lines| - k
  {
    if k < |lines| {
      assert lines[..k + 1][..k] == lines[..k];
      ColumnsFailurePersists(lines, k + 1, limit);
    } else {
      assert lines[..k] == lines;
    }
  }

  // ---------------------------------------------------------------------------
  // Sorting (the standard library's `sort`, here an insertion sort)

  predicate Sorted(s: seq<int>)
  {
    forall i, j :: 0 <= i < j < |s| ==> s[i] <= s[j]
  }

  /** `x` placed before the first element of `s` that is not smaller. */
  function Insert(x: int, s: seq<int>): (r: seq<int>)
    ensures |r| == |s| + 1
  {
    if |s| == 0 then [x]
    else if x <= s[0] then [x] + s
    else [s[0]] + Insert(x, s[1..])
  }

  /** Insertion sort. */
  function Sort(s: seq<int>): (r: seq<int>)
    ensures |r| == |s|
  {
    if |s| == 0 then [] else Insert(s[0], Sort(s[1..]))
  }

  /** Inserting into a sorted sequence keeps it sorted and adds exactly `x`. */
  lemma {:induction false} InsertSorted(x: int, s: seq<int>)
    requires Sorted(s)
    ensures Sorted(Insert(x, s)) && multiset(Insert(x, s)) == multiset(s) + multiset{x}
    ensures Insert(x, s)[0] == x || (|s| > 0 && Insert(x, s)[0] == s[0])
  {
    if |s| > 0 {
      assert s == [s[0]] + s[1..];
      if x <= s[0] {
        SortedCons(x, s);
      } else {
        InsertSorted(x, s[1..]);
        SortedCons(s[0], Insert(x, s[1..]));
      }
    }
  }

  lemma SortedCons(x: int, s: seq<int>)
    requires Sorted(s) && (|s| == 0 || x <= s[0])
    ensures Sorted([x] + s)
  {
  }

  /** `Sort` returns a sorted permutation of its input. */
  lemma {:induction false} SortSorted(s: seq<int>)
    ensures Sorted(Sort(s)) && multiset(Sort(s)) == multiset(s)
  {
    if |s| > 0 {
      assert s == [s[0]] + s[1..];
      SortSorted(s[1..]);
      InsertSorted(s[0], Sort(s[1..]));
    }
  }

  /** Two sorted sequences with the same elements are equal. */
  lemma {:induction false} SortedUnique(a: seq<int>, b: seq<int>)
    requires Sorted(a) && Sorted(b) && multiset(a) == multiset(b)
    ensures a == b
    decreases |a|
  {
    assert |a| == |multiset(a)| == |multiset(b)| == |b|;
    if |a| > 0 {
      assert a[0] == b[0] by {
        SortedHeadLeast(a, b[0]);
        SortedHeadLeast(b, a[0]);
      }
      assert multiset(a[1..]) == multiset(b[1..]) by {
        MultisetTail(a);
        MultisetTail(b);
      }
      assert Sorted(a[1..]) && Sorted(b[1..]) by {
        SortedTail(a);
        SortedTail(b);
      }
      SortedUnique(a[1..], b[1..]);
      assert a == [a[0]] + a[1..] && b == [b[0]] + b[1..];
    }
  }

  /** The first element of a sorted sequence is its least. */
  lemma SortedHeadLeast(a: seq<int>, x: int)
    requires Sorted(a) && x in multiset(a)
    ensures a[0] <= x
  {
    var i :| 0 <= i < |a| && a[i] == x;
    assert i == 0 || a[0] <= a[i];
  }

  lemma MultisetTail(a: seq<int>)
    requires |a| > 0
    ensures multiset(a[1..]) == multiset(a) - multiset{a[0]}
  {
    assert a == [a[0]] + a[1..];
    assert multiset(a) == multiset{a[0]} + multiset(a[1..]);
  }

  lemma SortedTail(a: seq<int>)
    requires Sorted(a) && |a| > 0
    ensures Sorted(a[1..])
  {
    forall i, j | 0 <= i < j < |a| - 1 ensures a[1..][i] <= a[1..][j] {
      assert a[1..][i] == a[i + 1] && a[1..][j] == a[j + 1];
    }
  }

  /** Sorting depends only on the elements, not on their order. */
  lemma {:induction false} SortPermutation(a: seq<int>, b: seq<int>)
    requires multiset(a) == multiset(b)
    ensures Sort(a) == Sort(b)
  {
    SortSorted(a);
    SortSorted(b);
    SortedUnique(Sort(a), Sort(b));
  }

  // ---------------------------------------------------------------------------
  // Part 1

  /** Sum of |left[i] - right[i]| over the common length (`zip` stops at the
      shorter sequence). */
  function PairDistance(left: seq<int>, right: seq<int>): (d: nat)
    ensures |left| == 0 || |right| == 0 ==> d == 0
  {
    if |left| == 0 || |right| == 0 then 0
    else Abs(left[0] - right[0]) + PairDistance(left[1..], right[1..])
  }

  /** The part-1 answer for already-read columns. */
  function TotalDistance(left: seq<int>, right: seq<int>): nat
  {
    PairDistance(Sort(left), Sort(right))
  }

  lemma {:induction false} PairDistanceSymmetric(a: seq<int>, b: seq<int>)
    ensures PairDistance(a, b) == PairDistance(b, a)
    decreases |a|
  {
    if |a| > 0 && |b| > 0 {
      PairDistanceSymmetric(a[1..], b[1..]);
    }
  }

  /** Part 1 does not depend on the order of either column, nor on which
      column is which. */
  lemma TotalDistanceInvariant(a: seq<int>, b: seq<int>, a': seq<int>, b': seq<int>)
    requires multiset(a) == multiset(a') && multiset(b) == multiset(b')
    ensures TotalDistance(a, b) == TotalDistance(a', b')
    ensures TotalDistance(a, b) == TotalDistance(b, a)
  {
    SortPermutation(a, a');
    SortPermutation(b, b');
    PairDistanceSymmetric(Sort(a), Sort(b));
  }

  lemma PairDistanceStep(a: seq<int>, b: seq<int>, i: nat)
    requires i < |a| && i < |b|
    ensures PairDistance(a[i..], b[i..]) == Abs(a[i] - b[i]) + PairDistance(a[i + 1..], b[i + 1..])
  {
    assert a[i..][1..] == a[i + 1..];
    assert b[i..][1..] == b[i + 1..];
  }

  /** Lines 17-20: the sum over the zipped sorted columns. */
  method SumDistances(a: seq<int>, b: seq<int>) returns (sum: nat)
    ensures sum == PairDistance(a, b)
  {
    sum := 0;
    var i := 0;
    while i < |a| && i < |b|
      invariant 0 <= i <= |a| && i <= |b|
      invariant sum + PairDistance(a[i..], b[i..]) == PairDistance(a, b)
    {
      PairDistanceStep(a, b, i);
      sum := sum + Abs(a[i] - b[i]);
      i := i + 1;
    }
  }

  /** Lines 3-21: None where the source panics on a malformed line. */
  method Part1(input: string) returns (r: Option<int>)
    ensures r.Some? <==> Columns(Split(input, '\n'), I32_LIMIT).Some?
    ensures r.Some? ==>
      var (left, right) := Columns(Split(input, '\n'), I32_LIMIT).value;
      r.value == TotalDistance(left, right)
  {
    var columns := ReadColumns(input, I32_LIMIT);
    if columns.None? {
      return None;
    }
    var (left, right) := columns.value;
    var sortedLeft := Sort(left);
    var sortedRight := Sort(right);
    var sum := SumDistances(sortedLeft, sortedRight);
    r := Some(sum);
  }

  // ---------------------------------------------------------------------------
  // Part 2

  /** Sum over the left ids `n` of n times the number of occurrences of n in
      `right`. */
  function Similarity(left: seq<int>, right: seq<int>): int
  {
    if |left| == 0 then 0
    else Similarity(left[..|left| - 1], right) + left[|left| - 1] * Count(right, left[|left| - 1])
  }

  /** Lines 34-41: the counts are gathered in a map first, then looked up. */
  method SimilarityScore(left: seq<int>, right: seq<int>) returns (score: int)
    ensures score == Similarity(left, right)
  {
    var counts: map<int, nat> := map[];
    var i := 0;
    while i < |right|
      invariant 0 <= i <= |right|
      invariant forall n :: (if n in counts then counts[n] else 0) == Count(right[..i], n)
    {
      var n := right[i];
      counts := counts[n := (if n in counts then counts[n] else 0) + 1];
      forall m ensures (if m in counts then counts[m] else 0) == Count(right[..i + 1], m) {
        CountSnoc(right[..i], n, m);
        assert right[..i + 1] == right[..i] + [n];
      }
      i := i + 1;
    }
    assert right[..i] == right;
    score := 0;
    var j := 0;
    while j < |left|
      invariant 0 <= j <= |left|
      invariant score == Similarity(left[..j], right)
    {
      assert left[..j + 1][..j] == left[..j];
      score := score + left[j] * (if left[j] in counts then counts[left[j]] else 0);
      j := j + 1;
    }
    assert left[..j] == left;
  }

  lemma {:induction false} CountSnoc(s: seq<int>, x: int, y: int)
    ensures Count(s + [x], y) == Count(s, y) + (if x == y then 1 else 0)
  {
    assert multiset(s + [x]) == multiset(s) + multiset{x};
  }

  /** Lines 23-42. */
  method Part2(input: string) returns (r: Option<int>)
    ensures r.Some? <==> Columns(Split(input, '\n'), I64_LIMIT).Some?
    ensures r.Some? ==>
      var (left, right) := Columns(Split(input, '\n'), I64_LIMIT).value;
      r.value == Similarity(left, right)
  {
    var columns := ReadColumns(input, I64_LIMIT);
    if columns.None? {
      return None;
    }
    var score := SimilarityScore(columns.value.0, columns.value.1);
    r := Some(score);
  }
}
