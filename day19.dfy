/** Day 19: towel designs. A design (a string of stripe colours) can be made
    by laying towels (strings) end to end; the puzzle counts the designs that
    can be made and the number of ways to make them. */
module Day19 {
  import opened Common

  // ---------------------------------------------------------------------------
  // Rust's ordering of strings: lexicographic by character

  predicate StrLess(a: string, b: string)
    decreases |a|
  {
    if |a| == 0 then |b| > 0
    else if |b| == 0 then false
    else if a[0] != b[0] then a[0] < b[0]
    else StrLess(a[1..], b[1..])
  }

  predicate StrLe(a: string, b: string)
  {
    a == b || StrLess(a, b)
  }

  lemma {:induction false} StrLessIrreflexive(a: string)
    ensures !StrLess(a, a)
    decreases |a|
  {
    if |a| > 0 {
      StrLessIrreflexive(a[1..]);
    }
  }

  lemma {:induction false} StrLessTotal(a: string, b: string)
    ensures StrLess(a, b) || a == b || StrLess(b, a)
    decreases |a|
  {
    if |a| > 0 && |b| > 0 && a[0] == b[0] {
      StrLessTotal(a[1..], b[1..]);
      if a[1..] == b[1..] {
        assert a == [a[0]] + a[1..] && b == [b[0]] + b[1..];
      }
    }
  }

  lemma {:induction false} StrLessTransitive(a: string, b: string, c: string)
    requires StrLess(a, b) && StrLess(b, c)
    ensures StrLess(a, c)
    decreases |a|
  {
    if |a| > 0 && a[0] == b[0] && b[0] == c[0] {
      StrLessTransitive(a[1..], b[1..], c[1..]);
    }
  }

  lemma StrLeTransitive(a: string, b: string, c: string)
    requires StrLe(a, b) && StrLe(b, c)
    ensures StrLe(a, c)
  {
    if a != b && b != c {
      StrLessTransitive(a, b, c);
    }
  }

  /** A prefix is never greater than the whole string. */
  lemma {:induction false} PrefixLe(t: string, d: string)
    requires t <= d
    ensures StrLe(t, d)
    decreases |t|
  {
    if |t| > 0 && t != d {
      PrefixLe(t[1..], d[1..]);
    }
  }

  /** A non-empty prefix of `d` is at least `d[..1]`. */
  lemma {:induction false} FirstLetterLe(t: string, d: string)
    requires |t| > 0 && t <= d
    ensures !StrLess(t, d[..1])
  {
    assert t[0] == d[0];
    if |t| > 1 {
      assert !StrLess(t[1..], d[..1][1..]);
    } else {
      assert t == d[..1];
      StrLessIrreflexive(t);
    }
  }

  // ---------------------------------------------------------------------------
  // Sorting the towels (line 8), here an insertion sort

  predicate Sorted(s: seq<string>)
  {
    forall i, j :: 0 <= i < j < |s| ==> StrLe(s[i], s[j])
  }

  function Insert(x: string, s: seq<string>): (r: seq<string>)
    ensures |r| == |s| + 1
  {
    if |s| == 0 then [x]
    else if StrLe(x, s[0]) then [x] + s
    else [s[0]] + Insert(x, s[1..])
  }

  function Sort(s: seq<string>): (r: seq<string>)
    ensures |r| == |s|
  {
    if |s| == 0 then [] else Insert(s[0], Sort(s[1..]))
  }

  lemma SortedCons(x: string, s: seq<string>)
    requires Sorted(s) && (|s| == 0 || StrLe(x, s[0]))
    ensures Sorted([x] + s)
  {
    forall j | 0 < j < |s|
      ensures StrLe(x, s[j])
    {
      StrLeTransitive(x, s[0], s[j]);
    }
  }

  lemma {:induction false} InsertSorted(x: string, s: seq<string>)
    requires Sorted(s)
    ensures Sorted(Insert(x, s)) && multiset(Insert(x, s)) == multiset(s) + multiset{x}
    ensures Insert(x, s)[0] == x || (|s| > 0 && Insert(x, s)[0] == s[0])
  {
    if |s| > 0 {
      assert s == [s[0]] + s[1..];
      if StrLe(x, s[0]) {
        SortedCons(x, s);
      } else {
        StrLessTotal(x, s[0]);
        InsertSorted(x, s[1..]);
        SortedCons(s[0], Insert(x, s[1..]));
      }
    }
  }

  /** `Sort` returns a sorted permutation of the towels. */
  lemma {:induction false} SortSorted(s: seq<string>)
    ensures Sorted(Sort(s)) && multiset(Sort(s)) == multiset(s)
  {
    if |s| > 0 {
      assert s == [s[0]] + s[1..];
      SortSorted(s[1..]);
      InsertSorted(s[0], Sort(s[1..]));
    }
  }

  // ---------------------------------------------------------------------------
  // The number of ways to make a design

  /** Ways to make `d` from `towels`, each towel usable any number of times:
      1 for the empty design, else the sum over towels that start `d`. */
  function Ways(towels: seq<string>, d: string): nat
    decreases |d|, 1
  {
    if d == [] then 1 else WaysOver(towels, towels, d)
  }

  /** The sum, over the towels of `ts` that are non-empty prefixes of `d`, of
      the ways to make the rest of `d`. */
  function WaysOver(towels: seq<string>, ts: seq<string>, d: string): nat
    decreases |d|, 0, |ts|
  {
    if |ts| == 0 then 0
    else
      var t := ts[0];
      (if |t| > 0 && t <= d then Ways(towels, d[|t|..]) else 0) + WaysOver(towels, ts[1..], d)
  }

  lemma {:induction false} WaysOverAppend(towels: seq<string>, a: seq<string>, b: seq<string>, d: string)
    ensures WaysOver(towels, a + b, d) == WaysOver(towels, a, d) + WaysOver(towels, b, d)
    decreases |a|
  {
    if |a| > 0 {
      assert (a + b)[0] == a[0];
      assert (a + b)[1..] == a[1..] + b;
      WaysOverAppend(towels, a[1..], b, d);
    } else {
      assert a + b == b;
    }
  }

  /** Towels that are no prefix of `d` add nothing. */
  lemma {:induction false} WaysOverNone(towels: seq<string>, ts: seq<string>, d: string)
    requires forall i :: 0 <= i < |ts| ==> !(|ts[i]| > 0 && ts[i] <= d)
    ensures WaysOver(towels, ts, d) == 0
    decreases |ts|
  {
    if |ts| > 0 {
      WaysOverNone(towels, ts[1..], d);
    }
  }

  /** Rust's `partition_point`: the index of the first element for which the
      predicate fails (for a list partitioned by it, the number of elements
      for which it holds). */
  function PartitionPoint(ts: seq<string>, p: string -> bool): (k: nat)
    ensures k <= |ts|
    ensures forall i :: 0 <= i < k ==> p(ts[i])
    ensures k < |ts| ==> !p(ts[k])
  {
    if |ts| == 0 || !p(ts[0]) then 0 else 1 + PartitionPoint(ts[1..], p)
  }

  /** Line 48: the towels up to `d`. */
  function End(towels: seq<string>, d: string): nat
  {
    PartitionPoint(towels, t => StrLe(t, d))
  }

  /** Line 49: among those, the towels below `d[..1]`. */
  function Begin(towels: seq<string>, d: string): nat
    requires |d| > 0
  {
    PartitionPoint(towels[..End(towels, d)], t => StrLess(t, d[..1]))
  }

  /** Past the window no towel starts `d`. */
  lemma AfterWindow(towels: seq<string>, d: string)
    requires Sorted(towels)
    ensures forall i :: End(towels, d) <= i < |towels| ==> !(|towels[i]| > 0 && towels[i] <= d)
  {
    var end := End(towels, d);
    forall i | end <= i < |towels|
      ensures !(|towels[i]| > 0 && towels[i] <= d)
    {
      if towels[i] <= d {
        PrefixLe(towels[i], d);
        if i > end {
          StrLeTransitive(towels[end], towels[i], d);
        }
      }
    }
  }

  /** Before the window no non-empty towel starts `d`. */
  lemma BeforeWindow(towels: seq<string>, d: string)
    requires |d| > 0
    ensures forall i :: 0 <= i < Begin(towels, d) ==> !(|towels[i]| > 0 && towels[i] <= d)
  {
    var begin := Begin(towels, d);
    var prefix := towels[..End(towels, d)];
    forall i | 0 <= i < begin
      ensures !(|towels[i]| > 0 && towels[i] <= d)
    {
      assert towels[i] == prefix[i];
      if |towels[i]| > 0 && towels[i] <= d {
        FirstLetterLe(towels[i], d);
      }
    }
  }

  /** With the towels sorted, every non-empty towel that starts `d` lies in
      the window, so summing over the window loses nothing. */
  lemma {:induction false} WindowComplete(towels: seq<string>, d: string)
    requires Sorted(towels) && |d| > 0
    ensures Begin(towels, d) <= End(towels, d) <= |towels|
    ensures WaysOver(towels, towels[Begin(towels, d)..End(towels, d)], d) == WaysOver(towels, towels, d)
  {
    var begin, end := Begin(towels, d), End(towels, d);
    var before, window, after := towels[..begin], towels[begin..end], towels[end..];
    assert WaysOver(towels, after, d) == 0 by {
      AfterWindow(towels, d);
      WaysOverNone(towels, after, d);
    }
    assert WaysOver(towels, before, d) == 0 by {
      BeforeWindow(towels, d);
      WaysOverNone(towels, before, d);
    }
    SplitThree(towels, begin, end);
    WaysOverAppend(towels, before + window, after, d);
    WaysOverAppend(towels, before, window, d);
  }

  lemma SplitThree<T>(s: seq<T>, i: nat, j: nat)
    requires i <= j <= |s|
    ensures s[..i] + s[i..j] + s[j..] == s
  {
  }

  /** A towel in the window is not empty: it is not below `d[..1]`. */
  lemma WindowNonEmpty(towels: seq<string>, d: string, i: int)
    requires Sorted(towels) && |d| > 0
    requires Begin(towels, d) <= i < End(towels, d)
    ensures |towels[i]| > 0
  {
    var begin, end := Begin(towels, d), End(towels, d);
    var prefix := towels[..end];
    assert !StrLess(prefix[begin], d[..1]);
    assert prefix[begin] == towels[begin];
  }

  // ---------------------------------------------------------------------------
  // `make_design` with its memo table

  class Memo {
    var entries: map<string, nat>

    ghost predicate Valid(towels: seq<string>)
      reads this
    {
      forall k :: k in entries ==> entries[k] == Ways(towels, k)
    }

    constructor()
      ensures entries == map[]
    {
      entries := map[];
    }

    /** `make_design` (lines 39-62): a cached answer if there is one, 1 for
        the empty design, else the sum over the towels in the window that
        start the design of the ways to make its rest. The answer is cached. */
    method MakeDesign(design: string, towels: seq<string>) returns (count: nat)
      requires Sorted(towels) && Valid(towels)
      modifies this
      ensures Valid(towels) && count == Ways(towels, design)
      ensures design in entries && old(entries).Keys <= entries.Keys
      decreases |design|
    {
      if design in entries {
        return entries[design];
      } else if design == [] {
        entries := entries[design := 1];
        return 1;
      }
      var end := PartitionPoint(towels, t => StrLe(t, design));
      var begin := PartitionPoint(towels[..end], t => StrLess(t, design[..1]));
      WindowComplete(towels, design);
      var found := 0;
      for i := begin to end
        invariant Valid(towels) && old(entries).Keys <= entries.Keys
        invariant found + WaysOver(towels, towels[i..end], design) == WaysOver(towels, towels[begin..end], design)
      {
        var towel := towels[i];
        assert towels[i..end][1..] == towels[i + 1..end];
        WindowNonEmpty(towels, design, i);
        if towel <= design {
          var rest := design[|towel|..];
          var tail := MakeDesign(rest, towels);
          found := found + tail;
        }
      }
      entries := entries[design := found];
      return found;
    }
  }

  // ---------------------------------------------------------------------------
  // The puzzle (lines 4-37)

  /** The designs that can be made, and the ways to make them all. */
  function Tally(towels: seq<string>, designs: seq<string>): (r: (nat, nat))
    ensures r.0 <= |designs|
  {
    if |designs| == 0 then (0, 0)
    else
      var (valid, total) := Tally(towels, designs[..|designs| - 1]);
      var n := Ways(towels, designs[|designs| - 1]);
      if n != 0 then (valid + 1, total + n) else (valid, total)
  }

  /** A design counts as valid exactly when it adds to the total. */
  lemma {:induction false} TallyValidBelowTotal(towels: seq<string>, designs: seq<string>)
    ensures Tally(towels, designs).0 <= Tally(towels, designs).1
    ensures Tally(towels, designs).1 == 0 ==> Tally(towels, designs).0 == 0
  {
    if |designs| > 0 {
      TallyValidBelowTotal(towels, designs[..|designs| - 1]);
    }
  }

  /** `day19` after parsing: towels sorted, one memo table for all designs. */
  method Day19(towelsOwned: seq<string>, designs: seq<string>) returns (valid: nat, total: nat)
    ensures (valid, total) == Tally(Sort(towelsOwned), designs)
  {
    var towels := Sort(towelsOwned);
    SortSorted(towelsOwned);
    var memo := new Memo();
    valid, total := 0, 0;
    for i := 0 to |designs|
      invariant memo.Valid(towels)
      invariant (valid, total) == Tally(towels, designs[..i])
    {
      var count := memo.MakeDesign(designs[i], towels);
      assert designs[..i + 1][..i] == designs[..i];
      if count != 0 {
        total := total + count;
        valid := valid + 1;
      }
    }
    assert designs[..|designs|] == designs;
  }

  /** The tally depends only on which towels there are, so sorting them does
      not change it. */
  lemma {:induction false} WaysPermutation(a: seq<string>, b: seq<string>, d: string)
    requires multiset(a) == multiset(b)
    ensures Ways(a, d) == Ways(b, d)
    decreases |d|, 1
  {
    if d != [] {
      WaysOverPermutation(a, b, a, b, d);
    }
  }

  lemma {:induction false} WaysOverPermutation(a: seq<string>, b: seq<string>, ts: seq<string>, us: seq<string>, d: string)
    requires multiset(a) == multiset(b) && multiset(ts) == multiset(us)
    ensures WaysOver(a, ts, d) == WaysOver(b, us, d)
    decreases |d|, 0, |ts|
  {
    if |ts| > 0 {
      var t := ts[0];
      assert t in multiset(us);
      var k :| 0 <= k < |us| && us[k] == t;
      var rest := us[..k] + us[k + 1..];
      RemoveMatching(ts, us, k);
      WaysOverPermutation(a, b, ts[1..], rest, d);
      if |t| > 0 && t <= d {
        WaysPermutation(a, b, d[|t|..]);
      }
      WaysOverRemove(b, us, k, d);
    } else {
      assert |us| == 0;
    }
  }

  /** Taking the first element of `ts` and a copy of it in `us` keeps the
      two equal as multisets. */
  lemma RemoveMatching<T>(ts: seq<T>, us: seq<T>, k: nat)
    requires multiset(ts) == multiset(us) && |ts| > 0 && k < |us| && us[k] == ts[0]
    ensures multiset(ts[1..]) == multiset(us[..k] + us[k + 1..])
  {
    var t := ts[0];
    var rest := us[..k] + us[k + 1..];
    assert us == us[..k] + ([t] + us[k + 1..]);
    assert ts == [t] + ts[1..];
    assert multiset(us) == multiset(us[..k]) + multiset{t} + multiset(us[k + 1..]);
    assert multiset(ts) == multiset{t} + multiset(ts[1..]);
    assert multiset(rest) == multiset(us[..k]) + multiset(us[k + 1..]);
    forall v
      ensures multiset(ts[1..])[v] == multiset(rest)[v]
    {
      assert multiset(ts)[v] == multiset(us)[v];
    }
  }

  /** The towel at `k` contributes its own term to the sum. */
  lemma {:induction false} WaysOverRemove(towels: seq<string>, us: seq<string>, k: nat, d: string)
    requires k < |us|
    ensures WaysOver(towels, us, d) ==
      (if |us[k]| > 0 && us[k] <= d then Ways(towels, d[|us[k]|..]) else 0) +
      WaysOver(towels, us[..k] + us[k + 1..], d)
  {
    var t := us[k];
    assert us == us[..k] + ([t] + us[k + 1..]);
    assert [t][1..] == [];
    WaysOverAppend(towels, us[..k], [t] + us[k + 1..], d);
    WaysOverAppend(towels, [t], us[k + 1..], d);
    WaysOverAppend(towels, us[..k], us[k + 1..], d);
  }

  // ---------------------------------------------------------------------------
  // Parsing (lines 26-37)

  /** Rust's `split(pat)` with a non-empty pattern. */
  function SplitOn(s: string, pat: string): (r: seq<string>)
    requires |pat| > 0
    ensures |r| >= 1
    decreases |s|
  {
    match SplitOnce(s, pat)
    case None => [s]
    case Some((before, after)) => [before] + SplitOn(after, pat)
  }

  /** The towels on the first line of the trimmed input, the designs on every
      line after the second; None where the source unwraps a missing line. */
  function ParseInput(input: string): (r: Option<(seq<string>, seq<string>)>)
    ensures r.None? <==> |Lines(Trim(input))| == 0
  {
    var lines := Lines(Trim(input));
    if |lines| == 0 then None
    else Some((SplitOn(lines[0], ", "), if |lines| >= 2 then lines[2..] else []))
  }

  // ---------------------------------------------------------------------------
  // The test at lines 68-89

  const TEST_TOWELS: seq<string> := ["b", "br", "bwu", "g", "gb", "r", "rb", "wr"]

  lemma TestTowelsSorted()
    ensures Sorted(TEST_TOWELS)
  {
  }

  /** When only `ts[k]` can start `d`, the sum is that towel's share. */
  lemma {:induction false} OnlyMatch(towels: seq<string>, ts: seq<string>, k: nat, d: string)
    requires k < |ts|
    requires forall i :: 0 <= i < |ts| && i != k ==> !(|ts[i]| > 0 && ts[i] <= d)
    ensures WaysOver(towels, ts, d) == if |ts[k]| > 0 && ts[k] <= d then Ways(towels, d[|ts[k]|..]) else 0
  {
    assert ts == ts[..k] + ([ts[k]] + ts[k + 1..]);
    WaysOverAppend(towels, ts[..k], [ts[k]] + ts[k + 1..], d);
    WaysOverAppend(towels, [ts[k]], ts[k + 1..], d);
    WaysOverNone(towels, ts[..k], d);
    WaysOverNone(towels, ts[k + 1..], d);
    assert [ts[k]][1..] == [];
  }

  /** A towel that differs from the design at some position does not start it. */
  lemma Mismatch(t: string, d: string, j: nat)
    requires j < |t| && j < |d| && t[j] != d[j]
    ensures !(t <= d)
  {
  }

  /** Of the example towels only "r" starts with 'r', and only "wr" with 'w'. */
  lemma OnlyFirstLetter(towels: seq<string>, k: nat, d: string)
    requires towels == TEST_TOWELS && |d| > 0
    requires (k == 5 && d[0] == 'r' && (|d| == 1 || d[1] != 'b')) || (k == 7 && |d| >= 2 && d[..2] == "wr")
    ensures forall i :: 0 <= i < |towels| && i != k ==> !(|towels[i]| > 0 && towels[i] <= d)
  {
    forall i | 0 <= i < |towels| && i != k
      ensures !(|towels[i]| > 0 && towels[i] <= d)
    {
      if i == 6 && k == 5 {
        if |d| > 1 { Mismatch(towels[i], d, 1); }
      } else if i == 5 || i == 6 {
        Mismatch(towels[i], d, 0);
      } else if i == 7 {
        Mismatch(towels[i], d, 0);
      } else {
        assert towels[i][0] in "bg";
        Mismatch(towels[i], d, 0);
      }
    }
  }

  lemma {:induction false} ExampleR(towels: seq<string>)
    requires towels == TEST_TOWELS
    ensures Ways(towels, "r") == 1
  {
    OnlyFirstLetter(towels, 5, "r");
    OnlyMatch(towels, towels, 5, "r");
    assert "r"[1..] == [];
  }

  lemma {:induction false} ExampleWrr(towels: seq<string>)
    requires towels == TEST_TOWELS
    ensures Ways(towels, "wrr") == 1
  {
    OnlyFirstLetter(towels, 7, "wrr");
    OnlyMatch(towels, towels, 7, "wrr");
    assert "wrr"[2..] == "r";
    ExampleR(towels);
  }

  lemma {:induction false} ExampleRwrr(towels: seq<string>)
    requires towels == TEST_TOWELS
    ensures Ways(towels, "rwrr") == 1
  {
    OnlyFirstLetter(towels, 5, "rwrr");
    OnlyMatch(towels, towels, 5, "rwrr");
    assert "rwrr"[1..] == "wrr";
    ExampleWrr(towels);
  }

  /** "brwrr" is made as b, r, wr, r or as br, wr, r (lines 71 and 86-89). */
  lemma {:induction false} ExampleBrwrr(towels: seq<string>)
    requires towels == TEST_TOWELS
    ensures Ways(towels, "brwrr") == 2
  {
    var d := "brwrr";
    var rest := towels[1..];
    assert towels == [towels[0]] + rest;
    WaysOverAppend(towels, [towels[0]], rest, d);
    assert [towels[0]][1..] == [];
    forall i | 0 <= i < |rest| && i != 0
      ensures !(|rest[i]| > 0 && rest[i] <= d)
    {
      if i == 1 {
        Mismatch(rest[i], d, 1);
      } else {
        Mismatch(rest[i], d, 0);
      }
    }
    OnlyMatch(towels, rest, 0, d);
    assert d[1..] == "rwrr" && d[2..] == "wrr";
    ExampleRwrr(towels);
    ExampleWrr(towels);
  }

  /** No towel starts with 'u', so "ubwu" cannot be made. */
  lemma {:induction false} ExampleUbwu(towels: seq<string>)
    requires towels == TEST_TOWELS
    ensures Ways(towels, "ubwu") == 0
  {
    forall i | 0 <= i < |towels|
      ensures !(|towels[i]| > 0 && towels[i] <= "ubwu")
    {
      Mismatch(towels[i], "ubwu", 0);
    }
    WaysOverNone(towels, towels, "ubwu");
  }
}
