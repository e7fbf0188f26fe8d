/** Helpers shared by the day modules: an Option type, absolute value and the
    pieces of Rust's `str` API the solvers use to take their input apart
    (`split`, `lines`, `trim`, `split_whitespace`, `split_once`, `parse`). */
module Common {

  datatype Option<+T> = None | Some(value: T)

  function Abs(x: int): (r: nat)
    ensures r == x || r == -x
  {
    if x < 0 then -x else x
  }

  // ---------------------------------------------------------------------------
  // Characters

  /** ASCII whitespace as recognised by `split_ascii_whitespace` and `trim`. */
  predicate IsWhitespace(c: char)
  {
    c == ' ' || c == '\t' || c == '\n' || c == '\r' || c == 12 as char
  }

  predicate IsDigit(c: char)
  {
    '0' <= c <= '9'
  }

  predicate IsLower(c: char)
  {
    'a' <= c <= 'z'
  }

  function DigitValue(c: char): (d: nat)
    requires IsDigit(c)
    ensures d < 10
  {
    c as int - '0' as int
  }

  function DigitChar(d: nat): (c: char)
    requires d < 10
    ensures IsDigit(c) && DigitValue(c) == d
  {
    ('0' as int + d) as char
  }

  // ---------------------------------------------------------------------------
  // Splitting

  /** Rust's `s.split(sep)`: the pieces between separators, always at least one. */
  function Split(s: string, sep: char): (r: seq<string>)
    ensures |r| >= 1
    ensures forall i :: 0 <= i < |r| ==> sep !in r[i]
  {
    if |s| == 0 then [""]
    else
      var rest := Split(s[1..], sep);
      if s[0] == sep then [""] + rest
      else [[s[0]] + rest[0]] + rest[1..]
  }

  /** The inverse of `Split`: the pieces glued back with the separator. */
  function Join(pieces: seq<string>, sep: char): string
    requires |pieces| >= 1
  {
    if |pieces| == 1 then pieces[0] else pieces[0] + [sep] + Join(pieces[1..], sep)
  }

  lemma {:induction false} JoinSplit(s: string, sep: char)
    ensures Join(Split(s, sep), sep) == s
  {
    if |s| > 0 {
      JoinSplit(s[1..], sep);
      var rest := Split(s[1..], sep);
      if s[0] != sep {
        if |rest| == 1 {
        } else {
          assert Join([[s[0]] + rest[0]] + rest[1..], sep)
              == [s[0]] + rest[0] + [sep] + Join(rest[1..], sep);
        }
      }
    }
  }

  lemma {:induction false} SplitNoSep(s: string, sep: char)
    requires sep !in s
    ensures Split(s, sep) == [s]
  {
    if |s| > 0 {
      assert sep !in s[1..] by {
        assert forall c :: c in s[1..] ==> c in s;
      }
      SplitNoSep(s[1..], sep);
      assert [s[0]] + s[1..] == s;
    }
  }

  /** Splitting after a piece without the separator yields that piece first. */
  lemma {:induction false} SplitAfter(a: string, b: string, sep: char)
    requires sep !in a
    ensures Split(a + [sep] + b, sep) == [a] + Split(b, sep)
  {
    if |a| == 0 {
      assert a + [sep] + b == [sep] + b;
      assert ([sep] + b)[1..] == b;
    } else {
      assert sep !in a[1..] by {
        assert forall c :: c in a[1..] ==> c in a;
      }
      var s := a + [sep] + b;
      assert s[0] == a[0] && s[1..] == a[1..] + [sep] + b;
      SplitAfter(a[1..], b, sep);
      var rest := Split(s[1..], sep);
      assert rest[0] == a[1..] && rest[1..] == Split(b, sep);
      assert [a[0]] + a[1..] == a;
    }
  }

  /** `Split` undoes `Join` when no piece holds the separator. */
  lemma {:induction false} SplitJoin(pieces: seq<string>, sep: char)
    requires |pieces| >= 1 && forall i :: 0 <= i < |pieces| ==> sep !in pieces[i]
    ensures Split(Join(pieces, sep), sep) == pieces
    decreases |pieces|
  {
    if |pieces| == 1 {
      SplitNoSep(pieces[0], sep);
    } else {
      SplitJoin(pieces[1..], sep);
      SplitAfter(pieces[0], Join(pieces[1..], sep), sep);
      assert [pieces[0]] + pieces[1..] == pieces;
    }
  }

  /** Rust's `s.lines()`: split at '\n', drop one trailing '\r' per line, and no
      final empty line after a terminating '\n'. */
  function Lines(s: string): (r: seq<string>)
    ensures forall i :: 0 <= i < |r| ==> '\n' !in r[i]
  {
    if s == [] then []
    else
      var parts := Split(s, '\n');
      var kept := if parts[|parts| - 1] == "" then parts[..|parts| - 1] else parts;
      seq(|kept|, i requires 0 <= i < |kept| => StripCR(kept[i]))
  }

  function StripCR(line: string): (r: string)
    ensures '\n' !in line ==> '\n' !in r
    ensures r <= line
  {
    if |line| > 0 && line[|line| - 1] == '\r' then line[..|line| - 1] else line
  }

  function TrimStart(s: string): (r: string)
    ensures |r| <= |s| && r == s[|s| - |r|..]
    ensures r == [] || !IsWhitespace(r[0])
  {
    if |s| > 0 && IsWhitespace(s[0]) then TrimStart(s[1..]) else s
  }

  function TrimEnd(s: string): (r: string)
    ensures |r| <= |s| && r == s[..|r|]
    ensures r == [] || !IsWhitespace(r[|r| - 1])
  {
    if |s| > 0 && IsWhitespace(s[|s| - 1]) then TrimEnd(s[..|s| - 1]) else s
  }

  /** Rust's `s.trim()`. */
  function Trim(s: string): (r: string)
    ensures r == [] || (!IsWhitespace(r[0]) && !IsWhitespace(r[|r| - 1]))
  {
    TrimEnd(TrimStart(s))
  }

  /** Rust's `s.split_ascii_whitespace()`: the maximal runs of non-whitespace. */
  function Words(s: string): seq<string>
    decreases |s|
  {
    var t := TrimStart(s);
    if t == [] then []
    else
      var n := WordLength(t);
      [t[..n]] + Words(t[n..])
  }

  /** Length of the run of non-whitespace at the front of `s`. */
  function WordLength(s: string): (n: nat)
    ensures n <= |s|
    ensures forall i :: 0 <= i < n ==> !IsWhitespace(s[i])
    ensures n == |s| || IsWhitespace(s[n])
  {
    if |s| == 0 || IsWhitespace(s[0]) then 0 else 1 + WordLength(s[1..])
  }

  /** `pat` occurs in `s` starting at index `i`. */
  predicate OccursAt(s: string, pat: string, i: int)
  {
    0 <= i && i + |pat| <= |s| && s[i..i + |pat|] == pat
  }

  lemma OccursAtTail(s: string, pat: string, j: int)
    requires 1 <= j && |s| > 0
    ensures OccursAt(s, pat, j) <==> OccursAt(s[1..], pat, j - 1)
  {
    if j + |pat| <= |s| {
      var a, b := s[j..j + |pat|], s[1..][j - 1..j - 1 + |pat|];
      forall k | 0 <= k < |pat| ensures a[k] == b[k] {
        assert b[k] == s[1..][j - 1 + k];
      }
      assert a == b;
    }
  }

  /** Index of the first occurrence of `pat` in `s`. */
  function Find(s: string, pat: string): (r: Option<nat>)
    ensures r.Some? ==> OccursAt(s, pat, r.value)
    ensures r.Some? ==> forall i :: 0 <= i < r.value ==> !OccursAt(s, pat, i)
    ensures r.None? ==> forall i :: !OccursAt(s, pat, i)
    decreases |s|
  {
    if |s| < |pat| then None
    else if s[..|pat|] == pat then Some(0)
    else
      var r := Find(s[1..], pat);
      forall j | 1 <= j
        ensures OccursAt(s, pat, j) <==> OccursAt(s[1..], pat, j - 1)
      {
        OccursAtTail(s, pat, j);
      }
      match r
      case None => None
      case Some(i) => Some(i + 1)
  }

  /** Rust's `s.split_once(pat)`: the text before and after the first `pat`. */
  function SplitOnce(s: string, pat: string): (r: Option<(string, string)>)
    ensures r.Some? ==> r.value.0 + pat + r.value.1 == s
    ensures r.None? <==> Find(s, pat).None?
  {
    match Find(s, pat)
    case None => None
    case Some(i) =>
      assert s == s[..i] + pat + s[i + |pat|..];
      Some((s[..i], s[i + |pat|..]))
  }

  /** Splitting at a separator that the first part does not contain gives the
      two parts back. */
  lemma SplitOnceAt(a: string, b: string, c: char)
    requires c !in a
    ensures SplitOnce(a + [c] + b, [c]) == Some((a, b))
  {
    var s := a + [c] + b;
    assert s[|a|..|a| + 1] == [c];
    assert OccursAt(s, [c], |a|);
    var i := Find(s, [c]).value;
    forall j | 0 <= j < |a|
      ensures !OccursAt(s, [c], j)
    {
      assert s[j] == a[j] && a[j] in a;
      assert s[j..j + 1] == [s[j]];
    }
    assert s[..|a|] == a && s[|a| + 1..] == b;
  }

  /** Splitting at a pattern whose first character the first part does not
      contain gives the two parts back. */
  lemma SplitOnceFirst(a: string, b: string, pat: string)
    requires |pat| >= 1 && pat[0] !in a
    ensures SplitOnce(a + pat + b, pat) == Some((a, b))
  {
    var s := a + pat + b;
    assert s[|a|..|a| + |pat|] == pat;
    assert OccursAt(s, pat, |a|);
    forall j | 0 <= j < |a|
      ensures !OccursAt(s, pat, j)
    {
      assert s[j] == a[j] && a[j] in a;
      if j + |pat| <= |s| {
        assert s[j..j + |pat|][0] == s[j];
      }
    }
    var i := Find(s, pat).value;
    assert i == |a|;
    assert s[..|a|] == a && s[|a| + |pat|..] == b;
  }

  /** A run without whitespace followed by whitespace is one word long. */
  lemma {:induction false} WordLengthOf(w: string, rest: string)
    requires forall i :: 0 <= i < |w| ==> !IsWhitespace(w[i])
    requires rest == [] || IsWhitespace(rest[0])
    ensures WordLength(w + rest) == |w|
    decreases |w|
  {
    if w != [] {
      assert (w + rest)[1..] == w[1..] + rest;
      WordLengthOf(w[1..], rest);
    } else {
      assert w + rest == rest;
    }
  }

  /** A word, a space and more text split into that word and the words of
      the rest. */
  lemma {:induction false} WordsCons(w: string, rest: string)
    requires w != [] && forall i :: 0 <= i < |w| ==> !IsWhitespace(w[i])
    ensures Words(w + " " + rest) == [w] + Words(rest)
  {
    var s := w + " " + rest;
    assert TrimStart(s) == s;
    WordLengthOf(w, " " + rest);
    assert s == w + (" " + rest);
    assert s[..|w|] == w && s[|w|..] == " " + rest;
    assert TrimStart(" " + rest) == TrimStart(rest) by {
      assert (" " + rest)[1..] == rest;
    }
  }

  /** A last word on its own is one word. */
  lemma {:induction false} WordsOne(w: string)
    requires w != [] && forall i :: 0 <= i < |w| ==> !IsWhitespace(w[i])
    ensures Words(w) == [w]
  {
    assert TrimStart(w) == w;
    WordLengthOf(w, []);
    assert w + [] == w;
    assert w[|w|..] == [];
  }

  /** `w` is a word: not empty, without whitespace. */
  predicate IsWord(w: string)
  {
    w != [] && forall i :: 0 <= i < |w| ==> !IsWhitespace(w[i])
  }

  /** The words `ws` joined by single spaces. */
  function Unwords(ws: seq<string>): string
    requires |ws| >= 1
  {
    if |ws| == 1 then ws[0] else ws[0] + " " + Unwords(ws[1..])
  }

  /** Splitting words joined by spaces gives the words back. */
  lemma {:induction false} WordsUnwords(ws: seq<string>)
    requires |ws| >= 1 && forall i :: 0 <= i < |ws| ==> IsWord(ws[i])
    ensures Words(Unwords(ws)) == ws
  {
    if |ws| == 1 {
      WordsOne(ws[0]);
    } else {
      WordsUnwords(ws[1..]);
      WordsCons(ws[0], Unwords(ws[1..]));
      assert ws == [ws[0]] + ws[1..];
    }
  }

  /** Every entry present, collected in order; `None` if one is missing
      (Rust's `collect::<Option<Vec<_>>>()`). */
  function AllSome<T>(xs: seq<Option<T>>): (r: Option<seq<T>>)
    ensures r.Some? ==> |r.value| == |xs| && forall i :: 0 <= i < |xs| ==> xs[i] == Some(r.value[i])
    ensures r.None? ==> exists i :: 0 <= i < |xs| && xs[i].None?
  {
    if xs == [] then Some([])
    else
      var rest := AllSome(xs[1..]);
      if xs[0].None? then None
      else if rest.None? then
        var i :| 0 <= i < |xs| - 1 && xs[1..][i].None?;
        assert xs[i + 1] == xs[1..][i];
        None
      else
        assert forall i :: 1 <= i < |xs| ==> xs[i] == xs[1..][i - 1];
        Some([xs[0].value] + rest.value)
  }

  // ---------------------------------------------------------------------------
  // Numbers

  predicate AllDigits(s: string)
  {
    forall i :: 0 <= i < |s| ==> IsDigit(s[i])
  }

  /** The value of a string of decimal digits. */
  function DecimalValue(s: string): (n: nat)
    requires AllDigits(s)
  {
    if |s| == 0 then 0 else 10 * DecimalValue(s[..|s| - 1]) + DigitValue(s[|s| - 1])
  }

  /** Rust's `FromStr` for an unsigned integer type whose values lie below
      `limit`: an optional '+', then at least one digit and nothing else. */
  function ParseUnsigned(s: string, limit: nat): (r: Option<nat>)
    ensures r.Some? ==> r.value < limit
  {
    var digits := if |s| > 0 && s[0] == '+' then s[1..] else s;
    if |digits| == 0 || !AllDigits(digits) then None
    else
      var n := DecimalValue(digits);
      if n < limit then Some(n) else None
  }

  /** Rust's `FromStr` for a signed integer type whose values lie in
      `[-limit, limit)`: an optional '+' or '-', then at least one digit. */
  function ParseSigned(s: string, limit: nat): (r: Option<int>)
    requires limit > 0
    ensures r.Some? ==> -(limit as int) <= r.value < limit
  {
    if |s| > 0 && s[0] == '-' then
      var digits := s[1..];
      if |digits| == 0 || !AllDigits(digits) then None
      else
        var n := DecimalValue(digits);
        if n <= limit then Some(-(n as int)) else None
    else
      match ParseUnsigned(s, limit)
      case None => None
      case Some(n) => Some(n as int)
  }

  const U8_LIMIT: nat := 0x100
  const U32_LIMIT: nat := 0x1_0000_0000
  const U64_LIMIT: nat := 0x1_0000_0000_0000_0000
  const I32_LIMIT: nat := 0x8000_0000
  const I64_LIMIT: nat := 0x8000_0000_0000_0000

  /** Decimal digits of `n`, most significant first, as Rust's `to_string`. */
  function ShowNat(n: nat): (s: string)
    ensures |s| >= 1 && AllDigits(s)
    ensures s[0] != '0' || n == 0
  {
    if n < 10 then [DigitChar(n)] else ShowNat(n / 10) + [DigitChar(n % 10)]
  }

  lemma {:induction false} DecimalValueShowNat(n: nat)
    ensures DecimalValue(ShowNat(n)) == n
  {
    if n >= 10 {
      DecimalValueShowNat(n / 10);
      var s := ShowNat(n);
      assert s[..|s| - 1] == ShowNat(n / 10);
    }
  }

  /** Printing a number and parsing it back gives the number. */
  lemma {:induction false} ParseShowNat(n: nat, limit: nat)
    requires n < limit
    ensures ParseUnsigned(ShowNat(n), limit) == Some(n)
  {
    DecimalValueShowNat(n);
  }

  /** `n` copies of `c`, as `std::iter::repeat_n(c, n).collect()`. */
  function Repeat(c: char, n: nat): (s: string)
    ensures |s| == n && forall i :: 0 <= i < n ==> s[i] == c
  {
    if n == 0 then [] else [c] + Repeat(c, n - 1)
  }

  /** Number of occurrences of `x` in `s`. */
  function Count<T(==)>(s: seq<T>, x: T): (n: nat)
    ensures n <= |s|
    ensures n == multiset(s)[x]
  {
    if |s| == 0 then 0
    else
      assert s == [s[0]] + s[1..];
      (if s[0] == x then 1 else 0) + Count(s[1..], x)
  }

  function Sum(s: seq<int>): int
  {
    if |s| == 0 then 0 else Sum(s[..|s| - 1]) + s[|s| - 1]
  }

  lemma {:induction false} SumAppend(a: seq<int>, b: seq<int>)
    ensures Sum(a + b) == Sum(a) + Sum(b)
    decreases |b|
  {
    if |b| > 0 {
      assert (a + b)[..|a + b| - 1] == a + b[..|b| - 1];
      SumAppend(a, b[..|b| - 1]);
    } else {
      assert a + b == a;
    }
  }

  /** The values of the present entries, in order (`filter_map`). */
  function Somes<T>(s: seq<Option<T>>): (r: seq<T>)
    ensures |r| <= |s|
  {
    if |s| == 0 then []
    else Somes(s[..|s| - 1]) + match s[|s| - 1] case Some(x) => [x] case None => []
  }

  lemma {:induction false} SomesHas<T>(s: seq<Option<T>>, x: T)
    ensures x in Somes(s) <==> exists j :: 0 <= j < |s| && s[j] == Some(x)
  {
    if |s| > 0 {
      var init := s[..|s| - 1];
      SomesHas(init, x);
      if x in Somes(init) {
        var j :| 0 <= j < |init| && init[j] == Some(x);
        assert s[j] == Some(x);
      }
      if exists j :: 0 <= j < |s| && s[j] == Some(x) {
        var j :| 0 <= j < |s| && s[j] == Some(x);
        if j < |init| {
          assert init[j] == Some(x);
        }
      }
    }
  }

  /** A prefix that stops one short of `s[n]` grows by exactly that element. */
  lemma PrefixSnoc<T>(s: seq<T>, prefix: seq<T>, x: T)
    requires |prefix| < |s| && s[..|prefix|] == prefix && s[|prefix|] == x
    ensures s[..|prefix| + 1] == prefix + [x]
  {
    assert s[..|prefix| + 1] == s[..|prefix|] + [s[|prefix|]];
  }

  /** One more entry adds its value, if any. */
  lemma SomesPrefix<T>(s: seq<Option<T>>, k: nat)
    requires k < |s|
    ensures Somes(s[..k + 1]) == Somes(s[..k]) + match s[k] case Some(x) => [x] case None => []
  {
    assert s[..k + 1][..k] == s[..k];
  }

  /** The rows one after another (`flat_map`). */
  function Flatten<T>(rows: seq<seq<T>>): seq<T>
  {
    if |rows| == 0 then [] else Flatten(rows[..|rows| - 1]) + rows[|rows| - 1]
  }

  /** One more row adds its entries. */
  lemma FlattenPrefix<T>(rows: seq<seq<T>>, k: nat)
    requires k < |rows|
    ensures Flatten(rows[..k + 1]) == Flatten(rows[..k]) + rows[k]
  {
    assert rows[..k + 1][..k] == rows[..k];
  }

  lemma {:induction false} FlattenHas<T>(rows: seq<seq<T>>, x: T)
    ensures x in Flatten(rows) <==> exists i :: 0 <= i < |rows| && x in rows[i]
  {
    if |rows| > 0 {
      var init := rows[..|rows| - 1];
      FlattenHas(init, x);
      if x in Flatten(init) {
        var i :| 0 <= i < |init| && x in init[i];
        assert x in rows[i];
      }
      if exists i :: 0 <= i < |rows| && x in rows[i] {
        var i :| 0 <= i < |rows| && x in rows[i];
        if i < |init| {
          assert x in init[i];
        }
      }
    }
  }

  // ---------------------------------------------------------------------------
  // Integer arithmetic

  /** 2 to the power `k`. */
  function Pow2(k: nat): (p: nat)
    ensures p >= 1
  {
    if k == 0 then 1 else 2 * Pow2(k - 1)
  }

  /** t * b >= b for positive t and b. */
  lemma {:induction false} MulAtLeast(t: int, b: int)
    requires t >= 1 && b > 0
    ensures t * b >= b
    decreases t
  {
    if t > 1 {
      MulAtLeast(t - 1, b);
      assert t * b == (t - 1) * b + b;
    }
  }

  /** The product of two naturals is a natural. */
  lemma MulNat(a: nat, b: nat)
    ensures a * b >= 0
  {
    if a > 0 && b > 0 {
      MulAtLeast(a, b);
    }
  }

  /** Quotient and remainder by a positive divisor are unique. */
  lemma DivModUnique(z: int, m: int, q: int, r: int)
    requires m > 0 && 0 <= r < m && z == q * m + r
    ensures z / m == q && z % m == r
  {
    var d, s := z / m, z % m;
    assert z == d * m + s && 0 <= s < m;
    var t := q - d;
    assert t * m == s - r;
    if t >= 1 {
      MulAtLeast(t, m);
      assert false;
    } else if t <= -1 {
      MulAtLeast(-t, m);
      assert false;
    }
  }

  /** Adding a multiple of the modulus keeps the remainder. */
  lemma ModShift(x: int, k: int, m: int)
    requires m > 0
    ensures (x + k * m) % m == x % m
  {
    var q, r := x / m, x % m;
    assert x + k * m == (q + k) * m + r;
    DivModUnique(x + k * m, m, q + k, r);
  }

  /** Row-major indices of a `w` by `h` grid lie below `w * h`. */
  lemma GridIndexBound(w: nat, h: nat, x: nat, y: nat)
    requires x < w && y < h
    ensures w * y + x < w * h
  {
    MulAtLeast(h - y, w);
    assert w * h == w * y + (h - y) * w;
  }

  /** A row-major index determines its column and row. */
  lemma GridIndexUnique(w: nat, x: nat, y: nat, x': nat, y': nat)
    requires x < w && x' < w && w * y + x == w * y' + x'
    ensures x == x' && y == y'
  {
    DivModUnique(w * y + x, w, y, x);
    DivModUnique(w * y' + x', w, y', x');
  }

  /** A row-major index below `w * h` names a cell of the grid. */
  lemma GridIndexCell(w: nat, h: nat, i: nat)
    requires i < w * h
    ensures w > 0 && i % w < w && i / w < h && i == w * (i / w) + i % w
  {
    var q, r := i / w, i % w;
    if q >= h {
      MulAtLeast(q - h + 1, w);
      assert false;
    }
  }

  /** The cells of the first `n / w` full rows of a `w`-wide grid of `n`
      entries have row-major indices below `n`. */
  lemma RowsIndexBound(w: nat, n: nat, x: nat, y: nat)
    requires w > 0 && x < w && y < n / w
    ensures w * y + x < n
  {
    GridIndexBound(w, n / w, x, y);
    assert n == (n / w) * w + n % w;
  }

  /** A grid of `w * h` entries has `h` rows. */
  lemma RowsOfProduct(w: nat, h: nat)
    requires w > 0
    ensures (w * h) / w == h
  {
    DivModUnique(w * h, w, h, 0);
  }

  // ---------------------------------------------------------------------------
  // Sequences without repetition

  predicate Distinct<T(==)>(s: seq<T>)
  {
    forall i, j :: 0 <= i < j < |s| ==> s[i] != s[j]
  }

  /** A sequence without repetition has as many elements as entries. */
  lemma {:induction false} DistinctCard<T>(s: seq<T>)
    requires Distinct(s)
    ensures |set x | x in s| == |s|
  {
    if |s| > 0 {
      var init := s[..|s| - 1];
      DistinctCard(init);
      assert (set x | x in s) == (set x | x in init) + {s[|s| - 1]};
      assert s[|s| - 1] !in init;
    }
  }

  /** No entry of `a` is an entry of `b`. */
  ghost predicate Apart<T>(a: seq<T>, b: seq<T>)
  {
    forall x :: x in a ==> x !in b
  }

  /** Two sequences without repetition and without common entries make one. */
  lemma DistinctAppend<T>(a: seq<T>, b: seq<T>)
    requires Distinct(a) && Distinct(b) && Apart(a, b)
    ensures Distinct(a + b)
  {
    forall i, j | 0 <= i < j < |a + b|
      ensures (a + b)[i] != (a + b)[j]
    {
      if i < |a| && j >= |a| {
        assert (a + b)[i] in a && (a + b)[j] == b[j - |a|];
      }
    }
  }

  /** Rows without repetition and pairwise apart flatten to a sequence
      without repetition. */
  lemma {:induction false} FlattenDistinct<T>(rows: seq<seq<T>>)
    requires forall i :: 0 <= i < |rows| ==> Distinct(rows[i])
    requires forall i, j :: 0 <= i < j < |rows| ==> Apart(rows[i], rows[j])
    ensures Distinct(Flatten(rows))
  {
    if |rows| > 0 {
      var init := rows[..|rows| - 1];
      var last := rows[|rows| - 1];
      FlattenDistinct(init);
      forall x | x in Flatten(init)
        ensures x !in last
      {
        FlattenHas(init, x);
        var i :| 0 <= i < |init| && x in init[i];
        assert Apart(rows[i], rows[|rows| - 1]);
      }
      DistinctAppend(Flatten(init), last);
    }
  }

  /** Present entries with pairwise different values give values without
      repetition. */
  lemma {:induction false} SomesDistinct<T>(s: seq<Option<T>>)
    requires forall i, j :: 0 <= i < j < |s| && s[i].Some? && s[j].Some? ==> s[i] != s[j]
    ensures Distinct(Somes(s))
  {
    if |s| > 0 {
      var init := s[..|s| - 1];
      SomesDistinct(init);
      if s[|s| - 1].Some? {
        var x := s[|s| - 1].value;
        SomesHas(init, x);
        DistinctAppend(Somes(init), [x]);
      }
    }
  }

  /** The row-major index `w * y + x`, by recursion on the row: callers that
      only compare letters never see the multiplication. */
  function CellIndex(w: nat, x: nat, y: nat): nat
  {
    if y == 0 then x else CellIndex(w, x, y - 1) + w
  }

  lemma {:induction false} CellIndexIs(w: nat, x: nat, y: nat)
    ensures CellIndex(w, x, y) == w * y + x
  {
    if y > 0 {
      CellIndexIs(w, x, y - 1);
    }
  }

  // ---------------------------------------------------------------------------
  // Text grids: lines padded with spaces to the longest, row after row

  /** The length of the longest line, or 0 for none. */
  function MaxLen(lines: seq<string>): (m: nat)
    ensures forall i :: 0 <= i < |lines| ==> |lines[i]| <= m
    ensures |lines| > 0 ==> exists i :: 0 <= i < |lines| && |lines[i]| == m
    ensures |lines| == 0 ==> m == 0
  {
    if |lines| == 0 then 0
    else
      var rest := MaxLen(lines[..|lines| - 1]);
      if |lines[|lines| - 1]| > rest then |lines[|lines| - 1]| else rest
  }

  /** The character at column `x` of row `y`: the line's own, or a space
      past the end of a shorter line. */
  function Padded(lines: seq<string>, x: nat, y: nat): char
    requires y < |lines|
  {
    if x < |lines[y]| then lines[y][x] else ' '
  }

  /** The rows padded to width `w`, one after the other. */
  function PaddedRows(lines: seq<string>, w: nat): (m: seq<char>)
    requires forall i :: 0 <= i < |lines| ==> |lines[i]| <= w
    ensures |m| == CellIndex(w, 0, |lines|)
  {
    if |lines| == 0 then []
    else
      var last := lines[|lines| - 1];
      PaddedRows(lines[..|lines| - 1], w) + last + Repeat(' ', w - |last|)
  }

  lemma {:induction false} PaddedRowsCell(lines: seq<string>, w: nat, x: nat, y: nat)
    requires forall i :: 0 <= i < |lines| ==> |lines[i]| <= w
    requires x < w && y < |lines|
    ensures CellIndex(w, x, y) < |PaddedRows(lines, w)|
    ensures PaddedRows(lines, w)[CellIndex(w, x, y)] == Padded(lines, x, y)
  {
    var init := lines[..|lines| - 1];
    if y < |lines| - 1 {
      PaddedRowsCell(init, w, x, y);
      assert Padded(init, x, y) == Padded(lines, x, y);
      CellIndexBelow(w, x, y, |init|);
    } else {
      CellIndexRow(w, x, y);
    }
  }

  /** A cell of row `y` lies before the first cell of any later row. */
  lemma {:induction false} CellIndexBelow(w: nat, x: nat, y: nat, y': nat)
    requires x < w && y < y'
    ensures CellIndex(w, x, y) < CellIndex(w, 0, y')
  {
    CellIndexIs(w, x, y);
    CellIndexIs(w, 0, y');
    assert w * y' == w * y + (y' - y) * w;
    MulAtLeast(y' - y, w);
  }

  /** Column `x` of a row is `x` cells after the row's first. */
  lemma {:induction false} CellIndexRow(w: nat, x: nat, y: nat)
    ensures CellIndex(w, x, y) == CellIndex(w, 0, y) + x
  {
    if y > 0 {
      CellIndexRow(w, x, y - 1);
    }
  }

  // ---------------------------------------------------------------------------
  // Sequence identities, one per lemma, for proofs that cut and join
  // sequences

  /** `s` around its element `i`. */
  lemma SplitAt<T>(s: seq<T>, i: nat)
    requires i < |s|
    ensures s == s[..i] + ([s[i]] + s[i + 1..])
    ensures s[i..] == [s[i]] + s[i + 1..]
  {
  }

  /** `s` is its front, then its last element. */
  lemma SplitLast<T>(s: seq<T>)
    requires |s| > 0
    ensures s == s[..|s| - 1] + [s[|s| - 1]]
  {
  }

  /** Cutting a sequence with one element appended. */
  lemma SnocSlices<T>(s: seq<T>, x: T, k: nat)
    requires k <= |s|
    ensures (s + [x])[k..] == s[k..] + [x]
    ensures (s + [x])[..k] == s[..k]
  {
  }

  /** `s` is its first element, its middle, then its last element. */
  lemma SplitEnds<T>(s: seq<T>)
    requires |s| >= 2
    ensures s == [s[0]] + s[1..|s| - 1] + [s[|s| - 1]]
  {
  }

  /** A sequence's multiset: its front's, then its last element. */
  lemma MultisetSnoc<T>(s: seq<T>)
    requires |s| > 0
    ensures multiset(s) == multiset(s[..|s| - 1]) + multiset{s[|s| - 1]}
  {
    SplitLast(s);
  }

  /** A sequence's multiset: its first element, then the rest's. */
  lemma MultisetCons<T>(s: seq<T>)
    requires |s| > 0
    ensures multiset(s) == multiset{s[0]} + multiset(s[1..])
  {
    assert s == [s[0]] + s[1..];
  }

  /** A sequence's multiset: its two ends and its middle. */
  lemma MultisetEnds<T>(s: seq<T>)
    requires |s| >= 2
    ensures multiset(s) == multiset{s[0]} + multiset(s[1..|s| - 1]) + multiset{s[|s| - 1]}
  {
    SplitEnds(s);
  }

  /** Two equalities of sequences, chained. */
  lemma EqTrans<T>(x: seq<T>, y: seq<T>, z: seq<T>)
    requires x == y && y == z
    ensures x == z
  {
  }

  lemma Assoc<T>(a: seq<T>, b: seq<T>, c: seq<T>)
    ensures a + (b + c) == a + b + c
  {
  }

  lemma AppendNil<T>(a: seq<T>)
    ensures a + [] == a && [] + a == a
  {
  }

  /** A prefix of a prefix. */
  lemma TakeTake<T>(s: seq<T>, i: nat, j: nat)
    requires i <= j <= |s|
    ensures s[..j][..i] == s[..i]
  {
  }
}
