/** Day 23: a LAN party. The input lists links between computers, each
    named by two characters; part 1 counts the triangles of linked computers
    with a member whose name starts with 't', part 2 grows cliques one
    computer at a time until no clique can grow, and prints the one left. */
module Day23 {
  import opened Common

  // ---------------------------------------------------------------------------
  // Computer names

  /** `ComputerName`: the two bytes of the name. */
  datatype Name = Name(hi: char, lo: char)

  /** The position of a name in the derived ordering, which compares the
      first character and then the second. */
  function Key(n: Name): nat
  {
    (n.hi as int) * 0x11_0000 + (n.lo as int)
  }

  predicate Less(a: Name, b: Name)
  {
    Key(a) < Key(b)
  }

  /** The ordering is total: different names have different keys. */
  lemma KeyInjective(a: Name, b: Name)
    requires Key(a) == Key(b)
    ensures a == b
  {
  }

  /** `ComputerName::from_str`: exactly two characters. */
  function ParseName(s: string): (r: Option<Name>)
    ensures r.Some? <==> |s| == 2
  {
    if |s| != 2 then None else Some(Name(s[0], s[1]))
  }

  /** `Display for ComputerName`. */
  function Show(n: Name): (s: string)
    ensures |s| == 2
  {
    [n.hi, n.lo]
  }

  /** Parsing what a name displays gives the name back, and a parsed name
      displays as the text it was parsed from. */
  lemma ParseShow(n: Name, s: string)
    ensures ParseName(Show(n)) == Some(n)
    ensures ParseName(s).Some? ==> Show(ParseName(s).value) == s
  {
  }

  /** `ComputerName::starts_with`: only the first character is compared. */
  function StartsWith(n: Name, c: char): (r: bool)
    ensures r <==> Show(n)[0] == c
  {
    n.hi == c
  }

  // ---------------------------------------------------------------------------
  // Sorted sequences of names

  predicate Sorted(s: seq<Name>)
  {
    forall i, j :: 0 <= i < j < |s| ==> Key(s[i]) <= Key(s[j])
  }

  /** Sorted without repeats. */
  predicate Strict(s: seq<Name>)
  {
    forall i, j :: 0 <= i < j < |s| ==> Key(s[i]) < Key(s[j])
  }

  /** A `push` followed by a `sort` on a sorted vector: `x` goes before the
      first element that is not smaller. */
  function Insert(s: seq<Name>, x: Name): (r: seq<Name>)
    ensures |r| == |s| + 1 && multiset(r) == multiset(s) + multiset{x}
  {
    if s == [] then [x]
    else if Key(x) <= Key(s[0]) then [x] + s
    else
      assert s == [s[0]] + s[1..];
      [s[0]] + Insert(s[1..], x)
  }

  lemma SortedTail(s: seq<Name>)
    requires |s| > 0
    ensures Sorted(s) ==> Sorted(s[1..])
    ensures Strict(s) ==> Strict(s[1..])
  {
    forall i, j | 0 <= i < j < |s| - 1
      ensures s[1..][i] == s[i + 1] && s[1..][j] == s[j + 1]
    {
    }
  }

  /** The first element of a sorted sequence is its least. */
  lemma SortedHeadLeast(s: seq<Name>, x: Name)
    requires Sorted(s) && x in multiset(s)
    ensures Key(s[0]) <= Key(x)
  {
    var i :| 0 <= i < |s| && s[i] == x;
    assert i == 0 || Key(s[0]) <= Key(s[i]);
  }

  /** A name no larger than every element of a sorted sequence can go in
      front of it. */
  lemma SortedCons(x: Name, s: seq<Name>)
    requires Sorted(s) && forall k :: 0 <= k < |s| ==> Key(x) <= Key(s[k])
    ensures Sorted([x] + s)
  {
    forall i, j | 0 <= i < j < |s| + 1
      ensures Key(([x] + s)[i]) <= Key(([x] + s)[j])
    {
      if i > 0 {
        assert ([x] + s)[i] == s[i - 1];
      }
      assert ([x] + s)[j] == s[j - 1];
    }
  }

  lemma StrictCons(x: Name, s: seq<Name>)
    requires Strict(s) && forall k :: 0 <= k < |s| ==> Key(x) < Key(s[k])
    ensures Strict([x] + s)
  {
    forall i, j | 0 <= i < j < |s| + 1
      ensures Key(([x] + s)[i]) < Key(([x] + s)[j])
    {
      if i > 0 {
        assert ([x] + s)[i] == s[i - 1];
      }
      assert ([x] + s)[j] == s[j - 1];
    }
  }

  /** Everything `Insert` returns is `x` or came from `s`. */
  lemma {:induction false} InsertFrom(s: seq<Name>, x: Name, y: Name)
    requires y in Insert(s, x)
    ensures y == x || y in s
  {
    assert y in multiset(Insert(s, x));
  }

  /** Inserting into a sorted sequence keeps it sorted. */
  lemma {:induction false} InsertSorted(s: seq<Name>, x: Name)
    requires Sorted(s)
    ensures Sorted(Insert(s, x))
    decreases |s|
  {
    if s == [] {
    } else if Key(x) <= Key(s[0]) {
      SortedCons(x, s);
    } else {
      var rest := Insert(s[1..], x);
      SortedTail(s);
      InsertSorted(s[1..], x);
      forall k | 0 <= k < |rest|
        ensures Key(s[0]) <= Key(rest[k])
      {
        assert rest[k] in rest;
        InsertFrom(s[1..], x, rest[k]);
        if rest[k] != x {
          var m :| 0 <= m < |s| - 1 && s[1..][m] == rest[k];
          assert s[m + 1] == rest[k];
        }
      }
      SortedCons(s[0], rest);
    }
  }

  /** Inserting a name that is not there into a sequence without repeats
      keeps it without repeats. */
  lemma {:induction false} InsertStrict(s: seq<Name>, x: Name)
    requires Strict(s) && x !in s
    ensures Strict(Insert(s, x))
    decreases |s|
  {
    if s == [] {
    } else if Key(x) <= Key(s[0]) {
      if Key(x) == Key(s[0]) {
        KeyInjective(x, s[0]);
      }
      StrictCons(x, s);
    } else {
      var rest := Insert(s[1..], x);
      SortedTail(s);
      assert x !in s[1..] by {
        forall k | 0 <= k < |s| - 1
          ensures s[1..][k] != x
        {
          assert s[1..][k] == s[k + 1];
        }
      }
      InsertStrict(s[1..], x);
      forall k | 0 <= k < |rest|
        ensures Key(s[0]) < Key(rest[k])
      {
        assert rest[k] in rest;
        InsertFrom(s[1..], x, rest[k]);
        if rest[k] != x {
          var m :| 0 <= m < |s| - 1 && s[1..][m] == rest[k];
          assert s[m + 1] == rest[k];
        }
      }
      StrictCons(s[0], rest);
    }
  }

  lemma MultisetTail(s: seq<Name>)
    requires |s| > 0
    ensures multiset(s[1..]) == multiset(s) - multiset{s[0]}
  {
    assert s == [s[0]] + s[1..];
  }

  /** Two sorted sequences with the same elements start alike, and what
      follows holds the same elements, sorted. */
  lemma SameHead(a: seq<Name>, b: seq<Name>)
    requires Sorted(a) && Sorted(b) && multiset(a) == multiset(b) && |a| > 0
    ensures |b| > 0 && a[0] == b[0]
    ensures Sorted(a[1..]) && Sorted(b[1..]) && multiset(a[1..]) == multiset(b[1..])
  {
    assert a[0] in multiset(a);
    assert |b| > 0;
    assert b[0] in multiset(b);
    SortedHeadLeast(a, b[0]);
    SortedHeadLeast(b, a[0]);
    KeyInjective(a[0], b[0]);
    MultisetTail(a);
    MultisetTail(b);
    SortedTail(a);
    SortedTail(b);
  }

  lemma ConsEqual(a: seq<Name>, b: seq<Name>)
    requires |a| > 0 && |b| > 0 && a[0] == b[0] && a[1..] == b[1..]
    ensures a == b
  {
    assert a == [a[0]] + a[1..] && b == [b[0]] + b[1..];
  }

  /** Two sorted sequences with the same elements are equal: the result of
      a sort depends only on what is sorted. */
  lemma {:induction false} SortedUnique(a: seq<Name>, b: seq<Name>)
    requires Sorted(a) && Sorted(b) && multiset(a) == multiset(b)
    ensures a == b
    decreases |a|
  {
    if |a| > 0 {
      SameHead(a, b);
      SortedUnique(a[1..], b[1..]);
      ConsEqual(a, b);
    } else {
      assert |multiset(b)| == 0;
    }
  }

  // ---------------------------------------------------------------------------
  // sorted_superset

  /** What `sorted_superset(greater, lesser)` answers: walk `greater` once,
      matching each element of `lesser` in turn, skipping smaller elements
      and failing at a larger one or at the end. */
  function Superset(greater: seq<Name>, lesser: seq<Name>): bool
    decreases |greater|
  {
    if lesser == [] then true
    else if greater == [] then false
    else if greater[0] == lesser[0] then Superset(greater[1..], lesser[1..])
    else if Less(greater[0], lesser[0]) then Superset(greater[1..], lesser)
    else false
  }

  /** `sorted_superset`, with its two nested loops sharing one iterator. */
  method SortedSuperset(greater: seq<Name>, lesser: seq<Name>) returns (r: bool)
    ensures r == Superset(greater, lesser)
  {
    var j := 0;
    var i := 0;
    while i < |lesser|
      invariant 0 <= i <= |lesser| && 0 <= j <= |greater|
      invariant Superset(greater[j..], lesser[i..]) == Superset(greater, lesser)
    {
      var item := lesser[i];
      var matched := false;
      while !matched
        invariant 0 <= j <= |greater|
        invariant matched ==> Superset(greater[j..], lesser[i + 1..]) == Superset(greater, lesser)
        invariant !matched ==> Superset(greater[j..], lesser[i..]) == Superset(greater, lesser)
        decreases |greater| - j, if matched then 0 else 1
      {
        if j == |greater| {
          return false;
        }
        var other := greater[j];
        assert greater[j..][1..] == greater[j + 1..];
        assert lesser[i..][1..] == lesser[i + 1..];
        j := j + 1;
        if other == item {
          matched := true;
        } else if Less(other, item) {
        } else {
          return false;
        }
      }
      i := i + 1;
    }
    r := true;
  }

  /** Adding the same element to both sides keeps multiset inclusion as it was. */
  lemma AddBoth(a: multiset<Name>, b: multiset<Name>, x: Name)
    ensures a <= b <==> a + multiset{x} <= b + multiset{x}
  {
    if a + multiset{x} <= b + multiset{x} {
      forall y
        ensures a[y] <= b[y]
      {
        assert (a + multiset{x})[y] <= (b + multiset{x})[y];
      }
    }
  }

  /** Multisets of a sequence and of its tail. */
  lemma HeadSplit(s: seq<Name>)
    requires |s| > 0
    ensures multiset(s) == multiset(s[1..]) + multiset{s[0]}
  {
    assert s == [s[0]] + s[1..];
  }

  /** A smaller name at the head of `greater` that `lesser` lacks does not
      change inclusion. */
  lemma DropSmaller(greater: seq<Name>, lesser: seq<Name>)
    requires Sorted(lesser) && |greater| > 0 && |lesser| > 0 && Less(greater[0], lesser[0])
    ensures multiset(lesser) <= multiset(greater) <==> multiset(lesser) <= multiset(greater[1..])
  {
    var g := greater[0];
    HeadSplit(greater);
    assert g !in multiset(lesser) by {
      if g in multiset(lesser) {
        SortedHeadLeast(lesser, g);
      }
    }
    if multiset(lesser) <= multiset(greater) {
      forall x
        ensures multiset(lesser)[x] <= multiset(greater[1..])[x]
      {
        if x == g {
          assert multiset(lesser)[x] == 0;
        }
      }
    }
  }

  /** A smaller name at the head of `lesser` cannot be found in `greater`. */
  lemma MissSmaller(greater: seq<Name>, lesser: seq<Name>)
    requires Sorted(greater) && |greater| > 0 && |lesser| > 0 && Less(lesser[0], greater[0])
    ensures !(multiset(lesser) <= multiset(greater))
  {
    var l := lesser[0];
    assert l in multiset(lesser);
    if l in multiset(greater) {
      SortedHeadLeast(greater, l);
    }
  }

  /** For sorted inputs, `sorted_superset` holds exactly when every name
      of `lesser` occurs in `greater` at least as often. */
  lemma {:induction false} SupersetMeaning(greater: seq<Name>, lesser: seq<Name>)
    requires Sorted(greater) && Sorted(lesser)
    ensures Superset(greater, lesser) <==> multiset(lesser) <= multiset(greater)
    decreases |greater|
  {
    if lesser == [] {
    } else if greater == [] {
      assert lesser[0] in multiset(lesser);
    } else {
      var g, l := greater[0], lesser[0];
      SortedTail(greater);
      SortedTail(lesser);
      if g == l {
        SupersetMeaning(greater[1..], lesser[1..]);
        HeadSplit(greater);
        HeadSplit(lesser);
        AddBoth(multiset(lesser[1..]), multiset(greater[1..]), g);
      } else if Less(g, l) {
        SupersetMeaning(greater[1..], lesser);
        DropSmaller(greater, lesser);
      } else {
        if Key(g) == Key(l) {
          KeyInjective(g, l);
        }
        MissSmaller(greater, lesser);
      }
    }
  }

  /** `sorted_superset` never holds for a longer `lesser`. */
  lemma {:induction false} SupersetLength(greater: seq<Name>, lesser: seq<Name>)
    requires Superset(greater, lesser)
    ensures |lesser| <= |greater|
    decreases |greater|
  {
    if lesser != [] {
      if greater[0] == lesser[0] {
        SupersetLength(greater[1..], lesser[1..]);
      } else {
        SupersetLength(greater[1..], lesser);
      }
    }
  }

  /** A sequence without repeats holds each name at most once. */
  lemma {:induction false} StrictOnce(s: seq<Name>, x: Name)
    requires Strict(s)
    ensures multiset(s)[x] <= 1
    decreases |s|
  {
    if s != [] {
      MultisetTail(s);
      SortedTail(s);
      StrictOnce(s[1..], x);
      if s[0] == x {
        assert x !in s[1..] by {
          forall k | 0 <= k < |s| - 1
            ensures s[1..][k] != x
          {
            assert Key(s[0]) < Key(s[k + 1]);
          }
        }
      }
    }
  }

  /** With no repeats in `lesser`, `sorted_superset` holds exactly when every
      name of `lesser` occurs in `greater`. */
  lemma {:induction false} SupersetElements(greater: seq<Name>, lesser: seq<Name>)
    requires Sorted(greater) && Strict(lesser)
    ensures Superset(greater, lesser) <==> forall x :: x in lesser ==> x in greater
  {
    assert Sorted(lesser);
    SupersetMeaning(greater, lesser);
    if forall x :: x in lesser ==> x in greater {
      forall x
        ensures multiset(lesser)[x] <= multiset(greater)[x]
      {
        StrictOnce(lesser, x);
        if x in lesser {
          assert x in multiset(greater);
        }
      }
    }
    if Superset(greater, lesser) {
      forall x | x in lesser
        ensures x in greater
      {
        assert x in multiset(lesser);
      }
    }
  }

  // ---------------------------------------------------------------------------
  // The adjacency lists

  /** The input lists a link between `a` and `b`, one way or the other. */
  ghost predicate Linked(edges: seq<(Name, Name)>, a: Name, b: Name)
  {
    (a, b) in edges || (b, a) in edges
  }

  /** No computer is listed as linked to itself. */
  ghost predicate NoSelfLinks(edges: seq<(Name, Name)>)
  {
    forall i :: 0 <= i < |edges| ==> edges[i].0 != edges[i].1
  }

  /** `vertices.entry(a).or_default()`: the list of `a`, empty if none yet. */
  function Neighbours(v: map<Name, seq<Name>>, a: Name): seq<Name>
  {
    if a in v then v[a] else []
  }

  /** One link entered: each end gets the other pushed onto its list, which
      is then sorted. */
  function Link(v: map<Name, seq<Name>>, a: Name, b: Name): map<Name, seq<Name>>
  {
    var v1 := v[a := Insert(Neighbours(v, a), b)];
    v1[b := Insert(Neighbours(v1, b), a)]
  }

  /** The lists after entering every link of `edges` in order. */
  function Adjacency(edges: seq<(Name, Name)>): map<Name, seq<Name>>
    decreases |edges|
  {
    if edges == [] then map[]
    else
      var e := edges[|edges| - 1];
      Link(Adjacency(edges[..|edges| - 1]), e.0, e.1)
  }

  /** The loop at the start of both parts that fills `vertices`. */
  method BuildAdjacency(edges: seq<(Name, Name)>) returns (vertices: map<Name, seq<Name>>)
    ensures vertices == Adjacency(edges)
  {
    vertices := map[];
    for i := 0 to |edges|
      invariant vertices == Adjacency(edges[..i])
    {
      var (a, b) := edges[i];
      var aNeighbours := Neighbours(vertices, a);
      vertices := vertices[a := Insert(aNeighbours, b)];
      var bNeighbours := Neighbours(vertices, b);
      vertices := vertices[b := Insert(bNeighbours, a)];
      assert edges[..i + 1][..i] == edges[..i];
    }
    assert edges[..|edges|] == edges;
  }

  /** A computer has a list only when it has a neighbour. */
  ghost predicate Keyed(v: map<Name, seq<Name>>)
  {
    forall x :: x in v ==> v[x] != []
  }

  ghost predicate AllSorted(v: map<Name, seq<Name>>)
  {
    forall x :: Sorted(Neighbours(v, x))
  }

  /** Each list holds exactly the computers linked to its owner. */
  ghost predicate Faithful(edges: seq<(Name, Name)>, v: map<Name, seq<Name>>)
  {
    forall x, y :: y in Neighbours(v, x) <==> Linked(edges, x, y)
  }

  /** No list is longer than two per link. */
  ghost predicate Bounded(edges: seq<(Name, Name)>, v: map<Name, seq<Name>>)
  {
    forall x :: |Neighbours(v, x)| <= 2 * |edges|
  }

  /** What the lists say about the links. */
  ghost predicate Represents(edges: seq<(Name, Name)>, v: map<Name, seq<Name>>)
  {
    Keyed(v) && AllSorted(v) && Faithful(edges, v) && Bounded(edges, v)
  }

  /** How one link changes a computer's list: it gains the other end,
      once for each end it is. */
  lemma LinkNeighbours(v: map<Name, seq<Name>>, a: Name, b: Name, x: Name)
    ensures multiset(Neighbours(Link(v, a, b), x)) ==
      multiset(Neighbours(v, x)) + (if x == a then multiset{b} else multiset{}) + (if x == b then multiset{a} else multiset{})
  {
    var v1 := v[a := Insert(Neighbours(v, a), b)];
    if x == b {
      assert Neighbours(Link(v, a, b), x) == Insert(Neighbours(v1, b), a);
      if a == b {
        assert Neighbours(v1, b) == Insert(Neighbours(v, a), b);
      } else {
        assert Neighbours(v1, b) == Neighbours(v, b);
      }
    } else if x == a {
      assert Neighbours(Link(v, a, b), x) == Insert(Neighbours(v, a), b);
    } else {
      assert Neighbours(Link(v, a, b), x) == Neighbours(v, x);
    }
  }

  /** One link keeps every list sorted. */
  lemma LinkSorted(v: map<Name, seq<Name>>, a: Name, b: Name, x: Name)
    requires Sorted(Neighbours(v, x)) && Sorted(Neighbours(v, a)) && Sorted(Neighbours(v, b))
    ensures Sorted(Neighbours(Link(v, a, b), x))
  {
    var v1 := v[a := Insert(Neighbours(v, a), b)];
    InsertSorted(Neighbours(v, a), b);
    assert Sorted(Neighbours(v1, b));
    InsertSorted(Neighbours(v1, b), a);
    if x != a && x != b {
      assert Neighbours(Link(v, a, b), x) == Neighbours(v, x);
    }
  }

  /** The links of `edges` and one more. */
  lemma LinkedAppend(edges: seq<(Name, Name)>, a: Name, b: Name, x: Name, y: Name)
    ensures Linked(edges + [(a, b)], x, y) <==>
      Linked(edges, x, y) || (x == a && y == b) || (x == b && y == a)
  {
    var edges' := edges + [(a, b)];
    assert (x, y) in edges' <==> (x, y) in edges || (x, y) == (a, b);
    assert (y, x) in edges' <==> (y, x) in edges || (y, x) == (a, b);
  }

  /** After one more link, a list holds exactly the linked computers. */
  lemma LinkFaithful(edges: seq<(Name, Name)>, v: map<Name, seq<Name>>, a: Name, b: Name, x: Name, y: Name)
    requires Faithful(edges, v)
    ensures y in Neighbours(Link(v, a, b), x) <==> Linked(edges + [(a, b)], x, y)
  {
    LinkNeighbours(v, a, b, x);
    LinkedAppend(edges, a, b, x, y);
    assert y in Neighbours(v, x) <==> Linked(edges, x, y);
    assert y in Neighbours(Link(v, a, b), x) <==> y in multiset(Neighbours(Link(v, a, b), x));
    assert y in Neighbours(v, x) <==> y in multiset(Neighbours(v, x));
  }

  /** Entering one more link keeps the lists faithful to the links. */
  lemma LinkRepresents(edges: seq<(Name, Name)>, v: map<Name, seq<Name>>, a: Name, b: Name)
    requires Represents(edges, v)
    ensures Represents(edges + [(a, b)], Link(v, a, b))
  {
    var edges', v' := edges + [(a, b)], Link(v, a, b);
    forall x
      ensures Sorted(Neighbours(v', x))
    {
      LinkSorted(v, a, b, x);
    }
    forall x
      ensures |Neighbours(v', x)| <= 2 * |edges'|
      ensures x in v' ==> v'[x] != []
    {
      LinkNeighbours(v, a, b, x);
      if x in v' && x !in v {
        assert x == a || x == b;
        assert |multiset(Neighbours(v', x))| > 0;
      }
    }
    forall x, y
      ensures y in Neighbours(v', x) <==> Linked(edges', x, y)
    {
      LinkFaithful(edges, v, a, b, x, y);
    }
  }

  /** The lists `BuildAdjacency` fills are faithful to the links. */
  lemma {:induction false} AdjacencyRepresents(edges: seq<(Name, Name)>)
    ensures Represents(edges, Adjacency(edges))
    decreases |edges|
  {
    if edges != [] {
      var prefix := edges[..|edges| - 1];
      var e := edges[|edges| - 1];
      AdjacencyRepresents(prefix);
      LinkRepresents(prefix, Adjacency(prefix), e.0, e.1);
      assert prefix + [(e.0, e.1)] == edges;
    }
  }

  /** How often `y` is entered into the list of `x`: once for each link
      `(x, y)` and once for each link `(y, x)`. */
  ghost function LinkCount(edges: seq<(Name, Name)>, x: Name, y: Name): nat
    decreases |edges|
  {
    if edges == [] then 0
    else
      var e := edges[|edges| - 1];
      LinkCount(edges[..|edges| - 1], x, y)
        + (if e == (x, y) then 1 else 0) + (if e == (y, x) then 1 else 0)
  }

  /** The lists are not deduplicated: `y` stands in the list of `x` once per
      link between them, so a link given twice is listed twice. */
  lemma {:induction false} AdjacencyCounts(edges: seq<(Name, Name)>, x: Name, y: Name)
    ensures multiset(Neighbours(Adjacency(edges), x))[y] == LinkCount(edges, x, y)
    decreases |edges|
  {
    if edges != [] {
      var prefix := edges[..|edges| - 1];
      var e := edges[|edges| - 1];
      AdjacencyCounts(prefix, x, y);
      LinkNeighbours(Adjacency(prefix), e.0, e.1, x);
    }
  }

  /** Every neighbour has a list of its own. */
  ghost predicate Closed(v: map<Name, seq<Name>>)
  {
    forall x, y :: x in v && y in v[x] ==> y in v
  }

  /** The lists are closed, so the `unwrap` on a neighbour's list in part 1
      never fails. */
  lemma RepresentsClosed(edges: seq<(Name, Name)>, v: map<Name, seq<Name>>)
    requires Represents(edges, v)
    ensures Closed(v)
  {
    forall x, y | x in v && y in v[x]
      ensures y in v
    {
      assert y in Neighbours(v, x);
      assert x in Neighbours(v, y);
    }
  }

  // ---------------------------------------------------------------------------
  // Part 1: triangles

  /** `[a, b, c].sort()`: two names ordered, then the third put in place. */
  function Sort3(a: Name, b: Name, c: Name): (t: seq<Name>)
    ensures |t| == 3
  {
    if Key(b) < Key(a) then Place(b, a, c) else Place(a, b, c)
  }

  /** `c` put in place among the ordered `x` and `y`. */
  function Place(x: Name, y: Name, c: Name): (t: seq<Name>)
    ensures |t| == 3
  {
    if Key(c) < Key(x) then [c, x, y] else if Key(c) < Key(y) then [x, c, y] else [x, y, c]
  }

  lemma PlaceSorts(x: Name, y: Name, c: Name)
    requires Key(x) <= Key(y)
    ensures Sorted(Place(x, y, c)) && multiset(Place(x, y, c)) == multiset{x, y, c}
  {
    var t := Place(x, y, c);
    Sorted3(t);
    assert multiset(t) == multiset{t[0], t[1], t[2]} by {
      assert t == [t[0], t[1], t[2]];
    }
  }

  /** `Sort3` returns the three names, sorted; by `SortedUnique` that is
      what any sort returns. */
  lemma Sort3Sorts(a: Name, b: Name, c: Name)
    ensures Sorted(Sort3(a, b, c)) && multiset(Sort3(a, b, c)) == multiset{a, b, c}
  {
    if Key(b) < Key(a) {
      PlaceSorts(b, a, c);
    } else {
      PlaceSorts(a, b, c);
    }
  }

  lemma Sorted3(t: seq<Name>)
    requires |t| == 3 && Key(t[0]) <= Key(t[1]) <= Key(t[2])
    ensures Sorted(t)
  {
  }

  /** The triplets the innermost loop inserts for `a` and `b` while it goes
      through `cs`. */
  function TriplesWith(v: map<Name, seq<Name>>, a: Name, b: Name, cs: seq<Name>): set<seq<Name>>
    decreases |cs|
  {
    if cs == [] then {}
    else
      var c := cs[|cs| - 1];
      var found := if c != a && c in v && a in v[c] then {Sort3(a, b, c)} else {};
      TriplesWith(v, a, b, cs[..|cs| - 1]) + found
  }

  /** The triplets the two inner loops insert for `a` while the middle one
      goes through `bs`. */
  function TriplesFrom(v: map<Name, seq<Name>>, a: Name, bs: seq<Name>): set<seq<Name>>
    decreases |bs|
  {
    if bs == [] then {}
    else
      var b := bs[|bs| - 1];
      var found := if b in v then TriplesWith(v, a, b, v[b]) else {};
      TriplesFrom(v, a, bs[..|bs| - 1]) + found
  }

  /** The triplets found once the outer loop has visited the computers of
      `done`. */
  ghost function Triplets(v: map<Name, seq<Name>>, done: set<Name>): set<seq<Name>>
  {
    set a, t | a in done && a in v && StartsWith(a, 't') && t in TriplesFrom(v, a, v[a]) :: t
  }

  /** Part 1's search: for each computer starting with 't', each neighbour
      `b` and each neighbour `c` of `b` other than `a` that links back to
      `a`, the sorted triplet goes into a set. */
  method FindTriplets(v: map<Name, seq<Name>>) returns (triplets: set<seq<Name>>)
    requires Closed(v)
    ensures triplets == Triplets(v, v.Keys)
  {
    triplets := {};
    var todo := v.Keys;
    while todo != {}
      invariant todo <= v.Keys
      invariant triplets == Triplets(v, v.Keys - todo)
      decreases |todo|
    {
      var a :| a in todo;
      ghost var done := v.Keys - todo;
      if StartsWith(a, 't') {
        triplets := TripletsAt(v, a, triplets);
      }
      TripletsVisit(v, done, a);
      todo := todo - {a};
      assert v.Keys - todo == done + {a};
    }
  }

  /** Visiting one more computer adds the triplets found from it. */
  lemma {:induction false} TripletsVisit(v: map<Name, seq<Name>>, done: set<Name>, a: Name)
    requires a in v
    ensures Triplets(v, done + {a}) ==
      Triplets(v, done) + (if StartsWith(a, 't') then TriplesFrom(v, a, v[a]) else {})
  {
  }

  /** The two inner loops for the computer `a`. */
  method TripletsAt(v: map<Name, seq<Name>>, a: Name, acc: set<seq<Name>>)
    returns (triplets: set<seq<Name>>)
    requires Closed(v) && a in v
    ensures triplets == acc + TriplesFrom(v, a, v[a])
  {
    triplets := acc;
    var aNeighbours := v[a];
    for i := 0 to |aNeighbours|
      invariant triplets == acc + TriplesFrom(v, a, aNeighbours[..i])
    {
      var b := aNeighbours[i];
      assert aNeighbours[..i + 1][..i] == aNeighbours[..i];
      if b in v {
        triplets := TripletsVia(v, a, b, triplets);
      }
    }
    assert aNeighbours[..|aNeighbours|] == aNeighbours;
  }

  /** The innermost loop, over the neighbours `c` of `b`. */
  method TripletsVia(v: map<Name, seq<Name>>, a: Name, b: Name, acc: set<seq<Name>>)
    returns (triplets: set<seq<Name>>)
    requires Closed(v) && b in v
    ensures triplets == acc + TriplesWith(v, a, b, v[b])
  {
    triplets := acc;
    var bNeighbours := v[b];
    for j := 0 to |bNeighbours|
      invariant triplets == acc + TriplesWith(v, a, b, bNeighbours[..j])
    {
      var c := bNeighbours[j];
      assert bNeighbours[..j + 1][..j] == bNeighbours[..j];
      assert c in v;
      ghost var found := if c != a && c in v && a in v[c] then {Sort3(a, b, c)} else {};
      assert TriplesWith(v, a, b, bNeighbours[..j + 1]) == TriplesWith(v, a, b, bNeighbours[..j]) + found;
      if c != a && a in v[c] {
        triplets := triplets + {Sort3(a, b, c)};
      }
    }
    assert bNeighbours[..|bNeighbours|] == bNeighbours;
  }

  /** The triplets inserted for `a` and `b` are those of the neighbours `c`
      that close a loop back to `a`. */
  lemma {:induction false} TriplesWithHas(v: map<Name, seq<Name>>, a: Name, b: Name, cs: seq<Name>, t: seq<Name>)
    ensures t in TriplesWith(v, a, b, cs) <==>
      exists c :: c in cs && c != a && c in v && a in v[c] && t == Sort3(a, b, c)
    decreases |cs|
  {
    if cs != [] {
      var prefix, c := cs[..|cs| - 1], cs[|cs| - 1];
      TriplesWithHas(v, a, b, prefix, t);
      assert cs == prefix + [c];
      if t in TriplesWith(v, a, b, cs) && t !in TriplesWith(v, a, b, prefix) {
        assert c in cs;
      }
      if exists c' :: c' in cs && c' != a && c' in v && a in v[c'] && t == Sort3(a, b, c') {
        var c' :| c' in cs && c' != a && c' in v && a in v[c'] && t == Sort3(a, b, c');
        if c' != c {
          assert c' in prefix;
        }
      }
    }
  }

  /** The triplets inserted for `a` are those inserted for some neighbour
      `b` that has a list. */
  lemma {:induction false} TriplesFromHas(v: map<Name, seq<Name>>, a: Name, bs: seq<Name>, t: seq<Name>)
    ensures t in TriplesFrom(v, a, bs) <==>
      exists b :: b in bs && b in v && t in TriplesWith(v, a, b, v[b])
    decreases |bs|
  {
    if bs != [] {
      var prefix, b := bs[..|bs| - 1], bs[|bs| - 1];
      TriplesFromHas(v, a, prefix, t);
      assert bs == prefix + [b];
      if t in TriplesFrom(v, a, bs) && t !in TriplesFrom(v, a, prefix) {
        assert b in bs;
      }
      if exists b' :: b' in bs && b' in v && t in TriplesWith(v, a, b', v[b']) {
        var b' :| b' in bs && b' in v && t in TriplesWith(v, a, b', v[b']);
        if b' != b {
          assert b' in prefix;
        }
      }
    }
  }

  /** Three computers, sorted and all different, each linked to the other
      two, one of them starting with 't'. */
  ghost predicate Triangle(edges: seq<(Name, Name)>, t: seq<Name>)
  {
    && |t| == 3 && Strict(t)
    && Linked(edges, t[0], t[1]) && Linked(edges, t[1], t[2]) && Linked(edges, t[0], t[2])
    && (StartsWith(t[0], 't') || StartsWith(t[1], 't') || StartsWith(t[2], 't'))
  }

  /** Of three distinct names that are pairwise linked, any two different
      ones are linked. */
  lemma LinkedAmong(edges: seq<(Name, Name)>, a: Name, b: Name, c: Name, x: Name, y: Name)
    requires Linked(edges, a, b) && Linked(edges, b, c) && Linked(edges, c, a)
    requires x in multiset{a, b, c} && y in multiset{a, b, c} && x != y
    ensures Linked(edges, x, y)
  {
  }

  /** Three distinct names occur once each among themselves. */
  lemma Once3(t: seq<Name>, a: Name, b: Name, c: Name)
    requires |t| == 3 && multiset(t) == multiset{a, b, c} && a != b && b != c && a != c
    ensures t[0] != t[1] && t[1] != t[2] && t[0] != t[2]
  {
    assert t == [t[0], t[1], t[2]];
    assert multiset(t) == multiset{t[0], t[1], t[2]};
  }

  /** Sorted and without repeated neighbours is without repeats. */
  lemma SortedDistinct(t: seq<Name>)
    requires |t| == 3 && Sorted(t) && t[0] != t[1] && t[1] != t[2]
    ensures Strict(t)
  {
    if Key(t[0]) == Key(t[1]) {
      KeyInjective(t[0], t[1]);
    }
    if Key(t[1]) == Key(t[2]) {
      KeyInjective(t[1], t[2]);
    }
  }

  /** A computer is never linked to itself. */
  lemma NotSelfLinked(edges: seq<(Name, Name)>, x: Name)
    requires NoSelfLinks(edges)
    ensures !Linked(edges, x, x)
  {
    forall i | 0 <= i < |edges|
      ensures edges[i] != (x, x)
    {
    }
  }

  /** Every triplet the search inserts is a triangle. */
  lemma FoundIsTriangle(edges: seq<(Name, Name)>, v: map<Name, seq<Name>>, a: Name, b: Name, c: Name)
    requires Represents(edges, v) && NoSelfLinks(edges)
    requires a in v && StartsWith(a, 't') && b in v[a] && b in v && c in v[b]
    requires c != a && c in v && a in v[c]
    ensures Triangle(edges, Sort3(a, b, c))
  {
    assert b in Neighbours(v, a) && c in Neighbours(v, b) && a in Neighbours(v, c);
    assert Linked(edges, a, b) && Linked(edges, b, c) && Linked(edges, c, a);
    NotSelfLinked(edges, a);
    NotSelfLinked(edges, b);
    var t := Sort3(a, b, c);
    Sort3Sorts(a, b, c);
    Once3(t, a, b, c);
    SortedDistinct(t);
    assert t[0] in multiset(t) && t[1] in multiset(t) && t[2] in multiset(t);
    LinkedAmong(edges, a, b, c, t[0], t[1]);
    LinkedAmong(edges, a, b, c, t[1], t[2]);
    LinkedAmong(edges, a, b, c, t[0], t[2]);
    assert a in multiset(t);
  }

  /** A strictly sorted triplet is the sorted form of its members. */
  lemma SortedForm(t: seq<Name>, a: Name, b: Name, c: Name)
    requires |t| == 3 && Strict(t) && multiset(t) == multiset{a, b, c}
    ensures t == Sort3(a, b, c)
  {
    Sort3Sorts(a, b, c);
    SortedUnique(Sort3(a, b, c), t);
  }

  /** Three pairwise linked computers, the first starting with 't', are
      found from the first one's list. */
  lemma CornerFound(edges: seq<(Name, Name)>, v: map<Name, seq<Name>>, a: Name, b: Name, c: Name)
    requires Faithful(edges, v) && StartsWith(a, 't') && a != c
    requires Linked(edges, a, b) && Linked(edges, b, c) && Linked(edges, c, a)
    ensures Sort3(a, b, c) in Triplets(v, v.Keys)
  {
    var t := Sort3(a, b, c);
    assert b in Neighbours(v, a) && c in Neighbours(v, b) && a in Neighbours(v, c);
    assert a in v && b in v && c in v;
    TriplesWithHas(v, a, b, v[b], t);
    TriplesFromHas(v, a, v[a], t);
  }

  /** A triangle whose member a starts with 't' is found from a's list. */
  lemma TriangleCorner(edges: seq<(Name, Name)>, v: map<Name, seq<Name>>, t: seq<Name>, a: Name, b: Name, c: Name)
    requires Faithful(edges, v) && |t| == 3 && Strict(t) && multiset(t) == multiset{a, b, c}
    requires StartsWith(a, 't') && a != c
    requires Linked(edges, a, b) && Linked(edges, b, c) && Linked(edges, c, a)
    ensures t in Triplets(v, v.Keys)
  {
    SortedForm(t, a, b, c);
    CornerFound(edges, v, a, b, c);
  }

  /** Every triangle is inserted by the search. */
  lemma TriangleIsFound(edges: seq<(Name, Name)>, v: map<Name, seq<Name>>, t: seq<Name>)
    requires Faithful(edges, v) && Triangle(edges, t)
    ensures t in Triplets(v, v.Keys)
  {
    var x, y, z := t[0], t[1], t[2];
    assert t == [x, y, z];
    assert Key(x) < Key(y) < Key(z);
    if StartsWith(x, 't') {
      TriangleCorner(edges, v, t, x, y, z);
    } else if StartsWith(y, 't') {
      TriangleCorner(edges, v, t, y, x, z);
    } else {
      TriangleCorner(edges, v, t, z, x, y);
    }
  }

  /** Part 1 counts exactly the triangles: a triplet is in the set the
      search builds over the lists of the input's links exactly when its
      three computers are linked in pairs and one starts with 't'. */
  lemma {:induction false} TripletsAreTriangles(edges: seq<(Name, Name)>, t: seq<Name>)
    requires NoSelfLinks(edges)
    ensures var v := Adjacency(edges);
      t in Triplets(v, v.Keys) <==> Triangle(edges, t)
  {
    var v := Adjacency(edges);
    AdjacencyRepresents(edges);
    if t in Triplets(v, v.Keys) {
      var a :| a in v && StartsWith(a, 't') && t in TriplesFrom(v, a, v[a]);
      TriplesFromHas(v, a, v[a], t);
      var b :| b in v[a] && b in v && t in TriplesWith(v, a, b, v[b]);
      TriplesWithHas(v, a, b, v[b], t);
      var c :| c in v[b] && c != a && c in v && a in v[c] && t == Sort3(a, b, c);
      FoundIsTriangle(edges, v, a, b, c);
    }
    if Triangle(edges, t) {
      TriangleIsFound(edges, v, t);
    }
  }

  // ---------------------------------------------------------------------------
  // Part 2: growing the fully connected sets one computer at a time

  /** The starting set of one link: its two ends, smaller first. */
  function Pair(e: (Name, Name)): (s: seq<Name>)
    ensures |s| == 2 && multiset(s) == multiset{e.0, e.1} && Sorted(s)
  {
    if Less(e.0, e.1) then [e.0, e.1] else [e.1, e.0]
  }

  /** The starting sets once sorted and deduplicated, which makes them a set. */
  function InitialSets(edges: seq<(Name, Name)>): set<seq<Name>>
  {
    set e | e in edges :: Pair(e)
  }

  /** The sets the inner loop makes from `a` while it goes through `done`:
      each set whose members all appear in `a`'s list, with `a` added. */
  ghost function Extended(v: map<Name, seq<Name>>, a: Name, done: set<seq<Name>>): set<seq<Name>>
    requires a in v
  {
    set s | s in done && Superset(v[a], s) :: Insert(s, a)
  }

  /** The sets of the next round once the outer loop has visited the
      computers of `done`. */
  ghost function GrownBy(v: map<Name, seq<Name>>, done: set<Name>, sets: set<seq<Name>>): set<seq<Name>>
  {
    set a, s | a in done && a in v && s in sets && Superset(v[a], s) :: Insert(s, a)
  }

  /** The sets of the next round. */
  ghost function Grown(v: map<Name, seq<Name>>, sets: set<seq<Name>>): set<seq<Name>>
  {
    GrownBy(v, v.Keys, sets)
  }

  lemma {:induction false} ExtendedVisit(v: map<Name, seq<Name>>, a: Name, done: set<seq<Name>>, s: seq<Name>)
    requires a in v
    ensures Extended(v, a, done + {s}) ==
      Extended(v, a, done) + (if Superset(v[a], s) then {Insert(s, a)} else {})
  {
  }

  lemma GrownVisit(v: map<Name, seq<Name>>, done: set<Name>, sets: set<seq<Name>>, a: Name)
    requires a in v
    ensures GrownBy(v, done + {a}, sets) == GrownBy(v, done, sets) + Extended(v, a, sets)
  {
  }

  /** The inner loop: every set of this round that `a` is linked to in full,
      with `a` added. */
  method ExtendAll(v: map<Name, seq<Name>>, a: Name, sets: set<seq<Name>>)
    returns (extended: set<seq<Name>>)
    requires a in v
    ensures extended == Extended(v, a, sets)
  {
    extended := {};
    var todo := sets;
    while todo != {}
      invariant todo <= sets
      invariant extended == Extended(v, a, sets - todo)
      decreases |todo|
    {
      var s :| s in todo;
      ghost var done := sets - todo;
      var linked := SortedSuperset(v[a], s);
      if linked {
        extended := extended + {Insert(s, a)};
      }
      ExtendedVisit(v, a, done, s);
      todo := todo - {s};
      assert sets - todo == done + {s};
    }
  }

  /** One round of the outer loop: the sets of the next round. */
  method GrowSets(v: map<Name, seq<Name>>, sets: set<seq<Name>>) returns (next: set<seq<Name>>)
    ensures next == Grown(v, sets)
  {
    next := {};
    var todo := v.Keys;
    while todo != {}
      invariant todo <= v.Keys
      invariant next == GrownBy(v, v.Keys - todo, sets)
      decreases |todo|
    {
      var a :| a in todo;
      ghost var done := v.Keys - todo;
      var extended := ExtendAll(v, a, sets);
      next := next + extended;
      GrownVisit(v, done, sets, a);
      todo := todo - {a};
      assert v.Keys - todo == done + {a};
    }
  }

  /** Every set of a round has `size` members. */
  ghost predicate Sized(sets: set<seq<Name>>, size: nat)
  {
    forall s :: s in sets ==> |s| == size
  }

  /** No computer has more than `bound` entries in its list. */
  ghost predicate Degrees(v: map<Name, seq<Name>>, bound: nat)
  {
    forall x :: |Neighbours(v, x)| <= bound
  }

  /** Each round's sets are one member larger than the last round's, and a
      round only yields sets while some list is as long as the sets are. */
  lemma GrownSized(v: map<Name, seq<Name>>, sets: set<seq<Name>>, size: nat, bound: nat)
    requires Sized(sets, size) && Degrees(v, bound)
    ensures Sized(Grown(v, sets), size + 1)
    ensures Grown(v, sets) != {} ==> size <= bound
  {
    forall t | t in Grown(v, sets)
      ensures |t| == size + 1 && size <= bound
    {
      var a, s :| a in v && s in sets && Superset(v[a], s) && t == Insert(s, a);
      SupersetLength(v[a], s);
      assert |Neighbours(v, a)| <= bound;
    }
    if Grown(v, sets) != {} {
      var t :| t in Grown(v, sets);
    }
  }

  /** A way of growing the sets that hands on sets one member larger and
      yields sets only while their size has not passed `bound`. */
  ghost predicate GrowsWithin(grow: set<seq<Name>> -> set<seq<Name>>, bound: nat)
  {
    forall sets, size: nat {:trigger Sized(sets, size), grow(sets)} ::
      Sized(sets, size) ==> Sized(grow(sets), size + 1) && (grow(sets) != {} ==> size <= bound)
  }

  /** Rounds of growth until a round yields nothing, whose sets are then
      kept. */
  ghost function Rounds(grow: set<seq<Name>> -> set<seq<Name>>, sets: set<seq<Name>>, size: nat, bound: nat): set<seq<Name>>
    requires Sized(sets, size) && GrowsWithin(grow, bound)
    decreases bound + 1 - size
  {
    var next := grow(sets);
    if next == {} then sets
    else Rounds(grow, next, size + 1, bound)
  }

  /** One round of part 2's loop as a value. */
  ghost function Round(v: map<Name, seq<Name>>): set<seq<Name>> -> set<seq<Name>>
  {
    sets => Grown(v, sets)
  }

  /** With no list longer than `bound`, the rounds stop by size `bound`. */
  lemma RoundWithin(v: map<Name, seq<Name>>, bound: nat)
    requires Degrees(v, bound)
    ensures GrowsWithin(Round(v), bound)
  {
    forall sets, size: nat | Sized(sets, size)
      ensures Sized(Round(v)(sets), size + 1) && (Round(v)(sets) != {} ==> size <= bound)
    {
      GrownSized(v, sets, size, bound);
    }
  }

  /** The sets part 2's loop ends with. */
  ghost function Saturated(v: map<Name, seq<Name>>, sets: set<seq<Name>>, size: nat, bound: nat): set<seq<Name>>
    requires Sized(sets, size) && Degrees(v, bound)
  {
    RoundWithin(v, bound);
    Rounds(Round(v), sets, size, bound)
  }

  /** Part 2's loop: sort and deduplicate (a set), grow every set by every
      computer linked to all of it, and stop when nothing grows. */
  method LargestSets(v: map<Name, seq<Name>>, initial: set<seq<Name>>, ghost bound: nat)
    returns (sets: set<seq<Name>>)
    requires Sized(initial, 2) && Degrees(v, bound)
    ensures sets == Saturated(v, initial, 2, bound)
  {
    sets := initial;
    ghost var size := 2;
    while true
      invariant Sized(sets, size)
      invariant Saturated(v, sets, size, bound) == Saturated(v, initial, 2, bound)
      decreases bound + 1 - size
    {
      var next := GrowSets(v, sets);
      if next == {} {
        break;
      }
      GrownSized(v, sets, size, bound);
      sets, size := next, size + 1;
    }
  }

  /** Every two different members of `s` are linked. */
  ghost predicate Clique(edges: seq<(Name, Name)>, s: seq<Name>)
  {
    forall x, y :: x in s && y in s && x != y ==> Linked(edges, x, y)
  }

  /** A fully connected set of `size` computers, in the order the loop
      keeps its sets. */
  ghost predicate SortedClique(edges: seq<(Name, Name)>, s: seq<Name>, size: nat)
  {
    |s| == size && Strict(s) && Clique(edges, s)
  }

  /** `sets` holds exactly the sorted cliques of `size` computers. */
  ghost predicate AllCliques(edges: seq<(Name, Name)>, sets: set<seq<Name>>, size: nat)
  {
    forall s :: s in sets <==> SortedClique(edges, s, size)
  }

  /** A starting set is a sorted pair of linked computers. */
  lemma PairClique(edges: seq<(Name, Name)>, e: (Name, Name))
    requires NoSelfLinks(edges) && e in edges
    ensures SortedClique(edges, Pair(e), 2)
  {
    var s := Pair(e);
    var i :| 0 <= i < |edges| && edges[i] == e;
    assert e.0 != e.1;
    if Key(e.0) == Key(e.1) {
      KeyInjective(e.0, e.1);
    }
    assert s[0] in multiset(s) && s[1] in multiset(s);
  }

  /** A sorted pair of linked computers is a starting set. */
  lemma CliquePair(edges: seq<(Name, Name)>, s: seq<Name>)
    requires SortedClique(edges, s, 2)
    ensures s in InitialSets(edges)
  {
    var x, y := s[0], s[1];
    assert s == [x, y] && Less(x, y);
    assert x in s && y in s && x != y;
    assert Linked(edges, x, y);
    if (x, y) in edges {
      assert Pair((x, y)) == s;
    } else {
      assert Pair((y, x)) == s;
    }
  }

  /** The first round holds exactly the sorted cliques of two. */
  lemma InitialCliques(edges: seq<(Name, Name)>)
    requires NoSelfLinks(edges)
    ensures AllCliques(edges, InitialSets(edges), 2)
  {
    forall s
      ensures s in InitialSets(edges) <==> SortedClique(edges, s, 2)
    {
      if s in InitialSets(edges) {
        var e :| e in edges && s == Pair(e);
        PairClique(edges, e);
      }
      if SortedClique(edges, s, 2) {
        CliquePair(edges, s);
      }
    }
  }

  /** A clique every member of which is in `a`'s list grows into a clique
      when `a` is added. */
  lemma {:induction false} ExtendClique(edges: seq<(Name, Name)>, v: map<Name, seq<Name>>, s: seq<Name>, a: Name, size: nat)
    requires Faithful(edges, v) && AllSorted(v) && NoSelfLinks(edges)
    requires a in v && SortedClique(edges, s, size) && Superset(v[a], s)
    ensures SortedClique(edges, Insert(s, a), size + 1)
  {
    assert Neighbours(v, a) == v[a];
    SupersetElements(v[a], s);
    NotSelfLinked(edges, a);
    assert a !in v[a];
    InsertStrict(s, a);
    var t := Insert(s, a);
    forall x, y | x in t && y in t && x != y
      ensures Linked(edges, x, y)
    {
      InsertFrom(s, a, x);
      InsertFrom(s, a, y);
      if x == a {
        assert y in Neighbours(v, a);
      } else if y == a {
        assert x in Neighbours(v, a);
      }
    }
  }

  lemma TailClique(edges: seq<(Name, Name)>, t: seq<Name>)
    requires |t| >= 1 && Strict(t) && Clique(edges, t)
    ensures Strict(t[1..]) && Clique(edges, t[1..])
  {
    forall x, y | x in t[1..] && y in t[1..] && x != y
      ensures Linked(edges, x, y)
    {
      assert x in t && y in t;
    }
  }

  lemma HeadLinked(edges: seq<(Name, Name)>, v: map<Name, seq<Name>>, t: seq<Name>)
    requires Faithful(edges, v) && |t| >= 2 && Strict(t) && Clique(edges, t)
    ensures t[0] in v && forall x :: x in t[1..] ==> x in v[t[0]]
  {
    var a := t[0];
    forall x | x in t[1..]
      ensures x in Neighbours(v, a)
    {
      var k :| 1 <= k < |t| && t[k] == x;
      assert x in t && a in t && x != a;
    }
    assert t[1] in t[1..];
  }

  lemma InsertHead(t: seq<Name>)
    requires |t| >= 2 && Strict(t)
    ensures Insert(t[1..], t[0]) == t
  {
    assert Key(t[0]) < Key(t[1]);
    assert t == [t[0]] + t[1..];
  }

  /** A sorted clique of more than one computer is its tail grown by its
      head, which is linked to every member of the tail. */
  lemma CliqueExtends(edges: seq<(Name, Name)>, v: map<Name, seq<Name>>, t: seq<Name>, size: nat)
    requires Faithful(edges, v) && AllSorted(v) && size >= 1 && SortedClique(edges, t, size + 1)
    ensures t[0] in v && SortedClique(edges, t[1..], size)
    ensures Superset(v[t[0]], t[1..]) && t == Insert(t[1..], t[0])
  {
    TailClique(edges, t);
    HeadLinked(edges, v, t);
    InsertHead(t);
    assert Sorted(Neighbours(v, t[0]));
    SupersetElements(v[t[0]], t[1..]);
  }

  /** Each round holds exactly the sorted cliques one larger than the
      round before. */
  lemma GrownCliques(edges: seq<(Name, Name)>, v: map<Name, seq<Name>>, sets: set<seq<Name>>, size: nat)
    requires Faithful(edges, v) && AllSorted(v) && NoSelfLinks(edges)
    requires size >= 1 && AllCliques(edges, sets, size)
    ensures AllCliques(edges, Grown(v, sets), size + 1)
  {
    forall t
      ensures t in Grown(v, sets) <==> SortedClique(edges, t, size + 1)
    {
      if t in Grown(v, sets) {
        var a, s :| a in v && s in sets && Superset(v[a], s) && t == Insert(s, a);
        ExtendClique(edges, v, s, a, size);
      }
      if SortedClique(edges, t, size + 1) {
        CliqueExtends(edges, v, t, size);
        assert t[1..] in sets;
      }
    }
  }

  /** The first `n` members of a sorted clique are a sorted clique. */
  lemma CliquePrefix(edges: seq<(Name, Name)>, c: seq<Name>, n: nat)
    requires Strict(c) && Clique(edges, c) && n <= |c|
    ensures SortedClique(edges, c[..n], n)
  {
    forall x, y | x in c[..n] && y in c[..n] && x != y
      ensures Linked(edges, x, y)
    {
      assert x in c && y in c;
    }
  }

  /** When there is no sorted clique of `size + 1` computers, no clique has
      more than `size`. */
  lemma NoneLarger(edges: seq<(Name, Name)>, size: nat)
    requires AllCliques(edges, {}, size + 1)
    ensures forall c :: Strict(c) && Clique(edges, c) ==> |c| <= size
  {
    forall c | Strict(c) && Clique(edges, c)
      ensures |c| <= size
    {
      if |c| > size {
        CliquePrefix(edges, c, size + 1);
      }
    }
  }

  /** `sets` holds the sorted cliques of `size` computers, and no clique is
      larger. */
  ghost predicate Largest(edges: seq<(Name, Name)>, sets: set<seq<Name>>, size: nat)
  {
    AllCliques(edges, sets, size) && forall c :: Strict(c) && Clique(edges, c) ==> |c| <= size
  }

  /** The loop never ends empty-handed unless it started so. */
  lemma SaturatedKeeps(v: map<Name, seq<Name>>, sets: set<seq<Name>>, size: nat, bound: nat)
    requires Sized(sets, size) && Degrees(v, bound)
    ensures sets != {} ==> Saturated(v, sets, size, bound) != {}
    ensures Saturated(v, sets, size, bound) == {} ==> sets == {}
  {
    RoundWithin(v, bound);
    RoundsKeep(Round(v), sets, size, bound);
  }

  /** Rounds of growth never end empty-handed unless they started so. */
  lemma {:induction false} RoundsKeep(grow: set<seq<Name>> -> set<seq<Name>>, sets: set<seq<Name>>, size: nat, bound: nat)
    requires Sized(sets, size) && GrowsWithin(grow, bound)
    ensures sets != {} ==> Rounds(grow, sets, size, bound) != {}
    decreases bound + 1 - size
  {
    var next := grow(sets);
    if next != {} {
      RoundsKeep(grow, next, size + 1, bound);
    }
  }

  /** The loop ends on the sorted cliques of the largest size there is. */
  lemma SaturatedCliques(edges: seq<(Name, Name)>, v: map<Name, seq<Name>>,
                          sets: set<seq<Name>>, size: nat, bound: nat)
    returns (largest: nat)
    requires Faithful(edges, v) && AllSorted(v) && NoSelfLinks(edges)
    requires size >= 1 && Sized(sets, size) && Degrees(v, bound) && AllCliques(edges, sets, size)
    ensures largest >= size && Largest(edges, Saturated(v, sets, size, bound), largest)
    ensures Saturated(v, sets, size, bound) == {} ==> largest == size
  {
    var cliques := (s: set<seq<Name>>, k: nat) => k >= 1 && AllCliques(edges, s, k);
    forall s: set<seq<Name>>, k: nat | cliques(s, k)
      ensures cliques(Round(v)(s), k + 1)
    {
      GrownCliques(edges, v, s, k);
    }
    RoundWithin(v, bound);
    RoundsKeep(Round(v), sets, size, bound);
    largest := RoundsInduction(Round(v), sets, size, bound, cliques);
    NoneLarger(edges, largest);
    if sets == {} {
      GrownNothing(v);
    }
  }

  /** Nothing grows from no sets. */
  lemma GrownNothing(v: map<Name, seq<Name>>)
    ensures Round(v)({}) == {}
  {
  }

  /** Induction over rounds of growth: a property of the sets and their
      size that every round hands on holds of the sets the rounds end with
      and, since nothing grows from those, of the empty round after them. */
  lemma {:induction false} RoundsInduction(grow: set<seq<Name>> -> set<seq<Name>>, sets: set<seq<Name>>, size: nat,
                                           bound: nat, keeps: (set<seq<Name>>, nat) -> bool)
    returns (last: nat)
    requires Sized(sets, size) && GrowsWithin(grow, bound) && keeps(sets, size)
    requires forall s: set<seq<Name>>, k: nat {:trigger grow(s), keeps(s, k)} ::
      keeps(s, k) ==> keeps(grow(s), k + 1)
    ensures last >= size && keeps(Rounds(grow, sets, size, bound), last) && keeps({}, last + 1)
    ensures grow(sets) == {} ==> last == size
    decreases bound + 1 - size
  {
    var next := grow(sets);
    assert keeps(next, size + 1);
    if next == {} {
      last := size;
    } else {
      last := RoundsInduction(grow, next, size + 1, bound, keeps);
    }
  }

  // ---------------------------------------------------------------------------
  // The password

  /** Each name in its two-character display form. */
  function Shows(s: seq<Name>): (r: seq<string>)
    ensures |r| == |s| && forall i :: 0 <= i < |s| ==> r[i] == Show(s[i])
  {
    if s == [] then [] else [Show(s[0])] + Shows(s[1..])
  }

  /** The names displayed and joined with commas. */
  function JoinNames(s: seq<Name>): string
  {
    if s == [] then "" else Join(Shows(s), ',')
  }

  /** Reading a comma-separated list of names back. */
  function ParseNameList(pieces: seq<string>): (r: Option<seq<Name>>)
    ensures r.Some? ==> |r.value| == |pieces|
  {
    if pieces == [] then Some([])
    else
      var head := ParseName(pieces[0]);
      var rest := ParseNameList(pieces[1..]);
      if head.Some? && rest.Some? then Some([head.value] + rest.value) else None
  }

  lemma {:induction false} ParseShows(s: seq<Name>)
    ensures ParseNameList(Shows(s)) == Some(s)
    decreases |s|
  {
    if s != [] {
      var rest := Shows(s[1..]);
      ParseShows(s[1..]);
      assert Shows(s) == [Show(s[0])] + rest;
      assert ([Show(s[0])] + rest)[1..] == rest;
      ParseShow(s[0], Show(s[0]));
      assert [s[0]] + s[1..] == s;
    }
  }

  /** The password reads back as the names it was made from, as long as no
      name holds a comma. */
  lemma PasswordReadsBack(s: seq<Name>)
    requires s != [] && forall i :: 0 <= i < |s| ==> ',' !in Show(s[i])
    ensures ParseNameList(Split(JoinNames(s), ',')) == Some(s)
  {
    SplitJoin(Shows(s), ',');
    ParseShows(s);
  }

  /** A set with one member has no other. */
  lemma OnlyMember(sets: set<seq<Name>>, s: seq<Name>)
    requires |sets| == 1 && s in sets
    ensures sets == {s}
  {
    assert |sets - {s}| == 0;
  }

  /** The sets part 2's loop ends with for a list of links. */
  ghost function FinalSets(edges: seq<(Name, Name)>): set<seq<Name>>
  {
    AdjacencyRepresents(edges);
    Saturated(Adjacency(edges), InitialSets(edges), 2, 2 * |edges|)
  }

  /** Part 2's answer for a list of links: the password made from the only
      set left once nothing grows, and the assertion's panic (`None`) when
      there is not exactly one. */
  ghost function Password(edges: seq<(Name, Name)>): Option<string>
  {
    var sets := FinalSets(edges);
    if |sets| == 1 then
      var s :| s in sets;
      Some(JoinNames(s))
    else None
  }

  /** `s` is a sorted clique and every other clique is smaller. */
  ghost predicate UniqueLargest(edges: seq<(Name, Name)>, s: seq<Name>)
  {
    && Strict(s) && Clique(edges, s)
    && forall c :: Strict(c) && Clique(edges, c) ==> |c| <= |s| && (|c| == |s| ==> c == s)
  }

  /** The only set of the last round is the unique largest clique. */
  lemma LoneSet(edges: seq<(Name, Name)>, sets: set<seq<Name>>, n: nat, s: seq<Name>)
    requires Largest(edges, sets, n) && n >= 2 && |sets| == 1 && s in sets
    ensures |s| >= 2 && UniqueLargest(edges, s)
  {
    OnlyMember(sets, s);
    assert SortedClique(edges, s, n);
    forall c | Strict(c) && Clique(edges, c) && |c| == |s|
      ensures c == s
    {
      assert SortedClique(edges, c, n);
    }
  }

  /** A unique largest clique of two or more is the only set of the last
      round. */
  lemma UniqueIsLone(edges: seq<(Name, Name)>, sets: set<seq<Name>>, n: nat, s: seq<Name>)
    requires Largest(edges, sets, n) && (sets == {} ==> n == 2)
    requires |s| >= 2 && UniqueLargest(edges, s)
    ensures sets == {s}
  {
    if sets == {} {
      CliquePrefix(edges, s, 2);
      assert false;
    }
    var t :| t in sets;
    assert SortedClique(edges, t, n);
    assert |s| <= n;
    forall u | u in sets
      ensures u == s
    {
      assert SortedClique(edges, u, n);
    }
  }

  /** The loop ends on the sorted cliques of the largest size there is. */
  lemma FinalCliques(edges: seq<(Name, Name)>) returns (largest: nat)
    requires NoSelfLinks(edges)
    ensures largest >= 2 && Largest(edges, FinalSets(edges), largest)
    ensures FinalSets(edges) == {} ==> largest == 2
  {
    AdjacencyRepresents(edges);
    InitialCliques(edges);
    largest := SaturatedCliques(edges, Adjacency(edges), InitialSets(edges), 2, 2 * |edges|);
  }

  /** The password is the largest set of computers that are all linked to
      each other, and there is one exactly when that set is unique and has
      at least two computers. */
  lemma PasswordIsLargestClique(edges: seq<(Name, Name)>)
    requires NoSelfLinks(edges)
    ensures Password(edges).Some? ==>
      exists s :: |s| >= 2 && UniqueLargest(edges, s) && Password(edges) == Some(JoinNames(s))
    ensures forall s :: |s| >= 2 && UniqueLargest(edges, s) ==> Password(edges) == Some(JoinNames(s))
  {
    var n := FinalCliques(edges);
    var sets := FinalSets(edges);
    if |sets| == 1 {
      var s :| s in sets && Password(edges) == Some(JoinNames(s));
      LoneSet(edges, sets, n, s);
    }
    forall s | |s| >= 2 && UniqueLargest(edges, s)
      ensures Password(edges) == Some(JoinNames(s))
    {
      UniqueIsLone(edges, sets, n, s);
    }
  }

  // ---------------------------------------------------------------------------
  // Input

  /** One line `ab-cd`: split at the first '-', and both halves must be
      names (the source unwraps, so a bad line is `None`). */
  function ParseEdge(line: string): (r: Option<(Name, Name)>)
    ensures r.Some? ==> line == Show(r.value.0) + "-" + Show(r.value.1)
  {
    match SplitOnce(line, "-")
    case None => None
    case Some((left, right)) =>
      match (ParseName(left), ParseName(right))
      case (Some(a), Some(b)) =>
        ParseShow(a, left);
        ParseShow(b, right);
        Some((a, b))
      case _ => None
  }

  /** A link written out reads back, provided the first name holds no '-'. */
  lemma ParseShowEdge(a: Name, b: Name)
    requires '-' !in Show(a)
    ensures ParseEdge(Show(a) + "-" + Show(b)) == Some((a, b))
  {
    SplitOnceAt(Show(a), Show(b), '-');
    ParseShow(a, Show(a));
    ParseShow(b, Show(b));
  }

  /** Every line parsed as a link, or `None` if one of them is not one. */
  function ParseEdgeLines(lines: seq<string>): (r: Option<seq<(Name, Name)>>)
    ensures r.Some? ==> |r.value| == |lines|
    ensures r.Some? ==> forall i :: 0 <= i < |lines| ==> ParseEdge(lines[i]) == Some(r.value[i])
    ensures r.None? ==> exists i :: 0 <= i < |lines| && ParseEdge(lines[i]).None?
  {
    if lines == [] then Some([])
    else
      var head := ParseEdge(lines[0]);
      var rest := ParseEdgeLines(lines[1..]);
      if head.None? then None
      else if rest.None? then
        var i :| 0 <= i < |lines| - 1 && ParseEdge(lines[1..][i]).None?;
        assert lines[i + 1] == lines[1..][i];
        None
      else
        assert forall i :: 1 <= i < |lines| ==> lines[i] == lines[1..][i - 1];
        Some([head.value] + rest.value)
  }

  /** `parse_edges`: the trimmed input, one link per line. */
  function ParseEdges(input: string): Option<seq<(Name, Name)>>
  {
    ParseEdgeLines(Lines(Trim(input)))
  }

  // ---------------------------------------------------------------------------
  // The two parts

  /** Part 1: the number of distinct sorted triplets found. */
  method Day23Part1(input: string) returns (r: Option<nat>)
    ensures r == match ParseEdges(input)
      case None => None
      case Some(edges) => Some(|Triplets(Adjacency(edges), Adjacency(edges).Keys)|)
  {
    var parsed := ParseEdges(input);
    if parsed.None? {
      return None;
    }
    var edges := parsed.value;
    var vertices := BuildAdjacency(edges);
    AdjacencyRepresents(edges);
    RepresentsClosed(edges, vertices);
    var triplets := FindTriplets(vertices);
    r := Some(|triplets|);
  }

  /** Part 2: the password of the one set left once no set grows. */
  method Day23Part2(input: string) returns (r: Option<string>)
    ensures r == match ParseEdges(input)
      case None => None
      case Some(edges) => Password(edges)
  {
    var parsed := ParseEdges(input);
    if parsed.None? {
      return None;
    }
    var edges := parsed.value;
    var vertices := BuildAdjacency(edges);
    AdjacencyRepresents(edges);
    var sets := LargestSets(vertices, InitialSets(edges), 2 * |edges|);
    assert sets == FinalSets(edges);
    if |sets| != 1 {
      return None;
    }
    var s :| s in sets;
    OnlyMember(sets, s);
    r := Some(JoinNames(s));
  }
}
