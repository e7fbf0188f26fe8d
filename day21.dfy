/** Day 21: keypad conundrum. A code is typed on a numeric keypad by a robot
    arm, which is steered from a directional keypad by another robot, and so
    on up a stack of robots. Moving between two keys takes an L-shaped run of
    arrow presses that never passes over the keypad's blank corner; the cost
    of a press at one layer is the cheapest way the layer above can produce
    it. */
module Day21 {
  import opened Common

  // ---------------------------------------------------------------------------
  // Keypads

  /** A key position: column, then row counted upwards from the bottom. */
  type Place = (int, int)

  /** `Keypad`: where each key sits, and the gap the arm must never cross. */
  datatype Keypad = Keypad(keys: map<char, Place>, blank: Place)

  /** `Keypad::numeric`. */
  function Numeric(): Keypad
  {
    Keypad(map['0' := (1, 0), 'A' := (2, 0),
               '1' := (0, 1), '2' := (1, 1), '3' := (2, 1),
               '4' := (0, 2), '5' := (1, 2), '6' := (2, 2),
               '7' := (0, 3), '8' := (1, 3), '9' := (2, 3)],
           (0, 0))
  }

  /** `Keypad::directional`. */
  function Directional(): Keypad
  {
    Keypad(map['<' := (0, 0), 'v' := (1, 0), '>' := (2, 0),
               '^' := (1, 1), 'A' := (2, 1)],
           (0, 1))
  }

  /** No two keys share a place. */
  predicate Injective(keys: map<char, Place>)
  {
    forall a, b :: a in keys && b in keys && keys[a] == keys[b] ==> a == b
  }

  /** A map that some function undoes is injective. */
  lemma InjectiveByInverse(keys: map<char, Place>, back: Place -> char)
    requires forall k :: k in keys ==> back(keys[k]) == k
    ensures Injective(keys)
  {
  }

  predicate InRect(p: Place, width: int, height: int)
  {
    0 <= p.0 < width && 0 <= p.1 < height
  }

  /** The keys fill a `width` by `height` rectangle except for the blank,
      which sits in the left column, in the bottom or the top row. */
  ghost predicate Layout(kp: Keypad, width: int, height: int)
  {
    && kp.blank.0 == 0 && (kp.blank.1 == 0 || kp.blank.1 == height - 1)
    && (forall k :: k in kp.keys ==> InRect(kp.keys[k], width, height) && kp.keys[k] != kp.blank)
    && (forall p :: InRect(p, width, height) && p != kp.blank ==> p in kp.keys.Values)
  }

  /** The key of the numeric keypad at a place of its rectangle. */
  function NumericKeyAt(p: Place): char
  {
    var row := if p.1 == 0 then "_0A" else if p.1 == 1 then "123" else if p.1 == 2 then "456" else "789";
    if 0 <= p.0 < 3 then row[p.0] else ' '
  }

  lemma NumericPlaces()
    ensures var keys := Numeric().keys;
      forall k | k in keys :: NumericKeyAt(keys[k]) == k && InRect(keys[k], 3, 4) && keys[k] != (0, 0)
  {
  }

  lemma NumericLayout()
    ensures Injective(Numeric().keys) && Layout(Numeric(), 3, 4)
  {
    var keys := Numeric().keys;
    NumericPlaces();
    InjectiveByInverse(keys, NumericKeyAt);
    forall p: Place | InRect(p, 3, 4) && p != (0, 0)
      ensures p in keys.Values
    {
      assert keys[NumericKeyAt(p)] == p;
    }
  }

  /** The key of the directional keypad at a place of its rectangle. */
  function DirectionalKeyAt(p: Place): char
  {
    if p.1 == 1 then (if p.0 == 1 then '^' else 'A')
    else if p.0 == 0 then '<' else if p.0 == 1 then 'v' else '>'
  }

  lemma DirectionalLayout()
    ensures Injective(Directional().keys) && Layout(Directional(), 3, 2)
  {
    var keys := Directional().keys;
    forall k | k in keys
      ensures DirectionalKeyAt(keys[k]) == k && InRect(keys[k], 3, 2) && keys[k] != (0, 1)
    {
    }
    InjectiveByInverse(keys, DirectionalKeyAt);
    forall p: Place | InRect(p, 3, 2) && p != (0, 1)
      ensures p in keys.Values
    {
      assert keys[DirectionalKeyAt(p)] == p;
    }
  }

  // ---------------------------------------------------------------------------
  // Moves between keys

  /** The arrow buttons and 'A', in the order the cost tables list them. */
  const Buttons: string := "><^vA"

  predicate IsArrow(c: char)
  {
    c == '>' || c == '<' || c == '^' || c == 'v'
  }

  predicate IsButton(c: char)
  {
    IsArrow(c) || c == 'A'
  }

  /** Every character is a button of the directional keypad. */
  predicate Presses(s: string)
  {
    forall i :: 0 <= i < |s| ==> IsButton(s[i])
  }

  /** `x_sym`: right for a move that does not go left. */
  function XSym(dx: int): char
  {
    if dx >= 0 then '>' else '<'
  }

  /** `y_sym`: up for a move that does not go down. */
  function YSym(dy: int): char
  {
    if dy >= 0 then '^' else 'v'
  }

  /** The horizontal run from `f` to `d`, then the vertical one, then 'A';
      it turns at the corner `(d.0, f.1)`. */
  function Across(f: Place, d: Place): string
  {
    Repeat(XSym(d.0 - f.0), Abs(d.0 - f.0)) + Repeat(YSym(d.1 - f.1), Abs(d.1 - f.1)) + "A"
  }

  /** The vertical run from `f` to `d`, then the horizontal one, then 'A';
      it turns at the corner `(f.0, d.1)`. */
  function Up(f: Place, d: Place): string
  {
    Repeat(YSym(d.1 - f.1), Abs(d.1 - f.1)) + Repeat(XSym(d.0 - f.0), Abs(d.0 - f.0)) + "A"
  }

  /** `Keypad::get_sequences`: from the key `from`, the ways to reach `key`
      and press it. */
  function GetSequences(kp: Keypad, from: char, key: char): (r: seq<string>)
    requires from in kp.keys && key in kp.keys
    ensures 1 <= |r| <= 2 && forall s :: s in r ==> Presses(s)
  {
    var f := kp.keys[from];
    var d := kp.keys[key];
    Shape(f, d);
    if kp.blank.0 == f.0 && kp.blank.1 == d.1 then
      [Across(f, d)]
    else if kp.blank.1 == f.1 && kp.blank.0 == d.0 then
      [Up(f, d)]
    else if d.0 - f.0 != 0 && d.1 - f.1 != 0 then
      [Up(f, d), Across(f, d)]
    else
      [Up(f, d)]
  }

  /** Each sequence `get_sequences` offers is one of the two L-shaped orders,
      takes as few presses as the distance allows and turns at a corner
      that is not the blank; there are two exactly when both runs are
      non-empty and neither corner is the blank. */
  lemma SequencesShape(kp: Keypad, from: char, key: char)
    requires from in kp.keys && key in kp.keys
    ensures var (f, d) := (kp.keys[from], kp.keys[key]);
      var r := GetSequences(kp, from, key);
      && (forall s :: s in r ==>
            || (s == Across(f, d) && (f == d || kp.blank != (d.0, f.1)))
            || (s == Up(f, d) && kp.blank != (f.0, d.1)))
      && (|r| == 2 <==> f.0 != d.0 && f.1 != d.1 && kp.blank != (d.0, f.1) && kp.blank != (f.0, d.1))
      && (|r| == 2 ==> r[0] != r[1])
      && (forall s :: s in r ==> Pressing(s, f, d))
  {
    var f, d := kp.keys[from], kp.keys[key];
    Shape(f, d);
    if !(kp.blank.0 == f.0 && kp.blank.1 == d.1) && !(kp.blank.1 == f.1 && kp.blank.0 == d.0) && d.0 - f.0 != 0 && d.1 - f.1 != 0 {
      assert Up(f, d)[0] != Across(f, d)[0];
    }
  }

  /** Where the arrows of `s` take the arm, relative to where it starts. */
  function Net(s: string): Place
  {
    if s == [] then (0, 0) else Shift(Net(s[1..]), s[0], 1)
  }

  /** A shortest way to go from the place `f` to the place `d` and press:
      arrows that add up to the distance, as few as that takes, then 'A'. */
  predicate Pressing(s: string, f: Place, d: Place)
  {
    && |s| == Abs(d.0 - f.0) + Abs(d.1 - f.1) + 1 && s[|s| - 1] == 'A' && Presses(s)
    && Net(s) == (d.0 - f.0, d.1 - f.1)
  }

  /** Both orders of the two runs go the right way. */
  lemma Shape(f: Place, d: Place)
    ensures Pressing(Across(f, d), f, d) && Pressing(Up(f, d), f, d)
  {
    var xs, ys := XSym(d.0 - f.0), YSym(d.1 - f.1);
    var nx, ny := Abs(d.0 - f.0), Abs(d.1 - f.1);
    var x, y := Repeat(xs, nx), Repeat(ys, ny);
    RunPresses(xs, nx);
    RunPresses(ys, ny);
    NetRun(xs, nx);
    NetRun(ys, ny);
    ShiftRuns((0, 0), d.0 - f.0, d.1 - f.1);
    Joined(x, y);
    Joined(y, x);
  }

  /** A run of `n` presses of `c` moves the arm `n` places. */
  lemma {:induction false} NetRun(c: char, n: nat)
    ensures Net(Repeat(c, n)) == Shift((0, 0), c, n)
  {
    if n > 0 {
      NetRun(c, n - 1);
      assert Repeat(c, n)[1..] == Repeat(c, n - 1);
    }
  }

  /** The arrows of two runs and an 'A' add up. */
  lemma {:induction false} Joined(a: string, b: string)
    requires Presses(a) && Presses(b)
    ensures Presses(a + b + "A") && (a + b + "A")[|a| + |b|] == 'A'
    ensures Net(a + b + "A") == (Net(a).0 + Net(b).0, Net(a).1 + Net(b).1)
  {
    PressesJoin(a, b);
    assert Presses("A");
    PressesJoin(a + b, "A");
    NetJoin(a, b + "A");
    NetJoin(b, "A");
    assert a + b + "A" == a + (b + "A");
  }

  lemma {:induction false} NetJoin(a: string, b: string)
    ensures Net(a + b) == (Net(a).0 + Net(b).0, Net(a).1 + Net(b).1)
  {
    if a != [] {
      NetJoin(a[1..], b);
      assert (a + b)[1..] == a[1..] + b;
    } else {
      assert a + b == b;
    }
  }

  lemma {:induction false} RunPresses(c: char, n: nat)
    requires IsButton(c)
    ensures Presses(Repeat(c, n))
  {
  }

  lemma PressesJoin(a: string, b: string)
    requires Presses(a) && Presses(b)
    ensures Presses(a + b)
  {
    forall i | 0 <= i < |a + b|
      ensures IsButton((a + b)[i])
    {
      if i < |a| {
        assert (a + b)[i] == a[i];
      } else {
        assert (a + b)[i] == b[i - |a|];
      }
    }
  }

  // ---------------------------------------------------------------------------
  // Replaying presses

  /** The key at each place (`keys_by_pos`). */
  function ByPos(keys: map<char, Place>): (r: map<Place, char>)
    requires Injective(keys)
    ensures r.Keys == keys.Values
    ensures forall k :: k in keys ==> keys[k] in r && r[keys[k]] == k
  {
    var r := map p | p in keys.Values :: var k :| k in keys && keys[k] == p; k;
    assert forall k :: k in keys ==> keys[k] in r && r[keys[k]] == k by {
      forall k | k in keys
        ensures keys[k] in r && r[keys[k]] == k
      {
        assert keys[k] in keys.Values;
        var k' := r[keys[k]];
        assert k' in keys && keys[k'] == keys[k];
      }
    }
    r
  }

  /** The unit step of an arrow button; 'A' and anything else stay put. */
  function Shift(p: Place, m: char, n: int): Place
  {
    match m
    case '>' => (p.0 + n, p.1)
    case '<' => (p.0 - n, p.1)
    case '^' => (p.0, p.1 + n)
    case 'v' => (p.0, p.1 - n)
    case _ => p
  }

  /** What pressing `moves` with the arm over `pos` types: each 'A' types the
      key under the arm, each arrow moves it one place; an unknown character
      or a move off the keys gives nothing. */
  function Run(byPos: map<Place, char>, pos: Place, moves: string): (r: Option<string>)
    decreases |moves|
  {
    if moves == [] then Some([])
    else if moves[0] == 'A' then
      if pos !in byPos then None
      else match Run(byPos, pos, moves[1..])
        case None => None
        case Some(out) => Some([byPos[pos]] + out)
    else if !IsArrow(moves[0]) then None
    else if Shift(pos, moves[0], 1) !in byPos then None
    else Run(byPos, Shift(pos, moves[0], 1), moves[1..])
  }

  /** `out` followed by what a replay types, if it gets through. */
  function Prepend(out: string, r: Option<string>): Option<string>
  {
    match r
    case None => None
    case Some(rest) => Some(out + rest)
  }

  lemma PrependPush(out: string, k: char, r: Option<string>)
    ensures Prepend(out, match r case None => None case Some(rest) => Some([k] + rest)) == Prepend(out + [k], r)
  {
    if r.Some? {
      assert out + ([k] + r.value) == out + [k] + r.value;
    }
  }

  /** `Keypad::replay`: the presses typed from the 'A' key. */
  method Replay(kp: Keypad, moves: string) returns (r: Option<string>)
    requires Injective(kp.keys) && 'A' in kp.keys
    ensures r == Run(ByPos(kp.keys), kp.keys['A'], moves)
  {
    var byPos := ByPos(kp.keys);
    var output := "";
    var pos := kp.keys['A'];
    ghost var whole := Run(byPos, pos, moves);
    assert moves[0..] == moves;
    assert whole == Prepend(output, whole) by {
      if whole.Some? {
        assert output + whole.value == whole.value;
      }
    }
    for i := 0 to |moves|
      invariant whole == Prepend(output, Run(byPos, pos, moves[i..]))
    {
      assert moves[i..][1..] == moves[i + 1..];
      var m := moves[i];
      if m == 'A' {
        if pos !in byPos {
          return None;
        }
        PrependPush(output, byPos[pos], Run(byPos, pos, moves[i + 1..]));
        output := output + [byPos[pos]];
      } else {
        var unit: Place;
        match m {
          case '>' => unit := (1, 0);
          case '<' => unit := (-1, 0);
          case '^' => unit := (0, 1);
          case 'v' => unit := (0, -1);
          case _ => return None;
        }
        pos := (pos.0 + unit.0, pos.1 + unit.1);
        if pos !in byPos {
          return None;
        }
      }
    }
    assert moves[|moves|..] == [];
    assert output + [] == output;
    return Some(output);
  }

  /** A replay that gets through types one key per 'A'. */
  lemma {:induction false} RunOutput(byPos: map<Place, char>, pos: Place, moves: string)
    requires Run(byPos, pos, moves).Some?
    ensures |Run(byPos, pos, moves).value| == Count(moves, 'A')
    decreases |moves|
  {
    if moves != [] {
      RunOutput(byPos, Shift(pos, moves[0], 1), moves[1..]);
      assert moves == [moves[0]] + moves[1..];
    }
  }

  /** A replay fails on any character that is not a button. */
  lemma {:induction false} RunRejects(byPos: map<Place, char>, pos: Place, moves: string, i: nat)
    requires i < |moves| && !IsButton(moves[i])
    ensures Run(byPos, pos, moves) == None
    decreases |moves|
  {
    if i > 0 && IsButton(moves[0]) {
      RunRejects(byPos, Shift(pos, moves[0], 1), moves[1..], i - 1);
    }
  }

  /** `n` presses of one arrow walk `n` places in its direction, as long as
      every place on the way holds a key. */
  lemma {:induction false} RunStraight(byPos: map<Place, char>, pos: Place, m: char, n: nat, rest: string)
    requires IsArrow(m)
    requires forall i :: 1 <= i <= n ==> Shift(pos, m, i) in byPos
    ensures Run(byPos, pos, Repeat(m, n) + rest) == Run(byPos, Shift(pos, m, n), rest)
    decreases n
  {
    if n > 0 {
      var next := Shift(pos, m, 1);
      var moves := Repeat(m, n) + rest;
      assert moves[0] == m && m != 'A';
      assert moves[1..] == Repeat(m, n - 1) + rest;
      assert Run(byPos, pos, moves) == Run(byPos, next, moves[1..]);
      forall i | 1 <= i <= n - 1
        ensures Shift(next, m, i) in byPos
      {
        assert Shift(next, m, i) == Shift(pos, m, i + 1);
      }
      RunStraight(byPos, next, m, n - 1, rest);
      assert Shift(next, m, n - 1) == Shift(pos, m, n);
    } else {
      assert Repeat(m, 0) + rest == rest;
      assert Shift(pos, m, 0) == pos;
    }
  }

  /** The arrow of a run of `Abs(delta)` presses covers `delta` along its axis. */
  lemma ShiftRuns(p: Place, dx: int, dy: int)
    ensures Shift(p, XSym(dx), Abs(dx)) == (p.0 + dx, p.1)
    ensures Shift(p, YSym(dy), Abs(dy)) == (p.0, p.1 + dy)
  {
  }

  /** A place of the rectangle other than the blank holds a key. */
  lemma OnKeys(kp: Keypad, width: int, height: int, p: Place)
    requires Injective(kp.keys) && Layout(kp, width, height)
    requires InRect(p, width, height) && p != kp.blank
    ensures p in ByPos(kp.keys)
  {
  }

  /** Pressing 'A' over the key `key` types it. */
  lemma PressKey(kp: Keypad, key: char)
    requires Injective(kp.keys) && key in kp.keys
    ensures Run(ByPos(kp.keys), kp.keys[key], "A") == Some([key])
  {
    var byPos := ByPos(kp.keys);
    var d := kp.keys[key];
    assert "A"[1..] == [] && "A"[0] == 'A';
    assert d in byPos && byPos[d] == key;
    assert Run(byPos, d, []) == Some([]);
    assert [key] + [] == [key];
  }

  /** The horizontal run, then the vertical one, types `key` unless the
      corner it turns at is the blank. */
  lemma AcrossTypes(kp: Keypad, width: int, height: int, from: char, key: char)
    requires Injective(kp.keys) && Layout(kp, width, height)
    requires from in kp.keys && key in kp.keys
    requires kp.blank != (kp.keys[key].0, kp.keys[from].1)
    ensures Run(ByPos(kp.keys), kp.keys[from], Across(kp.keys[from], kp.keys[key])) == Some([key])
  {
    var byPos := ByPos(kp.keys);
    var f, d := kp.keys[from], kp.keys[key];
    var (dx, dy) := (d.0 - f.0, d.1 - f.1);
    var xs, ys := XSym(dx), YSym(dy);
    var corner := (d.0, f.1);
    ShiftRuns(f, dx, dy);
    ShiftRuns(corner, dx, dy);
    forall i | 1 <= i <= Abs(dx)
      ensures Shift(f, xs, i) in byPos
    {
      OnKeys(kp, width, height, Shift(f, xs, i));
    }
    forall i | 1 <= i <= Abs(dy)
      ensures Shift(corner, ys, i) in byPos
    {
      OnKeys(kp, width, height, Shift(corner, ys, i));
    }
    var x, y := Repeat(xs, Abs(dx)), Repeat(ys, Abs(dy));
    assert Across(f, d) == x + (y + "A");
    RunStraight(byPos, f, xs, Abs(dx), y + "A");
    RunStraight(byPos, corner, ys, Abs(dy), "A");
    PressKey(kp, key);
  }

  /** The vertical run, then the horizontal one, types `key` unless the
      corner it turns at is the blank. */
  lemma UpTypes(kp: Keypad, width: int, height: int, from: char, key: char)
    requires Injective(kp.keys) && Layout(kp, width, height)
    requires from in kp.keys && key in kp.keys
    requires kp.blank != (kp.keys[from].0, kp.keys[key].1)
    ensures Run(ByPos(kp.keys), kp.keys[from], Up(kp.keys[from], kp.keys[key])) == Some([key])
  {
    var byPos := ByPos(kp.keys);
    var f, d := kp.keys[from], kp.keys[key];
    var (dx, dy) := (d.0 - f.0, d.1 - f.1);
    var xs, ys := XSym(dx), YSym(dy);
    var corner := (f.0, d.1);
    ShiftRuns(f, dx, dy);
    ShiftRuns(corner, dx, dy);
    forall i | 1 <= i <= Abs(dy)
      ensures Shift(f, ys, i) in byPos
    {
      OnKeys(kp, width, height, Shift(f, ys, i));
    }
    forall i | 1 <= i <= Abs(dx)
      ensures Shift(corner, xs, i) in byPos
    {
      OnKeys(kp, width, height, Shift(corner, xs, i));
    }
    var x, y := Repeat(xs, Abs(dx)), Repeat(ys, Abs(dy));
    assert Up(f, d) == y + (x + "A");
    RunStraight(byPos, f, ys, Abs(dy), x + "A");
    RunStraight(byPos, corner, xs, Abs(dx), "A");
    PressKey(kp, key);
  }

  /** Every sequence `get_sequences` offers, pressed with the arm over
      `from`, types exactly `key`: on a keypad laid out like the real ones,
      the L-shaped runs it offers never pass over the blank. */
  lemma SequencesType(kp: Keypad, width: int, height: int, from: char, key: char)
    requires Injective(kp.keys) && Layout(kp, width, height)
    requires from in kp.keys && key in kp.keys
    ensures forall s :: s in GetSequences(kp, from, key) ==>
      Run(ByPos(kp.keys), kp.keys[from], s) == Some([key])
  {
    var f, d := kp.keys[from], kp.keys[key];
    SequencesShape(kp, from, key);
    if kp.blank != (d.0, f.1) {
      AcrossTypes(kp, width, height, from, key);
    }
    if kp.blank != (f.0, d.1) {
      UpTypes(kp, width, height, from, key);
    }
  }

  /** A run of one arrow whose `n`-th place is off the keys fails there. */
  lemma {:induction false} RunBlocked(byPos: map<Place, char>, pos: Place, m: char, n: nat, rest: string)
    requires IsArrow(m) && 1 <= n
    requires forall i :: 1 <= i < n ==> Shift(pos, m, i) in byPos
    requires Shift(pos, m, n) !in byPos
    ensures Run(byPos, pos, Repeat(m, n) + rest) == None
    decreases n
  {
    var next := Shift(pos, m, 1);
    var moves := Repeat(m, n) + rest;
    assert moves[0] == m && m != 'A';
    assert moves[1..] == Repeat(m, n - 1) + rest;
    if n > 1 {
      forall i | 1 <= i < n - 1
        ensures Shift(next, m, i) in byPos
      {
        assert Shift(next, m, i) == Shift(pos, m, i + 1);
      }
      assert Shift(next, m, n - 1) == Shift(pos, m, n);
      RunBlocked(byPos, next, m, n - 1, rest);
    }
  }

  /** With the blank at its corner, the horizontal-first order runs into it. */
  lemma AcrossBlocked(kp: Keypad, width: int, height: int, from: char, key: char)
    requires Injective(kp.keys) && Layout(kp, width, height)
    requires from in kp.keys && key in kp.keys
    requires kp.blank == (kp.keys[key].0, kp.keys[from].1)
    ensures Run(ByPos(kp.keys), kp.keys[from], Across(kp.keys[from], kp.keys[key])) == None
  {
    var byPos := ByPos(kp.keys);
    var f, d := kp.keys[from], kp.keys[key];
    var dx, dy := d.0 - f.0, d.1 - f.1;
    var xs := XSym(dx);
    assert kp.blank != f;
    ShiftRuns(f, dx, dy);
    forall i | 1 <= i < Abs(dx)
      ensures Shift(f, xs, i) in byPos
    {
      OnKeys(kp, width, height, Shift(f, xs, i));
    }
    var y := Repeat(YSym(dy), Abs(dy));
    assert Across(f, d) == Repeat(xs, Abs(dx)) + (y + "A");
    RunBlocked(byPos, f, xs, Abs(dx), y + "A");
  }

  /** With the blank at its corner, the vertical-first order runs into it. */
  lemma UpBlocked(kp: Keypad, width: int, height: int, from: char, key: char)
    requires Injective(kp.keys) && Layout(kp, width, height)
    requires from in kp.keys && key in kp.keys
    requires kp.blank == (kp.keys[from].0, kp.keys[key].1)
    ensures Run(ByPos(kp.keys), kp.keys[from], Up(kp.keys[from], kp.keys[key])) == None
  {
    var byPos := ByPos(kp.keys);
    var f, d := kp.keys[from], kp.keys[key];
    var dx, dy := d.0 - f.0, d.1 - f.1;
    var ys := YSym(dy);
    assert kp.blank != f;
    ShiftRuns(f, dx, dy);
    forall i | 1 <= i < Abs(dy)
      ensures Shift(f, ys, i) in byPos
    {
      OnKeys(kp, width, height, Shift(f, ys, i));
    }
    var x := Repeat(XSym(dx), Abs(dx));
    assert Up(f, d) == Repeat(ys, Abs(dy)) + (x + "A");
    RunBlocked(byPos, f, ys, Abs(dy), x + "A");
  }

  /** When one of the runs is empty the two orders are the same. */
  lemma Straight(f: Place, d: Place)
    requires f.0 == d.0 || f.1 == d.1
    ensures Across(f, d) == Up(f, d)
  {
    var x, y := Repeat(XSym(d.0 - f.0), Abs(d.0 - f.0)), Repeat(YSym(d.1 - f.1), Abs(d.1 - f.1));
    assert x == [] || y == [];
    assert x + y == y + x;
  }

  /** `get_sequences` offers an L-shaped order exactly when pressing it
      from `from` types `key`: nothing that works is left out. */
  lemma Offered(kp: Keypad, width: int, height: int, from: char, key: char)
    requires Injective(kp.keys) && Layout(kp, width, height)
    requires from in kp.keys && key in kp.keys
    ensures var f, d := kp.keys[from], kp.keys[key];
      && (Across(f, d) in GetSequences(kp, from, key) <==> Run(ByPos(kp.keys), f, Across(f, d)) == Some([key]))
      && (Up(f, d) in GetSequences(kp, from, key) <==> Run(ByPos(kp.keys), f, Up(f, d)) == Some([key]))
  {
    var f, d := kp.keys[from], kp.keys[key];
    var r := GetSequences(kp, from, key);
    SequencesShape(kp, from, key);
    SequencesType(kp, width, height, from, key);
    if f.0 == d.0 || f.1 == d.1 {
      Straight(f, d);
      assert r[0] in r;
    } else {
      if kp.blank == (d.0, f.1) {
        AcrossBlocked(kp, width, height, from, key);
      } else {
        assert Across(f, d) in r;
      }
      if kp.blank == (f.0, d.1) {
        UpBlocked(kp, width, height, from, key);
      } else {
        assert Up(f, d) in r;
      }
    }
  }

  // ---------------------------------------------------------------------------
  // Robot stacks

  /** `RobotStack`: for the button pressed last and the button wanted next,
      what the person at the top of the stack pays to get the next one
      pressed at the bottom. */
  datatype RobotStack = RobotStack(costs: map<(char, char), nat>)

  /** Where a button sits in `Buttons`. */
  function ButtonIndex(c: char): (x: nat)
    requires IsButton(c)
    ensures x < |Buttons| && Buttons[x] == c
  {
    if c == '>' then 0 else if c == '<' then 1 else if c == '^' then 2 else if c == 'v' then 3 else 4
  }

  /** The buttons are exactly the keys of the directional keypad. */
  lemma DirectionalButtons(c: char)
    ensures c in Directional().keys <==> IsButton(c)
  {
  }

  /** The table prices every pair of buttons. */
  ghost predicate Covers(st: RobotStack)
  {
    forall p: (char, char) {:trigger p in st.costs} :: IsButton(p.0) && IsButton(p.1) ==> p in st.costs
  }

  /** `RobotStack::empty`: the person presses the buttons directly, one
      press each. */
  function Empty(): (r: RobotStack)
    ensures Covers(r)
    ensures forall p :: p in r.costs ==> r.costs[p] == 1
  {
    var one := (a: char, b: char) => 1;
    var t := Table(one);
    assert forall p :: p in t ==> t[p] == 1 by {
      forall p | p in t
        ensures t[p] == 1
      {
        TableEntry(one, p);
      }
    }
    RobotStack(t)
  }

  /** The cost of pressing `s` at the bottom, the previous press having
      been `prev`. */
  function SeqCostFrom(st: RobotStack, prev: char, s: string): nat
    requires Covers(st) && IsButton(prev) && Presses(s)
    decreases |s|
  {
    if s == [] then 0 else st.costs[(prev, s[0])] + SeqCostFrom(st, s[0], s[1..])
  }

  /** `RobotStack::cost_of_seq`: every robot starts over the 'A' button. */
  method CostOfSeq(st: RobotStack, s: string) returns (cost: nat)
    requires Covers(st) && Presses(s)
    ensures cost == SeqCostFrom(st, 'A', s)
  {
    var prev := 'A';
    cost := 0;
    assert s[0..] == s;
    for i := 0 to |s|
      invariant IsButton(prev)
      invariant cost + SeqCostFrom(st, prev, s[i..]) == SeqCostFrom(st, 'A', s)
    {
      assert s[i..][1..] == s[i + 1..];
      cost := cost + st.costs[(prev, s[i])];
      prev := s[i];
    }
  }

  /** `RobotStack::cost_to_move_and_press`: the cheapest of the ways
      `get_sequences` offers to press `sym` with the arm over `from`. */
  function CostToMoveAndPress(st: RobotStack, kp: Keypad, from: char, sym: char): (r: nat)
    requires Covers(st) && from in kp.keys && sym in kp.keys
  {
    var seqs := GetSequences(kp, from, sym);
    var first := SeqCostFrom(st, 'A', seqs[0]);
    if |seqs| == 1 then first
    else
      var second := SeqCostFrom(st, 'A', seqs[1]);
      if second < first then second else first
  }

  /** The cost of moving and pressing is that of one of the offered
      sequences, and no offered sequence is cheaper. */
  lemma {:induction false} Cheapest(st: RobotStack, kp: Keypad, from: char, sym: char)
    requires Covers(st) && from in kp.keys && sym in kp.keys
    ensures var r := CostToMoveAndPress(st, kp, from, sym);
      && (exists s :: s in GetSequences(kp, from, sym) && r == SeqCostFrom(st, 'A', s))
      && (forall s :: s in GetSequences(kp, from, sym) ==> r <= SeqCostFrom(st, 'A', s))
  {
    var seqs := GetSequences(kp, from, sym);
    assert seqs[0] in seqs;
    if |seqs| == 2 {
      assert seqs[1] in seqs;
    }
  }

  /** A cost table with an entry for each pair of buttons. */
  function Table(price: (char, char) -> nat): (t: map<(char, char), nat>)
    ensures forall p {:trigger p in t} :: p in t <==> IsButton(p.0) && IsButton(p.1)
    ensures forall p {:trigger price(p.0, p.1)} :: p in t ==> t[p] == price(p.0, p.1)
  {
    FilledAll(price);
    Filled(price, |Buttons|, 0)
  }

  /** Looking up a pair in a table gives its price. */
  lemma TableEntry(price: (char, char) -> nat, p: (char, char))
    requires p in Table(price)
    ensures Table(price)[p] == price(p.0, p.1)
  {
  }

  /** `RobotStack::add_robot`: one more robot above the stack `st`, working
      a directional keypad. */
  function Added(st: RobotStack): (r: RobotStack)
    requires Covers(st)
    ensures Covers(r)
  {
    RobotStack(Table(Price(st)))
  }

  /** Each entry of the added layer is the cheapest way the stack below
      can make the robot above move and press. */
  lemma AddedEntry(st: RobotStack, a: char, b: char)
    requires Covers(st) && IsButton(a) && IsButton(b)
    ensures Added(st).costs[(a, b)] == CostToMoveAndPress(st, Directional(), a, b)
  {
    assert Price(st)(a, b) == CostToMoveAndPress(st, Directional(), a, b);
  }

  /** What `add_robot` stores for a pair of buttons above the stack `st`. */
  function Price(st: RobotStack): (char, char) -> nat
    requires Covers(st)
  {
    (a, b) => if IsButton(a) && IsButton(b) then CostToMoveAndPress(st, Directional(), a, b) else 0
  }

  /** The table `add_robot` holds once it has filled the rows of the first
      `i` buttons and the first `j` entries of the next row. */
  function Filled(price: (char, char) -> nat, i: nat, j: nat): map<(char, char), nat>
    requires i <= |Buttons| && j <= |Buttons| && (i < |Buttons| || j == 0)
    decreases i, j
  {
    if j > 0 then
      var a, b := Buttons[i], Buttons[j - 1];
      Filled(price, i, j - 1)[(a, b) := price(a, b)]
    else if i > 0 then Filled(price, i - 1, |Buttons|)
    else map[]
  }

  /** `RobotStack::add_robot` as written: a row of the table for each button
      pressed last, an entry of the row for each button wanted next. */
  method AddRobot(implement: RobotStack) returns (r: RobotStack)
    requires Covers(implement)
    ensures r == Added(implement)
  {
    ghost var price := Price(implement);
    var costs: map<(char, char), nat> := map[];
    for i := 0 to |Buttons|
      invariant costs == Filled(price, i, 0)
    {
      costs := AddRow(implement, price, costs, i);
    }
    r := RobotStack(costs);
  }

  /** The row of `add_robot`'s table for the `i`-th button pressed last. */
  method AddRow(implement: RobotStack, ghost price: (char, char) -> nat,
                costs: map<(char, char), nat>, i: nat)
    returns (row: map<(char, char), nat>)
    requires Covers(implement) && price == Price(implement)
    requires i < |Buttons| && costs == Filled(price, i, 0)
    ensures row == Filled(price, i + 1, 0)
  {
    var keypad := Directional();
    var from := Buttons[i];
    row := costs;
    for j := 0 to |Buttons|
      invariant row == Filled(price, i, j)
    {
      var to := Buttons[j];
      var cost := PriceEntry(implement, price, keypad, from, to);
      row := row[(from, to) := cost];
    }
  }

  /** `implement.cost_to_move_and_press(&keypad, from, to)` in `add_robot`. */
  method PriceEntry(implement: RobotStack, ghost price: (char, char) -> nat, keypad: Keypad, from: char, to: char)
    returns (cost: nat)
    requires Covers(implement) && price == Price(implement) && keypad == Directional()
    requires IsButton(from) && IsButton(to)
    ensures cost == price(from, to)
  {
    cost := CostToMoveAndPress(implement, keypad, from, to);
  }

  /** The partly filled table holds pairs of buttons at their prices. */
  lemma {:induction false} FilledValues(price: (char, char) -> nat, i: nat, j: nat)
    requires i <= |Buttons| && j <= |Buttons| && (i < |Buttons| || j == 0)
    ensures forall p :: p in Filled(price, i, j) ==>
      IsButton(p.0) && IsButton(p.1) && Filled(price, i, j)[p] == price(p.0, p.1)
    decreases i, j
  {
    if j > 0 {
      FilledValues(price, i, j - 1);
    } else if i > 0 {
      FilledValues(price, i - 1, |Buttons|);
    }
  }

  /** The partly filled table holds the entries of the rows filled so far. */
  lemma {:induction false} FilledKeys(price: (char, char) -> nat, i: nat, j: nat)
    requires i <= |Buttons| && j <= |Buttons| && (i < |Buttons| || j == 0)
    ensures forall x, y :: 0 <= x < i && 0 <= y < |Buttons| ==> (Buttons[x], Buttons[y]) in Filled(price, i, j)
    ensures forall y :: 0 <= y < j ==> (Buttons[i], Buttons[y]) in Filled(price, i, j)
    decreases i, j
  {
    if j > 0 {
      FilledKeys(price, i, j - 1);
    } else if i > 0 {
      FilledKeys(price, i - 1, |Buttons|);
    }
  }

  /** Once every row is filled the table holds every pair of buttons, each
      at its price. */
  lemma FilledAll(price: (char, char) -> nat)
    ensures forall p {:trigger p in Filled(price, |Buttons|, 0)} ::
      p in Filled(price, |Buttons|, 0) <==> IsButton(p.0) && IsButton(p.1)
    ensures forall p {:trigger price(p.0, p.1)} ::
      p in Filled(price, |Buttons|, 0) ==> Filled(price, |Buttons|, 0)[p] == price(p.0, p.1)
  {
    var f := Filled(price, |Buttons|, 0);
    FilledValues(price, |Buttons|, 0);
    FilledKeys(price, |Buttons|, 0);
    forall p: (char, char) | IsButton(p.0) && IsButton(p.1)
      ensures p in f
    {
      assert (Buttons[ButtonIndex(p.0)], Buttons[ButtonIndex(p.1)]) in f;
    }
  }

  /** The cost table with `depth` robots between the person and the
      numeric keypad's robot. */
  function Layer(depth: nat): (r: RobotStack)
    ensures Covers(r)
  {
    if depth == 0 then Empty() else Added(Layer(depth - 1))
  }

  /** `RobotStack::new`. */
  method New(depth: nat) returns (stack: RobotStack)
    ensures stack == Layer(depth)
  {
    stack := Empty();
    for i := 0 to depth
      invariant stack == Layer(i)
    {
      var nextLayer := AddRobot(stack);
      stack := nextLayer;
    }
  }

  /** With no robot in between, a sequence costs one per press. */
  lemma {:induction false} EmptyCost(prev: char, s: string)
    requires IsButton(prev) && Presses(s)
    ensures SeqCostFrom(Empty(), prev, s) == |s|
    decreases |s|
  {
    if s != [] {
      EmptyCost(s[0], s[1..]);
    }
  }

  /** Pressing directly, moving to and pressing a key costs the distance the
      arm travels, plus one for the press. */
  lemma DirectCost(kp: Keypad, from: char, key: char)
    requires from in kp.keys && key in kp.keys
    ensures var f, d := kp.keys[from], kp.keys[key];
      CostToMoveAndPress(Empty(), kp, from, key) == Abs(d.0 - f.0) + Abs(d.1 - f.1) + 1
  {
    Cheapest(Empty(), kp, from, key);
    SequencesShape(kp, from, key);
    var s :| s in GetSequences(kp, from, key)
      && CostToMoveAndPress(Empty(), kp, from, key) == SeqCostFrom(Empty(), 'A', s);
    EmptyCost('A', s);
  }

  /** With one robot in between, a press costs the distance that robot's
      arm travels on the directional keypad, plus one for the press. */
  lemma FirstLayer(a: char, b: char)
    requires IsButton(a) && IsButton(b)
    ensures var f, d := Directional().keys[a], Directional().keys[b];
      Layer(1).costs[(a, b)] == Abs(d.0 - f.0) + Abs(d.1 - f.1) + 1
  {
    DirectionalButtons(a);
    DirectionalButtons(b);
    AddedEntry(Empty(), a, b);
    DirectCost(Directional(), a, b);
  }

  /** Every entry of the table costs at least one press. */
  predicate Positive(st: RobotStack)
  {
    forall p :: p in st.costs ==> st.costs[p] >= 1
  }

  /** With positive entries, a sequence costs at least one per press. */
  lemma {:induction false} AtLeastLength(st: RobotStack, prev: char, s: string)
    requires Covers(st) && Positive(st) && IsButton(prev) && Presses(s)
    ensures SeqCostFrom(st, prev, s) >= |s|
    decreases |s|
  {
    if s != [] {
      AtLeastLength(st, s[0], s[1..]);
    }
  }

  /** A robot above a stack whose entries are positive adds positive entries. */
  lemma AddedPositive(st: RobotStack)
    requires Covers(st) && Positive(st)
    ensures Positive(Added(st))
  {
    forall p | p in Added(st).costs
      ensures Added(st).costs[p] >= 1
    {
      var a, b := p.0, p.1;
      AddedEntry(st, a, b);
      DirectionalButtons(a);
      DirectionalButtons(b);
      Cheapest(st, Directional(), a, b);
      SequencesShape(Directional(), a, b);
      var s :| s in GetSequences(Directional(), a, b)
        && CostToMoveAndPress(st, Directional(), a, b) == SeqCostFrom(st, 'A', s);
      AtLeastLength(st, 'A', s);
    }
  }

  /** No entry of any layer is free. */
  lemma {:induction false} LayerPositive(depth: nat)
    ensures Positive(Layer(depth))
  {
    if depth > 0 {
      LayerPositive(depth - 1);
      assert Positive(Layer(depth - 1));
      AddedPositive(Layer(depth - 1));
    }
  }

  /** Every entry of `lo` is at most the same entry of `hi`. */
  ghost predicate Below(lo: RobotStack, hi: RobotStack)
    requires Covers(lo) && Covers(hi)
  {
    forall p: (char, char) {:trigger lo.costs[p]} {:trigger hi.costs[p]} ::
      IsButton(p.0) && IsButton(p.1) ==> lo.costs[p] <= hi.costs[p]
  }

  /** Dearer entries make every sequence dearer. */
  lemma {:induction false} SeqCostMono(lo: RobotStack, hi: RobotStack, prev: char, s: string)
    requires Covers(lo) && Covers(hi) && Below(lo, hi) && IsButton(prev) && Presses(s)
    ensures SeqCostFrom(lo, prev, s) <= SeqCostFrom(hi, prev, s)
    decreases |s|
  {
    if s != [] {
      SeqCostMono(lo, hi, s[0], s[1..]);
    }
  }

  /** Dearer entries make every move-and-press dearer. */
  lemma CostMono(lo: RobotStack, hi: RobotStack, kp: Keypad, from: char, sym: char)
    requires Covers(lo) && Covers(hi) && Below(lo, hi)
    requires from in kp.keys && sym in kp.keys
    ensures CostToMoveAndPress(lo, kp, from, sym) <= CostToMoveAndPress(hi, kp, from, sym)
  {
    Cheapest(lo, kp, from, sym);
    Cheapest(hi, kp, from, sym);
    var s :| s in GetSequences(kp, from, sym)
      && CostToMoveAndPress(hi, kp, from, sym) == SeqCostFrom(hi, 'A', s);
    SeqCostMono(lo, hi, 'A', s);
  }

  /** Robots above dearer stacks pay more. */
  lemma AddedMono(lo: RobotStack, hi: RobotStack)
    requires Covers(lo) && Covers(hi) && Below(lo, hi)
    ensures Below(Added(lo), Added(hi))
  {
    forall a, b | IsButton(a) && IsButton(b)
      ensures Added(lo).costs[(a, b)] <= Added(hi).costs[(a, b)]
    {
      AddedEntry(lo, a, b);
      AddedEntry(hi, a, b);
      DirectionalButtons(a);
      DirectionalButtons(b);
      CostMono(lo, hi, Directional(), a, b);
    }
  }

  /** The first robot never makes a press cheaper than pressing directly. */
  lemma FirstLayerGrows()
    ensures Below(Layer(0), Layer(1))
  {
    LayerPositive(1);
    var lo, hi := Empty(), Layer(1);
    forall p: (char, char) | IsButton(p.0) && IsButton(p.1)
      ensures lo.costs[p] <= hi.costs[p]
    {
    }
  }

  /** Another robot in the stack never makes a press cheaper. */
  lemma {:induction false} LayersGrow(depth: nat)
    ensures Below(Layer(depth), Layer(depth + 1))
  {
    if depth == 0 {
      FirstLayerGrows();
    } else {
      var lo, hi := Layer(depth - 1), Layer(depth);
      LayersGrow(depth - 1);
      AddedMono(lo, hi);
    }
  }

  /** The sequences `get_sequences` offers on the numeric keypad from 'A'
      in the puzzle's examples. */
  lemma ExampleSequences()
    ensures GetSequences(Numeric(), 'A', '3') == ["^A"]
    ensures GetSequences(Numeric(), 'A', '2') == ["^<A", "<^A"]
    ensures GetSequences(Numeric(), 'A', '1') == ["^<<A"]
  {
    assert Repeat('^', 1) == "^" && Repeat('<', 1) == "<" && Repeat('<', 2) == "<<";
    assert Up((2, 0), (2, 1)) == "^A";
    assert Up((2, 0), (1, 1)) == "^<A" && Across((2, 0), (1, 1)) == "<^A";
    assert Up((2, 0), (0, 1)) == "^<<A";
  }

  /** Between '1' and '9' both orders are offered. */
  lemma ExampleTwoOrders()
    ensures GetSequences(Numeric(), '1', '9') == ["^^>>A", ">>^^A"]
  {
    assert Repeat('^', 2) == "^^" && Repeat('>', 2) == ">>";
    assert Up((0, 1), (2, 3)) == "^^>>A" && Across((0, 1), (2, 3)) == ">>^^A";
  }

  /** The sequences `get_sequences` offers on the directional keypad in the
      puzzle's examples. */
  lemma DirectionalSequences()
    ensures GetSequences(Directional(), 'A', '<') == ["v<<A"]
    ensures GetSequences(Directional(), 'A', '^') == ["<A"]
    ensures GetSequences(Directional(), '<', 'A') == [">>^A"]
  {
    assert Repeat('<', 1) == "<" && Repeat('v', 1) == "v" && Repeat('^', 1) == "^";
    assert Repeat('<', 2) == "<<" && Repeat('>', 2) == ">>";
    assert Up((2, 1), (1, 1)) == "<A" && Up((2, 1), (0, 0)) == "v<<A" && Across((0, 0), (2, 1)) == ">>^A";
  }

  /** With one robot in between, the costs of the puzzle's sample
      sequences are the lengths of what the person types. */
  lemma ExampleSolo()
    ensures SeqCostFrom(Layer(1), 'A', "^") == 2
    ensures SeqCostFrom(Layer(1), 'A', "^^") == 3
    ensures SeqCostFrom(Layer(1), 'A', "^A") == 4
    ensures SeqCostFrom(Layer(1), 'A', "vA") == 6
    ensures SeqCostFrom(Layer(1), 'A', "<A") == 8
  {
    FirstLayer('A', '^');
    FirstLayer('^', '^');
    FirstLayer('^', 'A');
    FirstLayer('A', 'v');
    FirstLayer('v', 'A');
    FirstLayer('A', '<');
    FirstLayer('<', 'A');
  }

  /** A press with two robots in between, where `get_sequences` offers the
      one sequence `s`, costs what `s` costs with one robot. */
  lemma {:induction false} DuoEntry(a: char, b: char, s: string)
    requires IsButton(a) && IsButton(b) && Presses(s)
    requires GetSequences(Directional(), a, b) == [s]
    ensures Layer(2).costs[(a, b)] == SeqCostFrom(Layer(1), 'A', s)
  {
    var solo := Layer(1);
    assert Layer(2) == Added(solo);
    AddedEntry(solo, a, b);
  }

  /** The sequences the robot nearest the person is asked for in the
      two-robot examples, priced with one robot in between. */
  lemma SoloMoves()
    ensures SeqCostFrom(Layer(1), 'A', "v<<A") == 10
    ensures SeqCostFrom(Layer(1), 'A', ">>^A") == 8
  {
    FirstLayer('A', 'v');
    FirstLayer('v', '<');
    FirstLayer('<', '<');
    FirstLayer('<', 'A');
    FirstLayer('A', '>');
    FirstLayer('>', '>');
    FirstLayer('>', '^');
    FirstLayer('^', 'A');
  }

  /** With two robots in between, the costs of the puzzle's sample
      sequences are the lengths of what the person types. */
  lemma ExampleDuo()
    ensures SeqCostFrom(Layer(2), 'A', "^") == 8
    ensures SeqCostFrom(Layer(2), 'A', "<A") == 18
  {
    ExampleSolo();
    SoloMoves();
    DirectionalSequences();
    DuoEntry('A', '^', "<A");
    DuoEntry('A', '<', "v<<A");
    DuoEntry('<', 'A', ">>^A");
  }

  // ---------------------------------------------------------------------------
  // Entering codes

  /** The keys of the numeric keypad: the digits and 'A'. */
  predicate IsNumericKey(c: char)
  {
    '0' <= c <= '9' || c == 'A'
  }

  lemma NumericKey(c: char)
    ensures c in Numeric().keys <==> IsNumericKey(c)
  {
  }

  /** Every character of `code` is a key of the numeric keypad. */
  predicate OnNumeric(code: string)
  {
    forall i :: 0 <= i < |code| ==> IsNumericKey(code[i])
  }

  /** What the person pays to have `code` typed on the numeric keypad with
      the stack `st` above it, its arm starting over `prev`. */
  function CodeCostFrom(st: RobotStack, prev: char, code: string): nat
    requires Covers(st) && IsNumericKey(prev) && OnNumeric(code)
    decreases |code|
  {
    if code == [] then 0
    else
      NumericKey(prev);
      NumericKey(code[0]);
      CostToMoveAndPress(st, Numeric(), prev, code[0]) + CodeCostFrom(st, code[0], code[1..])
  }

  /** Typing a code through dearer entries is dearer. */
  lemma {:induction false} CodeCostMono(lo: RobotStack, hi: RobotStack, prev: char, code: string)
    requires Covers(lo) && Covers(hi) && Below(lo, hi)
    requires IsNumericKey(prev) && OnNumeric(code)
    ensures CodeCostFrom(lo, prev, code) <= CodeCostFrom(hi, prev, code)
    decreases |code|
  {
    if code != [] {
      NumericKey(prev);
      NumericKey(code[0]);
      CostMono(lo, hi, Numeric(), prev, code[0]);
      CodeCostMono(lo, hi, code[0], code[1..]);
    }
  }

  /** Another robot between the person and the numeric keypad never makes
      a code cheaper to type. */
  lemma CodeCostGrows(code: string, robots: nat)
    requires OnNumeric(code)
    ensures CodeCostFrom(Layer(robots), 'A', code) <= CodeCostFrom(Layer(robots + 1), 'A', code)
  {
    LayersGrow(robots);
    CodeCostMono(Layer(robots), Layer(robots + 1), 'A', code);
  }

  /** `cost_to_enter_code`: `robots` directional keypads between the person
      and the numeric keypad's robot, whose arm starts over 'A'. */
  method CostToEnterCode(code: string, robots: nat) returns (cost: nat)
    requires OnNumeric(code)
    ensures cost == CodeCostFrom(Layer(robots), 'A', code)
  {
    var robotStack := New(robots);
    var kp := Numeric();
    var prev := 'A';
    cost := 0;
    assert code[0..] == code;
    for i := 0 to |code|
      invariant IsNumericKey(prev)
      invariant cost + CodeCostFrom(robotStack, prev, code[i..]) == CodeCostFrom(robotStack, 'A', code)
    {
      assert code[i..][1..] == code[i + 1..];
      NumericKey(prev);
      NumericKey(code[i]);
      cost := cost + CostToMoveAndPress(robotStack, kp, prev, code[i]);
      prev := code[i];
    }
  }

  /** One code's complexity, its cost times the number before its last
      character; nothing where the program panics: an empty code, a number
      that does not parse as a `usize`, or a character that is no key. */
  function CodeComplexity(code: string, robots: nat): Option<nat>
  {
    if code == [] then None
    else match ParseUnsigned(code[..|code| - 1], U64_LIMIT)
      case None => None
      case Some(n) =>
        if OnNumeric(code) then
          var cost := CodeCostFrom(Layer(robots), 'A', code);
          MulNat(cost, n);
          Some(cost * n)
        else None
  }

  /** The sum of `term` over `codes`, if no term fails. */
  function SumWith(codes: seq<string>, term: string -> Option<nat>): Option<nat>
  {
    if codes == [] then Some(0)
    else match term(codes[0])
      case None => None
      case Some(c) => Plus(c, SumWith(codes[1..], term))
  }

  /** The sum of the complexities of `codes`, if none of them panics. */
  function TotalComplexity(codes: seq<string>, robots: nat): Option<nat>
  {
    SumWith(codes, code => CodeComplexity(code, robots))
  }

  /** `c` added to a sum that may have failed. */
  function Plus(c: nat, r: Option<nat>): Option<nat>
  {
    match r
    case None => None
    case Some(rest) => Some(c + rest)
  }

  lemma PlusStep(a: nat, b: nat, r: Option<nat>)
    ensures Plus(a, Plus(b, r)) == Plus(a + b, r)
  {
  }

  /** `term` gives each code's complexity (its trigger keeps the complexity
      folded where only `term` is mentioned). */
  ghost predicate Computes(term: string -> Option<nat>, robots: nat)
  {
    forall code {:trigger CodeComplexity(code, robots)} :: term(code) == CodeComplexity(code, robots)
  }

  /** One pass of the loop of `day21part1`: the code's term of the sum. */
  method CodeTerm(code: string, robots: nat, ghost term: string -> Option<nat>) returns (r: Option<nat>)
    requires Computes(term, robots)
    ensures r == term(code)
  {
    if code == [] {
      r := None;
    } else {
      var numericPart := ParseUnsigned(code[..|code| - 1], U64_LIMIT);
      if numericPart.None? || !OnNumeric(code) {
        r := None;
      } else {
        var n := numericPart.value;
        var cost := CostToEnterCode(code, robots);
        MulNat(cost, n);
        r := Some(cost * n);
      }
    }
    assert r == CodeComplexity(code, robots);
  }

  /** The loop of `day21part1` and `day21part2`: the codes are the lines of
      the trimmed input. */
  method Complexity(input: string, robots: nat) returns (r: Option<nat>)
    ensures r == TotalComplexity(Lines(Trim(input)), robots)
  {
    ghost var term := code => CodeComplexity(code, robots);
    r := SumComplexity(Lines(Trim(input)), robots, term);
  }

  /** The loop over the codes, summing their complexities. */
  method SumComplexity(codes: seq<string>, robots: nat, ghost term: string -> Option<nat>)
    returns (r: Option<nat>)
    requires Computes(term, robots)
    ensures r == SumWith(codes, term)
  {
    var complexity: nat := 0;
    assert codes[0..] == codes;
    for i := 0 to |codes|
      invariant SumWith(codes, term) == Plus(complexity, SumWith(codes[i..], term))
    {
      assert codes[i..][1..] == codes[i + 1..];
      var t := CodeTerm(codes[i], robots, term);
      if t.None? {
        return None;
      }
      PlusStep(complexity, t.value, SumWith(codes[i + 1..], term));
      complexity := complexity + t.value;
    }
    assert codes[|codes|..] == [];
    return Some(complexity);
  }

  /** `day21part1`: two directional keypads worked by robots. */
  method Day21Part1(input: string) returns (r: Option<nat>)
    ensures r == TotalComplexity(Lines(Trim(input)), 2)
  {
    r := Complexity(input, 2);
  }

  /** `day21part2`: twenty-five directional keypads worked by robots. */
  method Day21Part2(input: string) returns (r: Option<nat>)
    ensures r == TotalComplexity(Lines(Trim(input)), 25)
  {
    r := Complexity(input, 25);
  }
}
