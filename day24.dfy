/** Day 24: a netlist of AND/OR/XOR gates meant to add two 45-bit numbers.
    Wires are three-character base-36 names; the inputs are x00.., y00..
    and the sum is read from z00... */
module Day24 {
  import opened Common

  // ---------------------------------------------------------------------------
  // Wire names

  /** A wire, by the base-36 value of its three-character name. */
  datatype Node = Node(code: nat)

  /** The largest code a three-character name can have: 36^3 - 1. */
  const MaxCode: nat := 36 * 36 * 36 - 1

  /** The number of possible wires, the size of every per-wire table. */
  const NodeCount: nat := MaxCode + 1

  /** A lowercase letter counts 10..35 and a decimal digit 0..9. */
  function Digit36(c: char): (d: Option<nat>)
    ensures d.Some? <==> IsLower(c) || IsDigit(c)
    ensures d.Some? ==> d.value < 36
  {
    if IsLower(c) then Some(c as int - 'a' as int + 10)
    else if IsDigit(c) then Some(c as int - '0' as int)
    else None
  }

  /** The base-36 value of a string of digits, most significant first. */
  function Base36(s: string): (r: Option<nat>)
    decreases |s|
  {
    if s == [] then Some(0)
    else
      match (Base36(s[..|s| - 1]), Digit36(s[|s| - 1]))
      case (Some(n), Some(d)) => Some(n * 36 + d)
      case _ => None
  }

  /** `Node::from_str`: exactly three characters, each a lowercase letter or
      a digit. */
  function ParseNode(s: string): (r: Option<Node>)
    ensures r.Some? ==> |s| == 3
  {
    if |s| != 3 then None
    else match Base36(s)
      case Some(n) => Some(Node(n))
      case None => None
  }

  /** The loop of `Node::from_str`: multiply by 36 and add each digit,
      giving up at the first character that is not one. */
  method NodeFromStr(s: string) returns (r: Option<Node>)
    ensures r == ParseNode(s)
  {
    if |s| != 3 {
      return None;
    }
    var n := 0;
    for i := 0 to |s|
      invariant Base36(s[..i]) == Some(n)
    {
      assert s[..i + 1][..i] == s[..i];
      var digit := Digit36(s[i]);
      if digit.None? {
        Base36Fails(s, i + 1);
        return None;
      }
      n := n * 36 + digit.value;
    }
    assert s[..|s|] == s;
    r := Some(Node(n));
  }

  /** Once a prefix holds a character that is not a digit, so does the whole. */
  lemma {:induction false} Base36Fails(s: string, k: nat)
    requires k <= |s| && Base36(s[..k]).None?
    ensures Base36(s).None?
    decreases |s| - k
  {
    if k < |s| {
      assert s[..k + 1][..k] == s[..k];
      Base36Fails(s, k + 1);
    } else {
      assert s[..k] == s;
    }
  }

  /** The character of a base-36 digit. */
  function DigitOf(d: nat): (c: char)
    requires d < 36
    ensures Digit36(c) == Some(d)
  {
    if d < 10 then ('0' as int + d) as char else ('a' as int + d - 10) as char
  }

  /** `Display for Node`: the three base-36 digits of the code. */
  function Show(n: Node): (s: string)
    ensures |s| == 3
  {
    [DigitOf((n.code / 1296) % 36), DigitOf((n.code / 36) % 36), DigitOf(n.code % 36)]
  }

  /** The digits of a code below 36^3 put it back together. */
  lemma Digits3(q: nat)
    requires q <= MaxCode
    ensures ((q / 1296) % 36 * 36 + (q / 36) % 36) * 36 + q % 36 == q
  {
    var hi, mid, lo := q / 1296, (q / 36) % 36, q % 36;
    assert q == 36 * (q / 36) + lo;
    DivModUnique(q / 36, 36, hi, mid);
    assert hi < 36;
  }

  /** Three digits are what their value displays. */
  lemma Split3(a: nat, b: nat, c: nat)
    requires a < 36 && b < 36 && c < 36
    ensures var q := (a * 36 + b) * 36 + c;
      q <= MaxCode && (q / 1296) % 36 == a && (q / 36) % 36 == b && q % 36 == c
  {
    var q := (a * 36 + b) * 36 + c;
    assert q == a * 1296 + b * 36 + c;
    assert a * 36 + b <= 1295;
    assert q <= 1295 * 36 + 35;
    DivModUnique(q, 36, a * 36 + b, c);
    DivModUnique(a * 36 + b, 36, a, b);
    DivModUnique(q, 1296, a, b * 36 + c);
    DivModUnique(a, 36, 0, a);
  }

  lemma {:induction false} Base36Three(s: string)
    requires |s| == 3
    ensures Base36(s) == match (Digit36(s[0]), Digit36(s[1]), Digit36(s[2]))
      case (Some(a), Some(b), Some(c)) => Some((a * 36 + b) * 36 + c)
      case _ => None
  {
    var d0, d1, d2 := Digit36(s[0]), Digit36(s[1]), Digit36(s[2]);
    assert s[..1][..0] == [];
    assert Base36(s[..1]) == if d0.Some? then Some(d0.value) else None;
    assert s[..2][..1] == s[..1];
    assert Base36(s[..2]) == if d0.Some? && d1.Some? then Some(d0.value * 36 + d1.value) else None;
    assert s[..3] == s;
  }

  /** Printing a node with a three-character code and parsing the result
      gives the node back; a parsed name is below 36^3 and prints as the
      text it was parsed from. */
  lemma ShowParse(n: Node, s: string)
    ensures n.code <= MaxCode ==> ParseNode(Show(n)) == Some(n)
    ensures ParseNode(s).Some? ==> ParseNode(s).value.code <= MaxCode && Show(ParseNode(s).value) == s
  {
    if n.code <= MaxCode {
      Base36Three(Show(n));
      Digits3(n.code);
    }
    if ParseNode(s).Some? {
      Base36Three(s);
      var a, b, c := Digit36(s[0]).value, Digit36(s[1]).value, Digit36(s[2]).value;
      Split3(a, b, c);
      DigitOfOnly(s[0], a);
      DigitOfOnly(s[1], b);
      DigitOfOnly(s[2], c);
    }
  }

  /** Only one character stands for each digit. */
  lemma DigitOfOnly(c: char, d: nat)
    requires Digit36(c) == Some(d)
    ensures DigitOf(d) == c
  {
  }

  // ---------------------------------------------------------------------------
  // The input and output wires

  /** `Node::x`, `Node::y`, `Node::z`: the letter as the top digit and the
      two decimal digits of the index below it. */
  function Lettered(letter: nat, idx: nat): Node
  {
    Node(1296 * letter + (idx / 10) * 36 + idx % 10)
  }

  function X(idx: nat): Node { Lettered(33, idx) }
  function Y(idx: nat): Node { Lettered(34, idx) }
  function Z(idx: nat): Node { Lettered(35, idx) }

  /** A letter below 36 and an index below 100 give a wire in range. */
  lemma LetteredInRange(letter: nat, idx: nat)
    requires letter < 36 && idx < 100
    ensures Lettered(letter, idx).code <= MaxCode
  {
    assert (idx / 10) * 36 + idx % 10 <= 9 * 36 + 9;
  }

  /** For an index below 100, the wire is named by the letter and the index
      written with two decimal digits. */
  lemma LetteredName(letter: nat, idx: nat)
    requires letter < 36 && idx < 100
    ensures Lettered(letter, idx).code <= MaxCode
    ensures Show(Lettered(letter, idx)) == [DigitOf(letter), DigitChar(idx / 10), DigitChar(idx % 10)]
  {
    Split3(letter, idx / 10, idx % 10);
  }

  lemma InputOutputNames(idx: nat)
    requires idx < 100
    ensures Show(X(idx)) == ['x', DigitChar(idx / 10), DigitChar(idx % 10)]
    ensures Show(Y(idx)) == ['y', DigitChar(idx / 10), DigitChar(idx % 10)]
    ensures Show(Z(idx)) == ['z', DigitChar(idx / 10), DigitChar(idx % 10)]
  {
    LetteredName(33, idx);
    LetteredName(34, idx);
    LetteredName(35, idx);
  }

  /** Different letters or different indices below 100 name different
      wires. */
  lemma LetteredInjective(l1: nat, i1: nat, l2: nat, i2: nat)
    requires i1 < 100 && i2 < 100
    ensures Lettered(l1, i1) == Lettered(l2, i2) <==> l1 == l2 && i1 == i2
  {
    if Lettered(l1, i1) == Lettered(l2, i2) {
      var w1, w2 := (i1 / 10) * 36 + i1 % 10, (i2 / 10) * 36 + i2 % 10;
      var c := Lettered(l1, i1).code;
      DivModUnique(c, 1296, l1, w1);
      DivModUnique(c, 1296, l2, w2);
      DivModUnique(w1, 36, i1 / 10, i1 % 10);
      DivModUnique(w2, 36, i2 / 10, i2 % 10);
    }
  }

  /** `Node::is_x`: the codes from x00 to x45. */
  predicate IsX(n: Node)
  {
    X(0).code <= n.code <= X(45).code
  }

  /** `Node::is_y`: the codes from y00 to y45. */
  predicate IsY(n: Node)
  {
    Y(0).code <= n.code <= Y(45).code
  }

  /** The input wires x00..x45 are x wires and not y wires, and the other
      way round; output wires are neither, and every x or y wire's name
      starts with its letter. */
  lemma InputRanges(idx: nat, n: Node)
    requires idx <= 45
    ensures IsX(X(idx)) && !IsY(X(idx))
    ensures IsY(Y(idx)) && !IsX(Y(idx))
    ensures !IsX(Z(idx)) && !IsY(Z(idx))
    ensures IsX(n) ==> Show(n)[0] == 'x'
    ensures IsY(n) ==> Show(n)[0] == 'y'
  {
    if IsX(n) {
      DivModUnique(n.code, 1296, 33, n.code - 1296 * 33);
    }
    if IsY(n) {
      DivModUnique(n.code, 1296, 34, n.code - 1296 * 34);
    }
  }

  // ---------------------------------------------------------------------------
  // Gates

  datatype Operation = And | Or | Xor

  /** `Operation::apply`. */
  function Apply(op: Operation, a: bool, b: bool): bool
  {
    match op
    case And => a && b
    case Or => a || b
    case Xor => a != b
  }

  function Bit(b: bool): nat
  {
    if b then 1 else 0
  }

  /** The gates add bits: XOR is the sum bit and AND the carry of a half
      adder, and OR joins the two carries of a full adder. */
  lemma GatesAdd(a: bool, b: bool, c: bool)
    ensures Bit(Apply(Xor, a, b)) + 2 * Bit(Apply(And, a, b)) == Bit(a) + Bit(b)
    ensures var s := Apply(Xor, a, b);
      Bit(Apply(Xor, s, c)) + 2 * Bit(Apply(Or, Apply(And, a, b), Apply(And, s, c)))
        == Bit(a) + Bit(b) + Bit(c)
  {
  }

  /** `Operation::from_str`: exactly the three upper-case names. */
  function ParseOperation(s: string): (r: Option<Operation>)
  {
    if s == "AND" then Some(And)
    else if s == "OR" then Some(Or)
    else if s == "XOR" then Some(Xor)
    else None
  }

  function ShowOperation(op: Operation): string
  {
    match op
    case And => "AND"
    case Or => "OR"
    case Xor => "XOR"
  }

  /** Exactly the three names parse, each to the operation it names. */
  lemma ParseOperationNames(s: string, op: Operation)
    ensures ParseOperation(ShowOperation(op)) == Some(op)
    ensures ParseOperation(s).Some? <==> s in {"AND", "OR", "XOR"}
    ensures ParseOperation(s).Some? ==> ShowOperation(ParseOperation(s).value) == s
  {
  }

  /** A gate: two input wires, an operation and an output wire. */
  datatype Rule = Rule(inputs: (Node, Node), output: Node, operation: Operation)

  // ---------------------------------------------------------------------------
  // Swapping outputs

  /** One gate after swapping the wires `a` and `b` as outputs. */
  function SwapOne(r: Rule, a: Node, b: Node): Rule
  {
    if r.output == a then r.(output := b)
    else if r.output == b then r.(output := a)
    else r
  }

  /** Every gate after the swap. */
  function Swapped(rules: seq<Rule>, a: Node, b: Node): (r: seq<Rule>)
    ensures |r| == |rules|
  {
    if rules == [] then [] else [SwapOne(rules[0], a, b)] + Swapped(rules[1..], a, b)
  }

  lemma {:induction false} SwappedAt(rules: seq<Rule>, a: Node, b: Node, i: nat)
    requires i < |rules|
    ensures Swapped(rules, a, b)[i] == SwapOne(rules[i], a, b)
    decreases |rules|
  {
    if i > 0 {
      SwappedAt(rules[1..], a, b, i - 1);
    }
  }

  /** `swap_rules`: in place, every gate driving `a` now drives `b` and the
      other way round. */
  method SwapRules(rules: array<Rule>, a: Node, b: Node)
    modifies rules
    ensures rules[..] == Swapped(old(rules[..]), a, b)
  {
    ghost var before := rules[..];
    for i := 0 to rules.Length
      invariant forall k :: 0 <= k < i ==> rules[k] == SwapOne(before[k], a, b)
      invariant forall k :: i <= k < rules.Length ==> rules[k] == before[k]
    {
      var r := rules[i];
      if r.output == a {
        rules[i] := r.(output := b);
      } else if r.output == b {
        rules[i] := r.(output := a);
      }
    }
    forall k | 0 <= k < rules.Length
      ensures rules[k] == Swapped(before, a, b)[k]
    {
      SwappedAt(before, a, b, k);
    }
  }

  /** Swapping in two wires that index the tables keeps every gate's wires
      in range. */
  lemma {:induction false} SwappedValid(rules: seq<Rule>, a: Node, b: Node)
    requires ValidRules(rules) && a.code < NodeCount && b.code < NodeCount
    ensures ValidRules(Swapped(rules, a, b))
  {
    var s := Swapped(rules, a, b);
    forall r | r in s
      ensures ValidRule(r)
    {
      var i :| 0 <= i < |s| && s[i] == r;
      SwappedAt(rules, a, b, i);
      assert rules[i] in rules;
    }
  }

  /** Swapping the same two wires twice restores every gate. */
  lemma {:induction false} SwapTwice(rules: seq<Rule>, a: Node, b: Node)
    ensures Swapped(Swapped(rules, a, b), a, b) == rules
    decreases |rules|
  {
    if rules != [] {
      SwapTwice(rules[1..], a, b);
      assert Swapped(rules, a, b)[1..] == Swapped(rules[1..], a, b);
    }
  }

  /** A swap changes nothing but outputs that are `a` or `b`: inputs,
      operations and the number of gates stay. */
  lemma {:induction false} SwapOnlyOutputs(rules: seq<Rule>, a: Node, b: Node, i: nat)
    requires i < |rules|
    ensures var r := Swapped(rules, a, b)[i];
      && r.inputs == rules[i].inputs && r.operation == rules[i].operation
      && (rules[i].output != a && rules[i].output != b ==> r.output == rules[i].output)
      && (rules[i].output == a ==> r.output == b)
      && (rules[i].output == b && a != b ==> r.output == a)
  {
    SwappedAt(rules, a, b, i);
  }

  // ---------------------------------------------------------------------------
  // Numbers as bits

  /** The number whose binary digits are `bits`, least significant first. */
  function FromBits(bits: seq<bool>): nat
  {
    if bits == [] then 0 else Bit(bits[0]) + 2 * FromBits(bits[1..])
  }

  /** `n & (1 << k) != 0`: bit `k` of `n`. */
  predicate TestBit(n: nat, k: nat)
  {
    if k == 0 then n % 2 == 1 else TestBit(n / 2, k - 1)
  }

  lemma {:induction false} FromBitsBound(bits: seq<bool>)
    ensures FromBits(bits) < Pow2(|bits|)
    decreases |bits|
  {
    if bits != [] {
      FromBitsBound(bits[1..]);
    }
  }

  /** A bit appended at the top adds its place value. */
  lemma {:induction false} FromBitsAppend(bits: seq<bool>, b: bool)
    ensures FromBits(bits + [b]) == FromBits(bits) + Bit(b) * Pow2(|bits|)
    decreases |bits|
  {
    if bits == [] {
      assert [b][1..] == [];
    } else {
      FromBitsAppend(bits[1..], b);
      assert (bits + [b])[1..] == bits[1..] + [b];
    }
  }

  /** Reading bit `k` of the number gives the `k`-th bit back. */
  lemma {:induction false} FromBitsDigit(bits: seq<bool>, k: nat)
    requires k < |bits|
    ensures TestBit(FromBits(bits), k) == bits[k]
    decreases k
  {
    var n := FromBits(bits);
    DivModUnique(n, 2, FromBits(bits[1..]), Bit(bits[0]));
    if k > 0 {
      FromBitsDigit(bits[1..], k - 1);
    }
  }

  // ---------------------------------------------------------------------------
  // Reading x and y from the initial wire values

  /** The first code of a y wire: wires below it count towards x. */
  const MinY: nat := 34 * 1296

  /** The values of the listed wires that go to x, in order. */
  function XBits(inputs: seq<(Node, bool)>): seq<bool>
  {
    if inputs == [] then []
    else
      var last := inputs[|inputs| - 1];
      XBits(inputs[..|inputs| - 1]) + if last.0.code < MinY then [last.1] else []
  }

  /** The values of the listed wires that go to y, in order. */
  function YBits(inputs: seq<(Node, bool)>): seq<bool>
  {
    if inputs == [] then []
    else
      var last := inputs[|inputs| - 1];
      YBits(inputs[..|inputs| - 1]) + if last.0.code >= MinY then [last.1] else []
  }

  /** `deserialize_inputs`: each listed value becomes the next bit of y if
      its wire is a y wire, and of x otherwise. The new bit's place is
      still clear, so the source's `|=` adds it. */
  method DeserializeInputs(inputs: seq<(Node, bool)>) returns (x: nat, y: nat)
    ensures x == FromBits(XBits(inputs)) && y == FromBits(YBits(inputs))
  {
    x, y := 0, 0;
    var xBit, yBit := 0, 0;
    for i := 0 to |inputs|
      invariant xBit == |XBits(inputs[..i])| && x == FromBits(XBits(inputs[..i]))
      invariant yBit == |YBits(inputs[..i])| && y == FromBits(YBits(inputs[..i]))
      invariant x < Pow2(xBit) && y < Pow2(yBit)
    {
      var (n, val) := inputs[i];
      assert inputs[..i + 1][..i] == inputs[..i];
      if n.code >= MinY {
        assert XBits(inputs[..i + 1]) == XBits(inputs[..i]);
        assert YBits(inputs[..i + 1]) == YBits(inputs[..i]) + [val];
        FromBitsAppend(YBits(inputs[..i]), val);
        FromBitsBound(YBits(inputs[..i + 1]));
        y := y + Bit(val) * Pow2(yBit);
        yBit := yBit + 1;
      } else {
        assert XBits(inputs[..i + 1]) == XBits(inputs[..i]) + [val];
        assert YBits(inputs[..i + 1]) == YBits(inputs[..i]);
        FromBitsAppend(XBits(inputs[..i]), val);
        FromBitsBound(XBits(inputs[..i + 1]));
        x := x + Bit(val) * Pow2(xBit);
        xBit := xBit + 1;
      }
    }
    assert inputs[..|inputs|] == inputs;
  }

  /** Bit `k` of x is the value of the `k`-th x wire listed, and likewise
      for y. */
  lemma {:induction false} DeserializedBits(inputs: seq<(Node, bool)>, k: nat)
    ensures k < |XBits(inputs)| ==> TestBit(FromBits(XBits(inputs)), k) == XBits(inputs)[k]
    ensures k < |YBits(inputs)| ==> TestBit(FromBits(YBits(inputs)), k) == YBits(inputs)[k]
  {
    if k < |XBits(inputs)| {
      FromBitsDigit(XBits(inputs), k);
    }
    if k < |YBits(inputs)| {
      FromBitsDigit(YBits(inputs), k);
    }
  }

  // ---------------------------------------------------------------------------
  // Evaluating the netlist

  /** Every wire a gate names has a code below 36^3, as parsed names do, so
      it indexes the per-wire tables. */
  predicate ValidRule(r: Rule)
  {
    r.inputs.0.code < NodeCount && r.inputs.1.code < NodeCount && r.output.code < NodeCount
  }

  ghost predicate ValidRules(rules: seq<Rule>)
  {
    forall r :: r in rules ==> ValidRule(r)
  }

  ghost predicate ValidQueue(queue: seq<(Node, bool)>)
  {
    forall i :: 0 <= i < |queue| ==> queue[i].0.code < NodeCount
  }

  /** The list `input_rule_map` keeps for wire `n`: the gates reading it, in
      order, a gate reading it twice listed twice. */
  function Readers(rules: seq<Rule>, n: Node): (rs: seq<Rule>)
    ensures forall r :: r in rs ==> r in rules
  {
    if rules == [] then []
    else
      var r := rules[|rules| - 1];
      Readers(rules[..|rules| - 1], n)
        + (if r.inputs.0 == n then [r] else [])
        + (if r.inputs.1 == n then [r] else [])
  }

  lemma {:induction false} ReadersHas(rules: seq<Rule>, n: Node, r: Rule)
    ensures r in Readers(rules, n) <==> r in rules && (r.inputs.0 == n || r.inputs.1 == n)
    decreases |rules|
  {
    if rules != [] {
      var init := rules[..|rules| - 1];
      ReadersHas(init, n, r);
      assert rules == init + [rules[|rules| - 1]];
    }
  }

  /** Both inputs of the gate have values. */
  predicate Known(vals: seq<Option<bool>>, r: Rule)
    requires |vals| == NodeCount && ValidRule(r)
  {
    vals[r.inputs.0.code].Some? && vals[r.inputs.1.code].Some?
  }

  /** The gate's operation on its inputs' values. */
  function Eval(vals: seq<Option<bool>>, r: Rule): bool
    requires |vals| == NodeCount && ValidRule(r) && Known(vals, r)
  {
    Apply(r.operation, vals[r.inputs.0.code].value, vals[r.inputs.1.code].value)
  }

  /** The gates among `rs` that fire: both inputs known and the output not
      yet, each giving its output wire and value, in order. */
  function Fired(vals: seq<Option<bool>>, rs: seq<Rule>): (f: seq<(Node, bool)>)
    requires |vals| == NodeCount && forall r :: r in rs ==> ValidRule(r)
    ensures ValidQueue(f)
  {
    if rs == [] then []
    else
      var r := rs[|rs| - 1];
      Fired(vals, rs[..|rs| - 1])
        + if Known(vals, r) && vals[r.output.code].None? then [(r.output, Eval(vals, r))] else []
  }

  lemma {:induction false} FiredHas(vals: seq<Option<bool>>, rs: seq<Rule>, q: (Node, bool))
    requires |vals| == NodeCount && forall r :: r in rs ==> ValidRule(r)
    ensures q in Fired(vals, rs) <==>
      exists r :: r in rs && Known(vals, r) && vals[r.output.code].None? && q == (r.output, Eval(vals, r))
    decreases |rs|
  {
    if rs != [] {
      var init := rs[..|rs| - 1];
      FiredHas(vals, init, q);
      assert rs == init + [rs[|rs| - 1]];
    }
  }

  /** Giving an unset wire a value leaves one unset wire fewer. */
  lemma CountSet(vals: seq<Option<bool>>, k: nat, v: bool)
    requires k < |vals| && vals[k].None?
    ensures Count(vals[k := Some(v)], None) < Count(vals, None)
  {
    assert multiset(vals[k := Some(v)])[None] == multiset(vals)[None] - 1;
  }

  /** The values once the first queued entry is written. */
  function Assign(vals: seq<Option<bool>>, queue: seq<(Node, bool)>): (next: seq<Option<bool>>)
    requires |vals| == NodeCount && ValidQueue(queue) && queue != []
    ensures |next| == NodeCount && next[queue[0].0.code] == Some(queue[0].1)
    ensures forall k :: 0 <= k < NodeCount && k != queue[0].0.code ==> next[k] == vals[k]
  {
    vals[queue[0].0.code := Some(queue[0].1)]
  }

  /** The queue once the first entry is taken and written: the rest of it,
      then every gate reading the written wire that now fires. */
  function Later(rules: seq<Rule>, vals: seq<Option<bool>>, queue: seq<(Node, bool)>): (later: seq<(Node, bool)>)
    requires ValidRules(rules) && |vals| == NodeCount && ValidQueue(queue) && queue != []
    ensures ValidQueue(later) && |later| >= |queue| - 1
    ensures forall j :: 0 <= j < |queue| - 1 ==> later[j] == queue[j + 1]
  {
    queue[1..] + Fired(Assign(vals, queue), Readers(rules, queue[0].0))
  }

  /** The work-list loop of `elf_add`: take the first entry; if its wire has
      no value yet, give it the entry's value and queue every gate reading
      it whose inputs are now both known and whose output is not. */
  ghost function Settle(rules: seq<Rule>, vals: seq<Option<bool>>, queue: seq<(Node, bool)>): (r: seq<Option<bool>>)
    requires ValidRules(rules) && |vals| == NodeCount && ValidQueue(queue)
    ensures |r| == NodeCount
    decreases Count(vals, None), |queue|
  {
    if queue == [] then vals
    else if vals[queue[0].0.code].Some? then Settle(rules, vals, queue[1..])
    else
      CountSet(vals, queue[0].0.code, queue[0].1);
      Settle(rules, Assign(vals, queue), Later(rules, vals, queue))
  }

  /** The loop that fills `input_rule_map`: each gate is pushed onto the
      list of each of its two inputs. */
  method BuildReaders(rules: seq<Rule>) returns (readers: array<seq<Rule>>)
    requires ValidRules(rules)
    ensures fresh(readers) && readers.Length == NodeCount
    ensures forall k :: 0 <= k < NodeCount ==> readers[k] == Readers(rules, Node(k))
  {
    readers := new seq<Rule>[NodeCount](_ => []);
    for i := 0 to |rules|
      invariant forall k :: 0 <= k < NodeCount ==> readers[k] == Readers(rules[..i], Node(k))
    {
      var r := rules[i];
      assert rules[..i + 1][..i] == rules[..i];
      assert r in rules;
      readers[r.inputs.0.code] := readers[r.inputs.0.code] + [r];
      readers[r.inputs.1.code] := readers[r.inputs.1.code] + [r];
    }
    assert rules[..|rules|] == rules;
  }

  /** The work-list loop of `elf_add` on the `vals` buffer, proved to do
      what `Settle` says. */
  method Propagate(rules: seq<Rule>, readers: array<seq<Rule>>, vals: array<Option<bool>>,
                   queue: seq<(Node, bool)>)
    requires ValidRules(rules) && vals.Length == NodeCount && ValidQueue(queue)
    requires readers.Length == NodeCount
    requires forall k :: 0 <= k < NodeCount ==> readers[k] == Readers(rules, Node(k))
    modifies vals
    ensures vals[..] == Settle(rules, old(vals[..]), queue)
  {
    var q := queue;
    while q != []
      invariant ValidQueue(q)
      invariant Settle(rules, vals[..], q) == Settle(rules, old(vals[..]), queue)
      decreases Count(vals[..], None), |q|
    {
      var node, val := q[0].0, q[0].1;
      ghost var before := vals[..];
      ghost var popped := q;
      q := q[1..];
      if vals[node.code].None? {
        vals[node.code] := Some(val);
        assert vals[..] == Assign(before, popped);
        CountSet(before, node.code, val);
        var rs := readers[node.code];
        assert rs == Readers(rules, node);
        q := QueueFired(rules, vals, rs, q);
      }
    }
  }

  /** The inner loop of the work list: push every gate of `rs` that fires. */
  method QueueFired(rules: seq<Rule>, vals: array<Option<bool>>, rs: seq<Rule>, queue: seq<(Node, bool)>)
    returns (q: seq<(Node, bool)>)
    requires ValidRules(rules) && vals.Length == NodeCount && forall r :: r in rs ==> r in rules
    ensures q == queue + Fired(vals[..], rs)
  {
    q := queue;
    for j := 0 to |rs|
      invariant q == queue + Fired(vals[..], rs[..j])
    {
      assert rs[..j + 1][..j] == rs[..j];
      var r := rs[j];
      assert r in rules;
      if vals[r.inputs.0.code].Some? && vals[r.inputs.1.code].Some? && vals[r.output.code].None? {
        q := q + [(r.output, Apply(r.operation, vals[r.inputs.0.code].value, vals[r.inputs.1.code].value))];
      }
    }
    assert rs[..|rs|] == rs;
  }

  /** The values of the z wires, read from the highest code down: each
      defined one shifts the number left (dropping what leaves the 64 bits)
      and becomes its lowest bit. */
  function Assemble(s: seq<Option<bool>>): nat
  {
    if s == [] then 0
    else
      var rest := Assemble(s[1..]);
      if s[0].Some? then (rest * 2) % U64_LIMIT + Bit(s[0].value) else rest
  }

  /** The values of the wires that have one, in order. */
  function Defined(s: seq<Option<bool>>): (bits: seq<bool>)
    ensures |bits| <= |s|
  {
    if s == [] then []
    else (if s[0].Some? then [s[0].value] else []) + Defined(s[1..])
  }

  /** Shifting a 64-bit number left by one and setting the low bit is the
      same as doubling first and truncating after. */
  lemma ShiftInto(f: nat, b: nat)
    requires b < 2
    ensures ((f % U64_LIMIT) * 2) % U64_LIMIT + b == (2 * f + b) % U64_LIMIT
  {
    var p := U64_LIMIT;
    var h := I64_LIMIT;
    assert p == 2 * h;
    var k, m := f / p, f % p;
    assert f == k * p + m;
    if m < h {
      DivModUnique(2 * m, p, 0, 2 * m);
      DivModUnique(2 * f + b, p, 2 * k, 2 * m + b);
    } else {
      DivModUnique(2 * m, p, 1, 2 * m - p);
      DivModUnique(2 * f + b, p, 2 * k + 1, 2 * m - p + b);
    }
  }

  /** z is the number whose binary digits are the values of the z wires
      that have one, the lowest code the least significant, cut to 64
      bits. */
  lemma {:induction false} AssembleBits(s: seq<Option<bool>>)
    ensures Assemble(s) == FromBits(Defined(s)) % U64_LIMIT
    decreases |s|
  {
    if s != [] {
      AssembleBits(s[1..]);
      var rest := Defined(s[1..]);
      if s[0].Some? {
        assert Defined(s)[1..] == rest;
        ShiftInto(FromBits(rest), Bit(s[0].value));
      } else {
        assert Defined(s) == rest;
      }
    } else {
      DivModUnique(0, U64_LIMIT, 0, 0);
    }
  }

  /** The first code of a z wire. */
  const FirstZ: nat := 35 * 1296

  /** The loop of `elf_add` that reads z from the buffer. */
  method ReadZ(vals: array<Option<bool>>) returns (z: nat)
    requires vals.Length == NodeCount
    ensures z == Assemble(vals[FirstZ..])
  {
    z := 0;
    var i := vals.Length;
    while i > FirstZ
      invariant FirstZ <= i <= vals.Length && z == Assemble(vals[i..])
    {
      i := i - 1;
      assert vals[i..][1..] == vals[i + 1..];
      if vals[i].Some? {
        z := (z * 2) % U64_LIMIT + Bit(vals[i].value);
      }
    }
  }

  /** The first `n` input wires of one letter with the bits of `v`. */
  function InputQueue(letter: nat, v: nat, n: nat): (q: seq<(Node, bool)>)
    requires letter < 36 && n <= 100
    ensures |q| == n && ValidQueue(q)
  {
    if n == 0 then []
    else
      LetteredInRange(letter, n - 1);
      InputQueue(letter, v, n - 1) + [(Lettered(letter, n - 1), TestBit(v, n - 1))]
  }

  lemma {:induction false} InputQueueAt(letter: nat, v: nat, n: nat, i: nat)
    requires letter < 36 && i < n <= 100
    ensures InputQueue(letter, v, n)[i] == (Lettered(letter, i), TestBit(v, i))
    decreases n
  {
    if i < n - 1 {
      InputQueueAt(letter, v, n - 1, i);
    }
  }

  /** x00..x44 with the bits of x, then y00..y44 with those of y. */
  function InitialQueue(x: nat, y: nat): (q: seq<(Node, bool)>)
    ensures ValidQueue(q)
  {
    InputQueue(33, x, 45) + InputQueue(34, y, 45)
  }

  /** Entry `i` of the initial queue: x wire `i` for the first 45, then y
      wire `i - 45`. */
  lemma {:induction false} InitialQueueAt(x: nat, y: nat, i: nat)
    requires i < 90
    ensures i < 45 ==> InitialQueue(x, y)[i] == (X(i), TestBit(x, i))
    ensures 45 <= i ==> InitialQueue(x, y)[i] == (Y(i - 45), TestBit(y, i - 45))
  {
    if i < 45 {
      InputQueueAt(33, x, 45, i);
    } else {
      InputQueueAt(34, y, 45, i - 45);
    }
  }

  /** The initial queue names 90 different wires. */
  lemma InitialDistinct(x: nat, y: nat, j: nat, l: nat)
    requires j < l < 90
    ensures InitialQueue(x, y)[j].0 != InitialQueue(x, y)[l].0
  {
    InitialQueueAt(x, y, j);
    InitialQueueAt(x, y, l);
    var lj, ij := if j < 45 then 33 else 34, if j < 45 then j else j - 45;
    var ll, il := if l < 45 then 33 else 34, if l < 45 then l else l - 45;
    LetteredInjective(lj, ij, ll, il);
  }

  /** No wire has a value yet. */
  function Unset(): (vals: seq<Option<bool>>)
    ensures |vals| == NodeCount
  {
    seq(NodeCount, _ => None)
  }

  /** What `elf_add` computes: the netlist settled from the input bits,
      then z read off. */
  ghost function ElfAddValue(rules: seq<Rule>, x: nat, y: nat): nat
    requires ValidRules(rules)
  {
    Assemble(Settled(rules, x, y)[FirstZ..])
  }

  /** The wire values once the work list of `elf_add` is empty. */
  ghost function Settled(rules: seq<Rule>, x: nat, y: nat): (vals: seq<Option<bool>>)
    requires ValidRules(rules)
    ensures |vals| == NodeCount
  {
    Settle(rules, Unset(), InitialQueue(x, y))
  }

  /** One of the two loops of `elf_add` that queue the input bits: wires
      00 to 44 of the letter, each with its bit of `v`. */
  method PushInputs(queue: seq<(Node, bool)>, letter: nat, v: nat) returns (q: seq<(Node, bool)>)
    requires letter < 36
    ensures q == queue + InputQueue(letter, v, 45)
  {
    q := queue;
    for bit := 0 to 45
      invariant q == queue + InputQueue(letter, v, bit)
    {
      q := q + [(Lettered(letter, bit), TestBit(v, bit))];
    }
  }

  /** `elf_add`. */
  method ElfAdd(rules: seq<Rule>, x: nat, y: nat) returns (z: nat)
    requires ValidRules(rules)
    ensures z == ElfAddValue(rules, x, y)
  {
    var readers := BuildReaders(rules);
    var vals := new Option<bool>[NodeCount](_ => None);
    assert vals[..] == Unset();
    var queue := [];
    queue := PushInputs(queue, 33, x);
    queue := PushInputs(queue, 34, y);
    assert queue == InitialQueue(x, y);
    Propagate(rules, readers, vals, queue);
    z := ReadZ(vals);
  }

  // ---------------------------------------------------------------------------
  // What the work list guarantees

  /** A wire that has a value keeps it: every wire is given a value at most
      once. */
  lemma {:induction false} SettleKeeps(rules: seq<Rule>, vals: seq<Option<bool>>, queue: seq<(Node, bool)>, k: nat)
    requires ValidRules(rules) && |vals| == NodeCount && ValidQueue(queue)
    requires k < NodeCount && vals[k].Some?
    ensures Settle(rules, vals, queue)[k] == vals[k]
    decreases Count(vals, None), |queue|
  {
    if queue != [] {
      var node := queue[0].0;
      if vals[node.code].Some? {
        SettleKeeps(rules, vals, queue[1..], k);
      } else {
        var next := Assign(vals, queue);
        CountSet(vals, node.code, queue[0].1);
        SettleKeeps(rules, next, Later(rules, vals, queue), k);
      }
    }
  }

  /** `later` has every value `vals` has. */
  ghost predicate Grows(vals: seq<Option<bool>>, later: seq<Option<bool>>)
  {
    |later| == |vals| && forall k :: 0 <= k < |vals| && vals[k].Some? ==> later[k] == vals[k]
  }

  lemma {:induction false} SettleGrows(rules: seq<Rule>, vals: seq<Option<bool>>, queue: seq<(Node, bool)>)
    requires ValidRules(rules) && |vals| == NodeCount && ValidQueue(queue)
    ensures Grows(vals, Settle(rules, vals, queue))
  {
    forall k | 0 <= k < |vals| && vals[k].Some?
      ensures Settle(rules, vals, queue)[k] == vals[k]
    {
      SettleKeeps(rules, vals, queue, k);
    }
  }

  /** Every wire that is queued ends up with a value. */
  lemma {:induction false} SettleSets(rules: seq<Rule>, vals: seq<Option<bool>>, queue: seq<(Node, bool)>, i: nat)
    requires ValidRules(rules) && |vals| == NodeCount && ValidQueue(queue) && i < |queue|
    ensures Settle(rules, vals, queue)[queue[i].0.code].Some?
    decreases Count(vals, None), |queue|
  {
    var node := queue[0].0;
    if vals[node.code].Some? {
      if i == 0 {
        SettleKeeps(rules, vals, queue[1..], node.code);
      } else {
        SettleSets(rules, vals, queue[1..], i - 1);
      }
    } else {
      var next := Assign(vals, queue);
      var later := Later(rules, vals, queue);
      CountSet(vals, node.code, queue[0].1);
      if i == 0 {
        SettleKeeps(rules, next, later, node.code);
      } else {
        assert later[i - 1] == queue[i];
        SettleSets(rules, next, later, i - 1);
      }
    }
  }

  /** The first `m` queued wires, distinct and without values, get exactly
      the queued values: nothing queued later can overtake them. */
  lemma {:induction false} SettleFront(rules: seq<Rule>, vals: seq<Option<bool>>, queue: seq<(Node, bool)>, m: nat, i: nat)
    requires ValidRules(rules) && |vals| == NodeCount && ValidQueue(queue)
    requires i < m <= |queue|
    requires forall j :: 0 <= j < m ==> vals[queue[j].0.code].None?
    requires forall j, l :: 0 <= j < l < m ==> queue[j].0 != queue[l].0
    ensures Settle(rules, vals, queue)[queue[i].0.code] == Some(queue[i].1)
    decreases m
  {
    var node := queue[0].0;
    var next := Assign(vals, queue);
    var later := Later(rules, vals, queue);
    if i == 0 {
      SettleKeeps(rules, next, later, node.code);
    } else {
      assert forall j :: 0 <= j < m - 1 ==> later[j] == queue[j + 1];
      SettleFront(rules, next, later, m - 1, i - 1);
    }
  }

  /** Why a wire may hold `v`: it is one of the input entries, or a gate
      drives it whose inputs both have values and whose operation gives `v`
      on them. */
  ghost predicate Justified(rules: seq<Rule>, inputs: seq<(Node, bool)>, vals: seq<Option<bool>>, node: Node, v: bool)
  {
    || (node, v) in inputs
    || exists r :: r in rules && ValidRule(r) && r.output == node && |vals| == NodeCount
         && Known(vals, r) && Eval(vals, r) == v
  }

  /** Every value held is justified. */
  ghost predicate Sound(rules: seq<Rule>, inputs: seq<(Node, bool)>, vals: seq<Option<bool>>)
  {
    forall k :: 0 <= k < |vals| && vals[k].Some? ==> Justified(rules, inputs, vals, Node(k), vals[k].value)
  }

  /** Every queued value is justified. */
  ghost predicate QueueSound(rules: seq<Rule>, inputs: seq<(Node, bool)>, vals: seq<Option<bool>>, queue: seq<(Node, bool)>)
  {
    forall i :: 0 <= i < |queue| ==> Justified(rules, inputs, vals, queue[i].0, queue[i].1)
  }

  /** A justification survives more wires getting values. */
  lemma JustifiedGrows(rules: seq<Rule>, inputs: seq<(Node, bool)>, vals: seq<Option<bool>>,
                       later: seq<Option<bool>>, node: Node, v: bool)
    requires Justified(rules, inputs, vals, node, v) && Grows(vals, later)
    ensures Justified(rules, inputs, later, node, v)
  {
    if (node, v) !in inputs {
      var r :| r in rules && ValidRule(r) && r.output == node && |vals| == NodeCount
        && Known(vals, r) && Eval(vals, r) == v;
      assert Known(later, r) && Eval(later, r) == v;
    }
  }

  /** One step of the work list that gives a wire its value keeps every
      value and every queued entry justified. */
  lemma SetSound(rules: seq<Rule>, inputs: seq<(Node, bool)>, vals: seq<Option<bool>>, queue: seq<(Node, bool)>)
    requires ValidRules(rules) && |vals| == NodeCount && ValidQueue(queue) && queue != []
    requires vals[queue[0].0.code].None?
    requires Sound(rules, inputs, vals) && QueueSound(rules, inputs, vals, queue)
    ensures var node := queue[0].0;
      var next := Assign(vals, queue);
      Sound(rules, inputs, next) && QueueSound(rules, inputs, next, Later(rules, vals, queue))
  {
    var node := queue[0].0;
    var next := Assign(vals, queue);
    var fired := Fired(next, Readers(rules, node));
    assert Grows(vals, next);
    forall k | 0 <= k < |next| && next[k].Some?
      ensures Justified(rules, inputs, next, Node(k), next[k].value)
    {
      if k == node.code {
        JustifiedGrows(rules, inputs, vals, next, node, queue[0].1);
      } else {
        JustifiedGrows(rules, inputs, vals, next, Node(k), vals[k].value);
      }
    }
    forall i | 0 <= i < |queue[1..] + fired|
      ensures Justified(rules, inputs, next, (queue[1..] + fired)[i].0, (queue[1..] + fired)[i].1)
    {
      var q := (queue[1..] + fired)[i];
      if i < |queue| - 1 {
        JustifiedGrows(rules, inputs, vals, next, q.0, q.1);
      } else {
        assert q in fired;
        FiredHas(next, Readers(rules, node), q);
      }
    }
  }

  /** Settling keeps every value justified. */
  lemma {:induction false} SettleSound(rules: seq<Rule>, inputs: seq<(Node, bool)>, vals: seq<Option<bool>>, queue: seq<(Node, bool)>)
    requires ValidRules(rules) && |vals| == NodeCount && ValidQueue(queue)
    requires Sound(rules, inputs, vals) && QueueSound(rules, inputs, vals, queue)
    ensures Sound(rules, inputs, Settle(rules, vals, queue))
    decreases Count(vals, None), |queue|
  {
    if queue != [] {
      var node := queue[0].0;
      if vals[node.code].Some? {
        SettleSound(rules, inputs, vals, queue[1..]);
      } else {
        var next := Assign(vals, queue);
        CountSet(vals, node.code, queue[0].1);
        SetSound(rules, inputs, vals, queue);
        SettleSound(rules, inputs, next, Later(rules, vals, queue));
      }
    }
  }

  /** Wire `n` has an entry in the queue. */
  ghost predicate Queued(queue: seq<(Node, bool)>, n: Node)
  {
    exists v :: (n, v) in queue
  }

  /** Every gate whose inputs both have values has its output set or
      queued. */
  ghost predicate Pending(rules: seq<Rule>, vals: seq<Option<bool>>, queue: seq<(Node, bool)>)
    requires ValidRules(rules) && |vals| == NodeCount
  {
    forall r :: r in rules && Known(vals, r) ==> vals[r.output.code].Some? || Queued(queue, r.output)
  }

  /** No gate is left to fire: every gate whose inputs both have values has
      a value on its output. */
  ghost predicate Closed(rules: seq<Rule>, vals: seq<Option<bool>>)
    requires ValidRules(rules) && |vals| == NodeCount
  {
    forall r :: r in rules && Known(vals, r) ==> vals[r.output.code].Some?
  }

  /** Popping an entry whose wire is already set keeps every gate pending. */
  lemma PendingSkip(rules: seq<Rule>, vals: seq<Option<bool>>, queue: seq<(Node, bool)>)
    requires ValidRules(rules) && |vals| == NodeCount && ValidQueue(queue) && queue != []
    requires vals[queue[0].0.code].Some? && Pending(rules, vals, queue)
    ensures Pending(rules, vals, queue[1..])
  {
    forall r | r in rules && Known(vals, r) && vals[r.output.code].None?
      ensures Queued(queue[1..], r.output)
    {
      var v :| (r.output, v) in queue;
      var i :| 0 <= i < |queue| && queue[i] == (r.output, v);
      assert i > 0;
      assert queue[1..][i - 1] == (r.output, v);
    }
  }

  /** Setting the popped wire and queueing the gates that fire keeps every
      gate pending. */
  lemma PendingSet(rules: seq<Rule>, vals: seq<Option<bool>>, queue: seq<(Node, bool)>)
    requires ValidRules(rules) && |vals| == NodeCount && ValidQueue(queue) && queue != []
    requires vals[queue[0].0.code].None? && Pending(rules, vals, queue)
    ensures var node := queue[0].0;
      var next := Assign(vals, queue);
      Pending(rules, next, Later(rules, vals, queue))
  {
    var node := queue[0].0;
    var next := Assign(vals, queue);
    var fired := Fired(next, Readers(rules, node));
    var later := queue[1..] + fired;
    forall r | r in rules && Known(next, r) && next[r.output.code].None?
      ensures Queued(later, r.output)
    {
      if Known(vals, r) {
        var v :| (r.output, v) in queue;
        var i :| 0 <= i < |queue| && queue[i] == (r.output, v);
        assert later[i - 1] == (r.output, v);
      } else {
        ReadersHas(rules, node, r);
        FiredHas(next, Readers(rules, node), (r.output, Eval(next, r)));
        assert (r.output, Eval(next, r)) in later;
      }
    }
  }

  /** Settling a pending state leaves nothing to fire. */
  lemma {:induction false} SettleClosed(rules: seq<Rule>, vals: seq<Option<bool>>, queue: seq<(Node, bool)>)
    requires ValidRules(rules) && |vals| == NodeCount && ValidQueue(queue)
    requires Pending(rules, vals, queue)
    ensures Closed(rules, Settle(rules, vals, queue))
    decreases Count(vals, None), |queue|
  {
    if queue != [] {
      var node := queue[0].0;
      if vals[node.code].Some? {
        PendingSkip(rules, vals, queue);
        SettleClosed(rules, vals, queue[1..]);
      } else {
        var next := Assign(vals, queue);
        CountSet(vals, node.code, queue[0].1);
        PendingSet(rules, vals, queue);
        SettleClosed(rules, next, Later(rules, vals, queue));
      }
    }
  }

  // ---------------------------------------------------------------------------
  // What `elf_add` computes

  /** x00..x44 hold the low 45 bits of x and y00..y44 those of y: no gate
      can set an input wire before its queued value is taken. */
  lemma {:induction false} ElfAddInputs(rules: seq<Rule>, x: nat, y: nat, i: nat)
    requires ValidRules(rules) && i < 45
    ensures Settled(rules, x, y)[X(i).code] == Some(TestBit(x, i))
    ensures Settled(rules, x, y)[Y(i).code] == Some(TestBit(y, i))
  {
    var q := InitialQueue(x, y);
    forall j, l | 0 <= j < l < 90
      ensures q[j].0 != q[l].0
    {
      InitialDistinct(x, y, j, l);
    }
    InitialQueueAt(x, y, i);
    InitialQueueAt(x, y, i + 45);
    SettleFront(rules, Unset(), q, 90, i);
    SettleFront(rules, Unset(), q, 90, i + 45);
  }

  /** Every value `elf_add` ends with is an input bit or the output of a
      gate evaluated on its inputs' final values, and no gate whose inputs
      both have values is left with its output unset. */
  lemma ElfAddSettles(rules: seq<Rule>, x: nat, y: nat)
    requires ValidRules(rules)
    ensures Sound(rules, InitialQueue(x, y), Settled(rules, x, y))
    ensures Closed(rules, Settled(rules, x, y))
  {
    var q := InitialQueue(x, y);
    assert QueueSound(rules, q, Unset(), q) by {
      forall i | 0 <= i < |q|
        ensures (q[i].0, q[i].1) in q
      {
        assert q[i] in q;
      }
    }
    SettleSound(rules, q, Unset(), q);
    SettleClosed(rules, Unset(), q);
  }

  /** `r` is the only gate driving its output, which is not an x or y input
      wire. */
  ghost predicate SoleDriver(rules: seq<Rule>, r: Rule)
  {
    && r in rules
    && (forall r' :: r' in rules && r'.output == r.output ==> r' == r)
    && forall i :: 0 <= i < 45 ==> r.output != X(i) && r.output != Y(i)
  }

  /** In a netlist where a gate is the only driver of its output, once its
      inputs have values its output holds exactly the gate's value. */
  lemma ElfAddGate(rules: seq<Rule>, x: nat, y: nat, r: Rule)
    requires ValidRules(rules) && SoleDriver(rules, r)
    requires Known(Settled(rules, x, y), r)
    ensures Settled(rules, x, y)[r.output.code] == Some(Eval(Settled(rules, x, y), r))
  {
    var vals := Settled(rules, x, y);
    var q := InitialQueue(x, y);
    ElfAddSettles(rules, x, y);
    assert vals[r.output.code].Some?;
    var v := vals[r.output.code].value;
    assert Justified(rules, q, vals, Node(r.output.code), v);
    if (r.output, v) in q {
      var i :| 0 <= i < |q| && q[i] == (r.output, v);
      InitialQueueAt(x, y, i);
      assert false;
    }
  }

  /** A wire that no gate drives and that is not an x or y input wire never
      gets a value. */
  lemma ElfAddUndriven(rules: seq<Rule>, x: nat, y: nat, n: Node)
    requires ValidRules(rules) && n.code < NodeCount
    requires forall r :: r in rules ==> r.output != n
    requires forall i :: 0 <= i < 45 ==> n != X(i) && n != Y(i)
    ensures Settled(rules, x, y)[n.code].None?
  {
    var vals := Settled(rules, x, y);
    var q := InitialQueue(x, y);
    ElfAddSettles(rules, x, y);
    if vals[n.code].Some? {
      var v := vals[n.code].value;
      assert Justified(rules, q, vals, Node(n.code), v);
      if (n, v) in q {
        var i :| 0 <= i < |q| && q[i] == (n, v);
        InitialQueueAt(x, y, i);
      }
      assert false;
    }
  }

  // ---------------------------------------------------------------------------
  // Testing one output bit

  /** Bit `k` of `c << s` is bit `k - s` of `c`. */
  lemma {:induction false} TestBitShift(c: nat, s: nat, j: nat)
    ensures TestBit(c * Pow2(s), s + j) == TestBit(c, j)
    decreases s
  {
    if s > 0 {
      var half := c * Pow2(s - 1);
      assert c * Pow2(s) == 2 * half;
      DivModUnique(2 * half, 2, half, 0);
      TestBitShift(c, s - 1, j);
    }
  }

  lemma {:induction false} Pow2Mono(a: nat, b: nat)
    requires a <= b
    ensures Pow2(a) <= Pow2(b)
    decreases b
  {
    if a < b {
      Pow2Mono(a, b - 1);
    }
  }

  /** Each pair of multipliers with its expected bit, shifted left by `s`. */
  function Shifted(table: seq<(nat, nat, bool)>, s: nat): (a: seq<(nat, nat, bool)>)
    ensures |a| == |table|
    ensures forall i :: 0 <= i < |a| ==>
      a[i] == (table[i].0 * Pow2(s), table[i].1 * Pow2(s), table[i].2)
  {
    seq(|table|, i requires 0 <= i < |table| => (table[i].0 * Pow2(s), table[i].1 * Pow2(s), table[i].2))
  }

  /** The tests for the bit itself: each input bit alone, both, neither. */
  const SumTable: seq<(nat, nat, bool)> :=
    [(1, 1, false), (1, 0, true), (0, 1, true), (0, 0, false)]

  /** The tests of the carry from the bit below, on the two bits ending at
      the bit under test. */
  const CarryTable: seq<(nat, nat, bool)> :=
    [(1, 0, false), (0, 1, false), (1, 1, true), (2, 1, true), (1, 2, true), (3, 0, true),
     (0, 3, true), (3, 1, false), (1, 3, false), (3, 2, false), (2, 3, false), (3, 3, true)]

  /** The tests of the top carry, for bits above 44. */
  const TopTable: seq<(nat, nat, bool)> := [(1, 0, false), (0, 1, false), (1, 1, true)]

  /** The `(x, y, expected bit)` triples `test_bit_rules` runs for `bit`. */
  function Assertions(bit: nat): (a: seq<(nat, nat, bool)>)
    ensures bit <= 44 ==> |a| == if bit > 0 then 16 else 4
    ensures bit > 44 ==> |a| == 3
  {
    if bit <= 44 then
      Shifted(SumTable, bit) + if bit > 0 then Shifted(CarryTable, bit - 1) else []
    else Shifted(TopTable, bit - 1)
  }

  /** Bit `j` of each row's sum is the row's expected bit. */
  ghost predicate AddsUp(table: seq<(nat, nat, bool)>, j: nat)
  {
    forall i :: 0 <= i < |table| ==> TestBit(table[i].0 + table[i].1, j) == table[i].2
  }

  lemma ShiftedAddsUp(table: seq<(nat, nat, bool)>, s: nat, j: nat)
    requires AddsUp(table, j)
    ensures AddsUp(Shifted(table, s), s + j)
  {
    var a := Shifted(table, s);
    forall i | 0 <= i < |a|
      ensures TestBit(a[i].0 + a[i].1, s + j) == a[i].2
    {
      assert a[i].0 + a[i].1 == (table[i].0 + table[i].1) * Pow2(s);
      TestBitShift(table[i].0 + table[i].1, s, j);
    }
  }

  lemma SumTableAdds()
    ensures AddsUp(SumTable, 0)
  {
  }

  lemma {:induction false} CarryTableAdds()
    ensures AddsUp(CarryTable, 1)
  {
    forall i | 0 <= i < |CarryTable|
      ensures TestBit(CarryTable[i].0 + CarryTable[i].1, 1) == CarryTable[i].2
    {
      var c := CarryTable[i].0 + CarryTable[i].1;
      assert TestBit(c, 1) == ((c / 2) % 2 == 1);
    }
  }

  lemma {:induction false} TopTableAdds()
    ensures AddsUp(TopTable, 1)
  {
    forall i | 0 <= i < |TopTable|
      ensures TestBit(TopTable[i].0 + TopTable[i].1, 1) == TopTable[i].2
    {
      var c := TopTable[i].0 + TopTable[i].1;
      assert TestBit(c, 1) == ((c / 2) % 2 == 1);
    }
  }

  lemma AddsUpJoin(a: seq<(nat, nat, bool)>, b: seq<(nat, nat, bool)>, j: nat)
    requires AddsUp(a, j) && AddsUp(b, j)
    ensures AddsUp(a + b, j)
  {
    forall i | 0 <= i < |a + b|
      ensures TestBit((a + b)[i].0 + (a + b)[i].1, j) == (a + b)[i].2
    {
      if i >= |a| {
        assert (a + b)[i] == b[i - |a|];
      }
    }
  }

  /** Every test asks for what true addition gives: bit `bit` of `x + y`. */
  lemma AssertionsAdd(bit: nat)
    ensures AddsUp(Assertions(bit), bit)
  {
    if bit <= 44 {
      SumTableAdds();
      ShiftedAddsUp(SumTable, bit, 0);
      if bit > 0 {
        CarryTableAdds();
        ShiftedAddsUp(CarryTable, bit - 1, 1);
        assert bit - 1 + 1 == bit;
        AddsUpJoin(Shifted(SumTable, bit), Shifted(CarryTable, bit - 1), bit);
      } else {
        AddsUpJoin(Shifted(SumTable, bit), [], bit);
      }
    } else {
      TopTableAdds();
      ShiftedAddsUp(TopTable, bit - 1, 1);
    }
  }

  /** Each of `tests` gets its expected bit `bit` from the netlist's sum. */
  ghost predicate Passes(rules: seq<Rule>, tests: seq<(nat, nat, bool)>, bit: nat)
    requires ValidRules(rules)
    decreases |tests|
  {
    tests == []
    || (TestBit(ElfAddValue(rules, tests[0].0, tests[0].1), bit) == tests[0].2 && Passes(rules, tests[1..], bit))
  }

  /** Every test of `bit` gets the expected bit of the netlist's sum. */
  ghost predicate BitWorks(rules: seq<Rule>, bit: nat)
  {
    ValidRules(rules) && Passes(rules, Assertions(bit), bit)
  }

  /** `test_bit_rules`: run `elf_add` on each test and stop at the first
      whose bit is wrong. */
  method TestBitRules(rules: seq<Rule>, bit: nat) returns (ok: bool)
    requires ValidRules(rules)
    ensures ok <==> BitWorks(rules, bit)
  {
    var a := Assertions(bit);
    for i := 0 to |a|
      invariant Passes(rules, a, bit) == Passes(rules, a[i..], bit)
    {
      assert a[i..][1..] == a[i + 1..];
      var (x, y, ans) := a[i];
      var z := ElfAdd(rules, x, y);
      if ans != TestBit(z, bit) {
        return false;
      }
    }
    assert a[|a|..] == [];
    return true;
  }

  /** 2^45: `elf_add` feeds in the bits of x and y below it. */
  const InputLimit: nat := 0x2000_0000_0000

  lemma {:induction false} Pow2Add(a: nat, b: nat)
    ensures Pow2(a + b) == Pow2(a) * Pow2(b)
    decreases a
  {
    if a > 0 {
      Pow2Add(a - 1, b);
    }
  }

  lemma {:induction false} InputLimitPow(k: nat)
    requires k <= 45
    ensures Pow2(k) <= InputLimit
  {
    Pow2Mono(k, 45);
    assert Pow2(9) == 512;
    Pow2Add(9, 9);
    Pow2Add(18, 9);
    Pow2Add(27, 9);
    Pow2Add(36, 9);
  }

  /** Both inputs of every test are below `n`. */
  ghost predicate Below(tests: seq<(nat, nat, bool)>, n: nat)
  {
    forall i :: 0 <= i < |tests| ==> tests[i].0 < n && tests[i].1 < n
  }

  lemma BelowJoin(a: seq<(nat, nat, bool)>, b: seq<(nat, nat, bool)>, n: nat)
    requires Below(a, n) && Below(b, n)
    ensures Below(a + b, n)
  {
    forall i | 0 <= i < |a + b|
      ensures (a + b)[i].0 < n && (a + b)[i].1 < n
    {
      if i >= |a| {
        assert (a + b)[i] == b[i - |a|];
      }
    }
  }

  /** Rows whose multipliers are at most `m`, shifted by `s`, stay below
      `n` when `(m + 1) << s` does not exceed it. */
  lemma {:induction false} ShiftedBelow(table: seq<(nat, nat, bool)>, s: nat, m: nat, n: nat)
    requires forall i :: 0 <= i < |table| ==> table[i].0 <= m && table[i].1 <= m
    requires (m + 1) * Pow2(s) <= n
    ensures Below(Shifted(table, s), n)
  {
    forall i | 0 <= i < |table|
      ensures table[i].0 * Pow2(s) < n && table[i].1 * Pow2(s) < n
    {
      MulLess(table[i].0, m, Pow2(s));
      MulLess(table[i].1, m, Pow2(s));
    }
  }

  lemma MulLess(a: nat, m: nat, p: nat)
    requires a <= m && p >= 1
    ensures a * p < (m + 1) * p
  {
    assert (m + 1) * p - a * p == (m + 1 - a) * p;
    MulAtLeast(m + 1 - a, p);
  }

  lemma SumInRange(bit: nat)
    requires bit <= 44
    ensures Below(Shifted(SumTable, bit), InputLimit)
  {
    InputLimitPow(bit + 1);
    ShiftedBelow(SumTable, bit, 1, InputLimit);
  }

  lemma CarryInRange(bit: nat)
    requires 0 < bit <= 44
    ensures Below(Shifted(CarryTable, bit - 1), InputLimit)
  {
    InputLimitPow(bit + 1);
    assert Pow2(bit + 1) == 4 * Pow2(bit - 1);
    assert forall i :: 0 <= i < |CarryTable| ==> CarryTable[i].0 <= 3 && CarryTable[i].1 <= 3;
    ShiftedBelow(CarryTable, bit - 1, 3, InputLimit);
  }

  lemma TopInRange(bit: nat)
    requires 44 < bit <= 45
    ensures Below(Shifted(TopTable, bit - 1), InputLimit)
  {
    InputLimitPow(bit);
    assert Pow2(bit) == 2 * Pow2(bit - 1);
    assert forall i :: 0 <= i < |TopTable| ==> TopTable[i].0 <= 1 && TopTable[i].1 <= 1;
    ShiftedBelow(TopTable, bit - 1, 1, InputLimit);
  }

  /** The tests of bits up to 45 use inputs below 2^45, all that `elf_add`
      feeds in. */
  lemma AssertionsInRange(bit: nat)
    requires bit <= 45
    ensures Below(Assertions(bit), InputLimit)
  {
    if bit <= 44 {
      SumInRange(bit);
      if bit > 0 {
        CarryInRange(bit);
        BelowJoin(Shifted(SumTable, bit), Shifted(CarryTable, bit - 1), InputLimit);
      } else {
        BelowJoin(Shifted(SumTable, bit), [], InputLimit);
      }
    } else {
      TopInRange(bit);
    }
  }

  /** The netlist adds every pair of 45-bit numbers. */
  ghost predicate Adds(rules: seq<Rule>)
    requires ValidRules(rules)
  {
    forall x: nat, y: nat :: x < InputLimit && y < InputLimit ==> ElfAddValue(rules, x, y) == x + y
  }

  lemma {:induction false} AdderPassesTests(rules: seq<Rule>, tests: seq<(nat, nat, bool)>, bit: nat)
    requires ValidRules(rules) && Adds(rules)
    requires AddsUp(tests, bit) && Below(tests, InputLimit)
    ensures Passes(rules, tests, bit)
    decreases |tests|
  {
    if tests != [] {
      var rest := tests[1..];
      assert forall i :: 0 <= i < |rest| ==> rest[i] == tests[i + 1];
      var x, y := tests[0].0, tests[0].1;
      assert x < InputLimit && y < InputLimit;
      assert ElfAddValue(rules, x, y) == x + y;
      assert TestBit(x + y, bit) == tests[0].2;
      AdderPassesTests(rules, rest, bit);
    }
  }

  /** A netlist that adds every pair of 45-bit numbers passes the tests of
      every bit up to 45. */
  lemma AdderPasses(rules: seq<Rule>, bit: nat)
    requires ValidRules(rules) && Adds(rules) && bit <= 45
    ensures BitWorks(rules, bit)
  {
    AssertionsAdd(bit);
    AssertionsInRange(bit);
    AdderPassesTests(rules, Assertions(bit), bit);
  }

  // ---------------------------------------------------------------------------
  // Repairing one output bit

  /** Some gate drives z wire `bit`. */
  ghost predicate Driven(rules: seq<Rule>, bit: nat)
  {
    exists r :: r in rules && r.output == Z(bit)
  }

  ghost predicate ValidNodes(nodes: seq<Node>)
  {
    forall n :: n in nodes ==> n.code < NodeCount
  }

  /** No wire of `leading` other than `a` makes the bit's tests pass when
      swapped with `a`. */
  ghost predicate NoPartner(rules: seq<Rule>, bit: nat, a: Node, leading: seq<Node>)
    decreases |leading|
  {
    leading == []
    || ((leading[0] == a || !BitWorks(Swapped(rules, a, leading[0]), bit)) && NoPartner(rules, bit, a, leading[1..]))
  }

  /** No pair of a wire of `plausible` and a different wire of `leading`
      makes the bit's tests pass when swapped. */
  ghost predicate NoPair(rules: seq<Rule>, bit: nat, plausible: seq<Node>, leading: seq<Node>)
    decreases |plausible|
  {
    plausible == [] || (NoPartner(rules, bit, plausible[0], leading) && NoPair(rules, bit, plausible[1..], leading))
  }

  lemma {:induction false} NoPartnerMeans(rules: seq<Rule>, bit: nat, a: Node, leading: seq<Node>)
    ensures NoPartner(rules, bit, a, leading) <==>
      forall b :: b in leading && b != a ==> !BitWorks(Swapped(rules, a, b), bit)
    decreases |leading|
  {
    if leading != [] {
      var rest := leading[1..];
      NoPartnerMeans(rules, bit, a, rest);
      assert leading == [leading[0]] + rest;
      if forall b :: b in leading && b != a ==> !BitWorks(Swapped(rules, a, b), bit) {
        assert leading[0] in leading;
        forall b | b in rest && b != a
          ensures !BitWorks(Swapped(rules, a, b), bit)
        {
          assert b in leading;
        }
      }
    }
  }

  /** The search finding nothing means that no candidate pair works. */
  lemma {:induction false} NoPairMeans(rules: seq<Rule>, bit: nat, plausible: seq<Node>, leading: seq<Node>)
    ensures NoPair(rules, bit, plausible, leading) <==>
      forall a, b :: a in plausible && b in leading && a != b ==> !BitWorks(Swapped(rules, a, b), bit)
    decreases |plausible|
  {
    if plausible != [] {
      NoPairMeans(rules, bit, plausible[1..], leading);
      NoPartnerMeans(rules, bit, plausible[0], leading);
      assert plausible == [plausible[0]] + plausible[1..];
    }
  }

  /** What `fix_bit` decides: nothing to swap, a swap that makes the bit's
      tests pass, or no candidate pair does (where the source panics). */
  datatype Fix = NoSwap | SwapPair(a: Node, b: Node) | Panic

  /** The check `fix_bit` starts with: whether any gate drives z wire
      `bit`. */
  method IsDriven(rules: seq<Rule>, bit: nat) returns (driven: bool)
    ensures driven <==> Driven(rules, bit)
  {
    driven := false;
    for i := 0 to |rules|
      invariant driven <==> exists k :: 0 <= k < i && rules[k].output == Z(bit)
    {
      if rules[i].output == Z(bit) {
        driven := true;
      }
    }
    if driven {
      var k :| 0 <= k < |rules| && rules[k].output == Z(bit);
      assert rules[k] in rules;
    }
  }

  /** One trial of the search: swap `a` and `b` in a copy of the gates and
      run the bit's tests on it. */
  method TrySwap(rules: seq<Rule>, bit: nat, a: Node, b: Node) returns (ok: bool)
    requires ValidRules(rules) && a.code < NodeCount && b.code < NodeCount
    ensures ok <==> BitWorks(Swapped(rules, a, b), bit)
  {
    var copy := new Rule[|rules|](i requires 0 <= i < |rules| => rules[i]);
    assert copy[..] == rules;
    SwapRules(copy, a, b);
    SwappedValid(rules, a, b);
    ok := TestBitRules(copy[..], bit);
  }

  /** One more failed partner: the prefix of `leading` still holds none. */
  lemma {:induction false} NoPartnerExtend(rules: seq<Rule>, bit: nat, a: Node, leading: seq<Node>, j: nat)
    requires j < |leading| && NoPartner(rules, bit, a, leading[..j])
    requires leading[j] == a || !BitWorks(Swapped(rules, a, leading[j]), bit)
    ensures NoPartner(rules, bit, a, leading[..j + 1])
  {
    NoPartnerMeans(rules, bit, a, leading[..j]);
    NoPartnerMeans(rules, bit, a, leading[..j + 1]);
    assert leading[..j + 1] == leading[..j] + [leading[j]];
  }

  /** One more wire without a partner: the prefix of `plausible` still holds
      no pair. */
  lemma {:induction false} NoPairExtend(rules: seq<Rule>, bit: nat, plausible: seq<Node>, leading: seq<Node>, i: nat)
    requires i < |plausible| && NoPair(rules, bit, plausible[..i], leading)
    requires NoPartner(rules, bit, plausible[i], leading)
    ensures NoPair(rules, bit, plausible[..i + 1], leading)
  {
    NoPairMeans(rules, bit, plausible[..i], leading);
    NoPairMeans(rules, bit, plausible[..i + 1], leading);
    NoPartnerMeans(rules, bit, plausible[i], leading);
    assert plausible[..i + 1] == plausible[..i] + [plausible[i]];
  }

  /** The inner loop of the search: the first wire of `leading`, other
      than `a`, whose swap with `a` makes the bit's tests pass. */
  method TryPartners(rules: seq<Rule>, bit: nat, a: Node, leading: seq<Node>) returns (found: Option<Node>)
    requires ValidRules(rules) && a.code < NodeCount && ValidNodes(leading)
    ensures found.Some? ==>
      found.value in leading && found.value != a && BitWorks(Swapped(rules, a, found.value), bit)
    ensures found.Some? ==>
      exists j :: 0 <= j < |leading| && leading[j] == found.value && NoPartner(rules, bit, a, leading[..j])
    ensures found.None? ==> NoPartner(rules, bit, a, leading)
  {
    for j := 0 to |leading|
      invariant NoPartner(rules, bit, a, leading) == NoPartner(rules, bit, a, leading[j..])
      invariant NoPartner(rules, bit, a, leading[..j])
    {
      assert leading[j..][1..] == leading[j + 1..];
      var b := leading[j];
      if a != b {
        var ok := TrySwap(rules, bit, a, b);
        if ok {
          return Some(b);
        }
      }
      NoPartnerExtend(rules, bit, a, leading, j);
    }
    assert leading[|leading|..] == [];
    return None;
  }

  /** `fix_bit` with its candidate wires given: `plausible`, the wires the
      source finds to depend only on input bits up to `bit`, and `leading`,
      the outputs of the gates feeding z wire `bit`. */
  method FixBit(rules: seq<Rule>, bit: nat, plausible: seq<Node>, leading: seq<Node>) returns (f: Fix)
    requires ValidRules(rules) && ValidNodes(plausible) && ValidNodes(leading)
    ensures f.NoSwap? <==> !Driven(rules, bit) || BitWorks(rules, bit)
    ensures f.SwapPair? ==>
      f.a in plausible && f.b in leading && f.a != f.b && BitWorks(Swapped(rules, f.a, f.b), bit)
    ensures f.Panic? ==> NoPair(rules, bit, plausible, leading)
  {
    var driven := IsDriven(rules, bit);
    if !driven {
      return NoSwap;
    }
    var ok := TestBitRules(rules, bit);
    if ok {
      return NoSwap;
    }
    var pair := SearchPairs(rules, bit, plausible, leading);
    if pair.Some? {
      return SwapPair(pair.value.0, pair.value.1);
    }
    return Panic;
  }

  /** The two nested loops of the search, in the source's order. */
  method SearchPairs(rules: seq<Rule>, bit: nat, plausible: seq<Node>, leading: seq<Node>)
    returns (pair: Option<(Node, Node)>)
    requires ValidRules(rules) && ValidNodes(plausible) && ValidNodes(leading)
    ensures pair.Some? ==>
      && pair.value.0 in plausible && pair.value.1 in leading && pair.value.0 != pair.value.1
      && BitWorks(Swapped(rules, pair.value.0, pair.value.1), bit)
    ensures pair.Some? ==>
      exists i :: 0 <= i < |plausible| && plausible[i] == pair.value.0 && NoPair(rules, bit, plausible[..i], leading)
        && exists j :: 0 <= j < |leading| && leading[j] == pair.value.1 && NoPartner(rules, bit, plausible[i], leading[..j])
    ensures pair.None? ==> NoPair(rules, bit, plausible, leading)
  {
    for i := 0 to |plausible|
      invariant NoPair(rules, bit, plausible, leading) == NoPair(rules, bit, plausible[i..], leading)
      invariant NoPair(rules, bit, plausible[..i], leading)
    {
      assert plausible[i..][1..] == plausible[i + 1..];
      var found := TryPartners(rules, bit, plausible[i], leading);
      if found.Some? {
        return Some((plausible[i], found.value));
      }
      NoPairExtend(rules, bit, plausible, leading, i);
    }
    assert plausible[|plausible|..] == [];
    return None;
  }

  // ---------------------------------------------------------------------------
  // Reading the puzzle input

  /** The characters of a printed wire are base-36 digits: no colon and no
      whitespace among them. */
  lemma ShowChars(n: Node)
    ensures forall i :: 0 <= i < 3 ==> Digit36(Show(n)[i]).Some? && !IsWhitespace(Show(n)[i])
    ensures ':' !in Show(n)
  {
  }

  /** One line of the first block: a wire, ": " and its value, which is
      true exactly when the text after the colon is "1". */
  function ParseWire(line: string): (r: Option<(Node, bool)>)
    ensures r.Some? ==>
      && r.value.0.code <= MaxCode && |line| >= 5
      && line[..3] == Show(r.value.0) && line[3..5] == ": " && (r.value.1 <==> line[5..] == "1")
  {
    var parts := SplitOnce(line, ": ");
    if parts.None? then None
    else
      var node := ParseNode(parts.value.0);
      if node.None? then None
      else
        ShowParse(node.value, parts.value.0);
        assert line == parts.value.0 + ": " + parts.value.1;
        assert line[..3] == parts.value.0 && line[3..5] == ": " && line[5..] == parts.value.1;
        Some((node.value, parts.value.1 == "1"))
  }

  /** The line that lists wire `n` with value `v`. */
  function WireLine(n: Node, v: bool): string
  {
    Show(n) + ": " + (if v then "1" else "0")
  }

  lemma WireReadsBack(n: Node, v: bool)
    requires n.code <= MaxCode
    ensures ParseWire(WireLine(n, v)) == Some((n, v))
  {
    ShowChars(n);
    SplitOnceFirst(Show(n), if v then "1" else "0", ": ");
    ShowParse(n, Show(n));
  }

  /** One line of the second block: its first, second, third and fifth
      words are the first input, the operation, the second input and the
      output; the fourth is not looked at. */
  function ParseGate(line: string): (r: Option<Rule>)
    ensures r.Some? ==> ValidRule(r.value) && |Words(line)| >= 5
    ensures r.Some? ==> var w := Words(line);
      && w[0] == Show(r.value.inputs.0) && w[1] == ShowOperation(r.value.operation)
      && w[2] == Show(r.value.inputs.1) && w[4] == Show(r.value.output)
  {
    var w := Words(line);
    if |w| < 5 then None
    else
      var a, op, b, out := ParseNode(w[0]), ParseOperation(w[1]), ParseNode(w[2]), ParseNode(w[4]);
      if a.None? || op.None? || b.None? || out.None? then None
      else
        ShowParse(a.value, w[0]);
        ShowParse(b.value, w[2]);
        ShowParse(out.value, w[4]);
        ParseOperationNames(w[1], op.value);
        Some(Rule((a.value, b.value), out.value, op.value))
  }

  /** The line that lists gate `r`. */
  function GateLine(r: Rule): string
  {
    Unwords(GateWordList(r))
  }

  /** The five words a gate line is made of. */
  function GateWordList(r: Rule): seq<string>
  {
    [Show(r.inputs.0), ShowOperation(r.operation), Show(r.inputs.1), "->", Show(r.output)]
  }

  /** The five words of a gate line. */
  lemma GateWords(r: Rule)
    ensures Words(GateLine(r)) == GateWordList(r)
  {
    ShowChars(r.inputs.0);
    ShowChars(r.inputs.1);
    ShowChars(r.output);
    var ws := GateWordList(r);
    assert IsWord(ws[1]);
    assert IsWord(ws[3]);
    assert forall i :: 0 <= i < |ws| ==> IsWord(ws[i]) by {
      forall i | 0 <= i < |ws|
        ensures IsWord(ws[i])
      {
        assert i == 0 || i == 1 || i == 2 || i == 3 || i == 4;
      }
    }
    WordsUnwords(ws);
  }

  lemma GateReadsBack(r: Rule)
    requires r.inputs.0.code <= MaxCode && r.inputs.1.code <= MaxCode && r.output.code <= MaxCode
    ensures ParseGate(GateLine(r)) == Some(r)
  {
    GateWords(r);
    ShowParse(r.inputs.0, Show(r.inputs.0));
    ShowParse(r.inputs.1, Show(r.inputs.1));
    ShowParse(r.output, Show(r.output));
    ParseOperationNames(ShowOperation(r.operation), r.operation);
  }

  /** Every line parsed as a wire value, or `None` if one is not one. */
  function ParseWires(lines: seq<string>): (r: Option<seq<(Node, bool)>>)
    ensures r.Some? ==> |r.value| == |lines|
    ensures r.Some? ==> forall i :: 0 <= i < |lines| ==> ParseWire(lines[i]) == Some(r.value[i])
    ensures r.None? ==> exists i :: 0 <= i < |lines| && ParseWire(lines[i]).None?
  {
    var parsed := seq(|lines|, i requires 0 <= i < |lines| => ParseWire(lines[i]));
    AllSome(parsed)
  }

  /** Every line parsed as a gate, or `None` if one is not one. */
  function ParseGates(lines: seq<string>): (r: Option<seq<Rule>>)
    ensures r.Some? ==> |r.value| == |lines| && ValidRules(r.value)
    ensures r.Some? ==> forall i :: 0 <= i < |lines| ==> ParseGate(lines[i]) == Some(r.value[i])
    ensures r.None? ==> exists i :: 0 <= i < |lines| && ParseGate(lines[i]).None?
  {
    var parsed := seq(|lines|, i requires 0 <= i < |lines| => ParseGate(lines[i]));
    var r := AllSome(parsed);
    if r.Some? then
      assert forall g :: g in r.value ==> ValidRule(g) by {
        forall g | g in r.value
          ensures ValidRule(g)
        {
          var i :| 0 <= i < |r.value| && r.value[i] == g;
          assert parsed[i] == Some(g);
        }
      }
      r
    else r
  }

  /** `parse_input`: the trimmed input split at its first blank line into
      the wire values and the gates. */
  function ParseInput(input: string): (r: Option<(seq<(Node, bool)>, seq<Rule>)>)
    ensures r.Some? ==> ValidRules(r.value.1)
    ensures r.Some? <==> (
      && SplitOnce(Trim(input), "\n\n").Some?
      && ParseWires(Lines(SplitOnce(Trim(input), "\n\n").value.0)).Some?
      && ParseGates(Lines(SplitOnce(Trim(input), "\n\n").value.1)).Some?)
  {
    var halves := SplitOnce(Trim(input), "\n\n");
    if halves.None? then None
    else
      var wires := ParseWires(Lines(halves.value.0));
      var gates := ParseGates(Lines(halves.value.1));
      if wires.None? || gates.None? then None
      else Some((wires.value, gates.value))
  }

  /** `day24part1`: read x and y off the listed wire values and run the
      netlist on them. */
  method Day24Part1(input: string) returns (r: Option<nat>)
    ensures r == match ParseInput(input)
      case None => None
      case Some((wires, gates)) => Some(ElfAddValue(gates, FromBits(XBits(wires)), FromBits(YBits(wires))))
  {
    var parsed := ParseInput(input);
    if parsed.None? {
      return None;
    }
    var (wires, gates) := parsed.value;
    var x, y := DeserializeInputs(wires);
    var z := ElfAdd(gates, x, y);
    r := Some(z);
  }
}
