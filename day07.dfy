/** Day 7: calibration equations. An equation holds when some choice of `+`
    and `*` between its operands, evaluated left to right, gives its result. */
module Day07 {
  import opened Common

  datatype Equation = Equation(result: int, operands: seq<int>)

  datatype Op = Add | Mul

  /** Left-to-right evaluation of `first op0 tail[0] op1 tail[1] ...`. */
  function Eval(first: int, tail: seq<int>, ops: seq<Op>): int
    requires |ops| == |tail|
    decreases |tail|
  {
    if |tail| == 0 then first
    else Eval(if ops[0] == Mul then first * tail[0] else first + tail[0], tail[1..], ops[1..])
  }

  ghost predicate Solvable(result: int, first: int, tail: seq<int>)
  {
    exists ops :: |ops| == |tail| && Eval(first, tail, ops) == result
  }

  /** `find_operators` (lines 16-34): depth first, multiplication before
      addition, pruning any partial value above `result`. The string it
      returns is always empty: no operator is ever recorded into it. */
  function FindOperators(result: int, first: int, tail: seq<int>): (r: Option<string>)
    ensures r.Some? ==> r.value == ""
    decreases |tail|
  {
    if |tail| == 0 then
      if result == first then Some("") else None
    else
      var next := tail[0];
      var viaMul := if first * next <= result then FindOperators(result, first * next, tail[1..]) else None;
      if viaMul.Some? then viaMul
      else if first + next <= result then FindOperators(result, first + next, tail[1..])
      else None
  }

  /** Whatever the search accepts is solvable. */
  lemma {:induction false} FindOperatorsSound(result: int, first: int, tail: seq<int>)
    requires FindOperators(result, first, tail).Some?
    ensures Solvable(result, first, tail)
    decreases |tail|
  {
    if |tail| == 0 {
      assert Eval(first, tail, []) == result;
    } else {
      var next := tail[0];
      var viaMul := if first * next <= result then FindOperators(result, first * next, tail[1..]) else None;
      var op := if viaMul.Some? then Mul else Add;
      var value := if viaMul.Some? then first * next else first + next;
      FindOperatorsSound(result, value, tail[1..]);
      var ops :| |ops| == |tail[1..]| && Eval(value, tail[1..], ops) == result;
      assert ([op] + ops)[1..] == ops;
      assert Eval(first, tail, [op] + ops) == result;
    }
  }

  /** With positive operands evaluation never goes down. */
  lemma {:induction false} EvalGrows(first: int, tail: seq<int>, ops: seq<Op>)
    requires |ops| == |tail| && first >= 0
    requires forall i :: 0 <= i < |tail| ==> tail[i] >= 1
    ensures Eval(first, tail, ops) >= first
    decreases |tail|
  {
    if |tail| > 0 {
      var value := if ops[0] == Mul then first * tail[0] else first + tail[0];
      assert value >= first;
      EvalGrows(value, tail[1..], ops[1..]);
    }
  }

  /** With a non-negative first operand and positive others the pruning loses
      nothing: every solvable equation is found. */
  lemma {:induction false} FindOperatorsComplete(result: int, first: int, tail: seq<int>, ops: seq<Op>)
    requires |ops| == |tail| && Eval(first, tail, ops) == result
    requires first >= 0 && forall i :: 0 <= i < |tail| ==> tail[i] >= 1
    ensures FindOperators(result, first, tail).Some?
    decreases |tail|
  {
    if |tail| > 0 {
      var next := tail[0];
      var value := if ops[0] == Mul then first * next else first + next;
      assert value >= 0 && value >= first;
      EvalGrows(value, tail[1..], ops[1..]);
      FindOperatorsComplete(result, value, tail[1..], ops[1..]);
    }
  }

  /** `1 * 0` reaches 0 but the first product, 5, already exceeds it and is
      pruned: the completeness above needs positive operands. */
  lemma ZeroOperandPruned()
    ensures Eval(5, [1, 0], [Mul, Mul]) == 0
    ensures FindOperators(0, 5, [1, 0]).None?
  {
  }

  /** `BareEquation::from_str` (lines 39-45); None where it unwraps a failure:
      no colon, no `i64` before the first colon, or a word after it that is
      no `i64`. */
  function ParseEquation(line: string): (r: Option<Equation>)
    ensures Find(line, ":").None? ==> r.None?
    ensures Find(line, ":").Some? ==>
      var colon := Find(line, ":").value;
      && (r.Some? <==>
            ParseSigned(line[..colon], I64_LIMIT).Some? && ParseAll(Words(Trim(line[colon + 1..]))).Some?)
      && (r.Some? ==> ParseSigned(line[..colon], I64_LIMIT) == Some(r.value.result))
      && (r.Some? ==> ParseAll(Words(Trim(line[colon + 1..]))) == Some(r.value.operands))
  {
    match SplitOnce(line, ":")
    case None => None
    case Some((left, right)) =>
      match ParseSigned(left, I64_LIMIT)
      case None => None
      case Some(result) =>
        match ParseAll(Words(Trim(right)))
        case None => None
        case Some(operands) => Some(Equation(result, operands))
  }

  /** Every word parsed as `i64`, or None if one fails. */
  function ParseAll(words: seq<string>): (r: Option<seq<int>>)
    ensures r.Some? <==> forall i :: 0 <= i < |words| ==> ParseSigned(words[i], I64_LIMIT).Some?
    ensures r.Some? ==> |r.value| == |words|
    ensures r.Some? ==> forall i :: 0 <= i < |words| ==> ParseSigned(words[i], I64_LIMIT) == Some(r.value[i])
  {
    if |words| == 0 then Some([])
    else
      match (ParseSigned(words[0], I64_LIMIT), ParseAll(words[1..]))
      case (Some(n), Some(rest)) =>
        assert forall i :: 1 <= i < |words| ==> words[i] == words[1..][i - 1];
        Some([n] + rest)
      case _ => None
  }

  /** The non-empty trimmed lines (line 4). */
  function EquationLines(input: string): seq<string>
  {
    NonEmptyTrimmed(Lines(input))
  }

  function NonEmptyTrimmed(lines: seq<string>): (r: seq<string>)
    ensures forall i :: 0 <= i < |r| ==> |r[i]| > 0
  {
    if |lines| == 0 then []
    else
      var t := Trim(lines[0]);
      (if |t| == 0 then [] else [t]) + NonEmptyTrimmed(lines[1..])
  }

  /** The part-1 total of a list of equations; None where the source panics
      (an equation without operands, for which `operands[0]` is out of range). */
  function TotalCalibration(eqs: seq<Equation>): (r: Option<int>)
  {
    if |eqs| == 0 then Some(0)
    else
      var eq := eqs[|eqs| - 1];
      match TotalCalibration(eqs[..|eqs| - 1])
      case None => None
      case Some(total) =>
        if |eq.operands| == 0 then None
        else if FindOperators(eq.result, eq.operands[0], eq.operands[1..]).Some? then Some(total + eq.result)
        else Some(total)
  }

  /** Operands a non-negative first and positive others, as in the puzzle. */
  predicate PositiveOperands(eqs: seq<Equation>)
  {
    forall k :: 0 <= k < |eqs| ==>
      && |eqs[k].operands| > 0
      && eqs[k].operands[0] >= 0
      && forall i :: 1 <= i < |eqs[k].operands| ==> eqs[k].operands[i] >= 1
  }

  /** On such equations the total is exactly the sum of the results of the
      solvable equations. */
  lemma {:induction false} TotalCalibrationCorrect(eqs: seq<Equation>)
    requires PositiveOperands(eqs)
    ensures TotalCalibration(eqs) == Some(SolvableTotal(eqs))
  {
    if |eqs| > 0 {
      var init := eqs[..|eqs| - 1];
      assert forall k :: 0 <= k < |init| ==> init[k] == eqs[k];
      TotalCalibrationCorrect(init);
      var eq := eqs[|eqs| - 1];
      var first, tail := eq.operands[0], eq.operands[1..];
      assert forall i :: 0 <= i < |tail| ==> tail[i] == eq.operands[i + 1];
      if FindOperators(eq.result, first, tail).Some? {
        FindOperatorsSound(eq.result, first, tail);
      } else if Solvable(eq.result, first, tail) {
        var ops :| |ops| == |tail| && Eval(first, tail, ops) == eq.result;
        FindOperatorsComplete(eq.result, first, tail, ops);
      }
    }
  }

  /** The intended total: the results of all solvable equations. */
  ghost function SolvableTotal(eqs: seq<Equation>): int
  {
    if |eqs| == 0 then 0
    else
      var eq := eqs[|eqs| - 1];
      SolvableTotal(eqs[..|eqs| - 1])
        + (if |eq.operands| > 0 && Solvable(eq.result, eq.operands[0], eq.operands[1..]) then eq.result else 0)
  }

  function ParseEquations(lines: seq<string>): (r: Option<seq<Equation>>)
    ensures r.Some? ==> |r.value| == |lines|
  {
    if |lines| == 0 then Some([])
    else
      match (ParseEquations(lines[..|lines| - 1]), ParseEquation(lines[|lines| - 1]))
      case (Some(eqs), Some(eq)) => Some(eqs + [eq])
      case _ => None
  }

  /** Lines 3-8; None where the source panics. */
  function Part1(input: string): Option<int>
  {
    match ParseEquations(EquationLines(input))
    case None => None
    case Some(eqs) => TotalCalibration(eqs)
  }

  // ---------------------------------------------------------------------------
  // Equations of the test at lines 60-68

  lemma Examples()
    ensures FindOperators(190, 10, [19]).Some?
    ensures FindOperators(3267, 81, [40, 27]).Some?
    ensures FindOperators(83, 17, [5]).None?
    ensures FindOperators(292, 11, [6, 16, 20]).Some?
    ensures FindOperators(7290, 6, [8, 6, 15]).None?
  {
    assert FindOperators(3267, 3240, [27]).Some?;
    assert FindOperators(292, 66, [16, 20]).None? by {
      assert FindOperators(292, 1056, [20]).None?;
    }
    assert FindOperators(292, 17, [16, 20]).Some? by {
      assert FindOperators(292, 272, [20]).Some?;
    }
  }
}
