/** Day 17: a three-bit computer. A program is a list of bytes read in
    (opcode, operand) pairs; registers A, B and C hold `i64` values and the
    `out` instruction emits three-bit values. */
module Day17 {
  import opened Common

  datatype Opcode = Adv | Bxl | Bst | Jnz | Bxc | Out | Bdv | Cdv

  /** Why a run stops. `ShiftOverflow` is the panic of an `i64` shift by a
      negative amount or by 64 or more. */
  datatype Termination = EndOfProgram | InvalidOpcode | InvalidProgram | ShiftOverflow

  datatype Result<T> = Ok(value: T) | Err(reason: Termination)

  /** `Opcode::try_from` (lines 57-73). */
  function OpcodeOf(v: nat): (r: Result<Opcode>)
    ensures r.Ok? <==> v < 8
    ensures r.Err? ==> r.reason == InvalidOpcode
  {
    if v == 0 then Ok(Adv)
    else if v == 1 then Ok(Bxl)
    else if v == 2 then Ok(Bst)
    else if v == 3 then Ok(Jnz)
    else if v == 4 then Ok(Bxc)
    else if v == 5 then Ok(Out)
    else if v == 6 then Ok(Bdv)
    else if v == 7 then Ok(Cdv)
    else Err(InvalidOpcode)
  }

  /** The number of each opcode: its position in the declaration. */
  function Code(op: Opcode): nat
  {
    match op
    case Adv => 0 case Bxl => 1 case Bst => 2 case Jnz => 3
    case Bxc => 4 case Out => 5 case Bdv => 6 case Cdv => 7
  }

  /** Decoding is the inverse of numbering, in both directions. */
  lemma OpcodeRoundTrip(op: Opcode, v: nat)
    ensures OpcodeOf(Code(op)) == Ok(op)
    ensures v < 8 ==> Code(OpcodeOf(v).value) == v
  {
  }

  // ---------------------------------------------------------------------------
  // Bit operations on two's-complement integers

  /** `x >> k` on a signed integer: `k` halvings, each rounded down, which
      is the quotient by 2^k rounded down. */
  function ShiftRight(x: int, k: nat): int
  {
    if k == 0 then x else ShiftRight(x, k - 1) / 2
  }

  /** Bitwise exclusive or of two two's-complement integers. */
  function Xor(x: int, y: int): int
    decreases Abs(x) + Abs(y)
  {
    if (x == 0 || x == -1) && (y == 0 || y == -1) then
      if x == y then 0 else -1
    else
      2 * Xor(x / 2, y / 2) + (if x % 2 == y % 2 then 0 else 1)
  }

  /** Exclusive or with the same value twice gives back the first value, so
      two identical `bxl` instructions cancel. */
  lemma {:induction false} XorTwice(x: int, y: int)
    ensures Xor(Xor(x, y), y) == x
    decreases Abs(x) + Abs(y)
  {
    if (x == 0 || x == -1) && (y == 0 || y == -1) {
    } else {
      var z := Xor(x, y);
      XorTwice(x / 2, y / 2);
      assert z / 2 == Xor(x / 2, y / 2);
      assert z % 2 == (if x % 2 == y % 2 then 0 else 1);
    }
  }

  /** Exclusive or of two non-negative numbers below 2^k stays below 2^k. */
  lemma {:induction false} XorBelow(x: int, y: int, k: nat)
    requires 0 <= x < Pow2(k) && 0 <= y < Pow2(k)
    ensures 0 <= Xor(x, y) < Pow2(k)
    decreases k
  {
    if !((x == 0 || x == -1) && (y == 0 || y == -1)) {
      XorBelow(x / 2, y / 2, k - 1);
    }
  }

  // ---------------------------------------------------------------------------
  // The machine as a function of its state

  datatype State = State(ip: nat, a: int, b: int, c: int)

  /** `decode_combo` (lines 157-165). */
  function Combo(s: State, v: nat): (r: Result<int>)
    ensures v <= 3 ==> r == Ok(v)
    ensures v == 4 ==> r == Ok(s.a)
    ensures v == 5 ==> r == Ok(s.b)
    ensures v == 6 ==> r == Ok(s.c)
    ensures v >= 7 <==> r == Err(InvalidProgram)
  {
    if v <= 3 then Ok(v)
    else if v == 4 then Ok(s.a)
    else if v == 5 then Ok(s.b)
    else if v == 6 then Ok(s.c)
    else Err(InvalidProgram)
  }

  /** A shift by a combo operand: Rust panics unless the amount is in 0..63. */
  function Shift(x: int, amount: Result<int>): Result<int>
  {
    match amount
    case Err(e) => Err(e)
    case Ok(k) => if 0 <= k < 64 then Ok(ShiftRight(x, k)) else Err(ShiftOverflow)
  }

  /** What one step leaves behind: the state, the output so far, and the reason
      to stop if the step failed. */
  datatype StepOutcome = StepOutcome(state: State, output: seq<int>, stop: Option<Termination>)

  /** `Computer::step` (lines 181-213). Each `take_value` advances the
      instruction pointer before the value is decoded. */
  function StepSpec(program: seq<nat>, s: State, output: seq<int>): StepOutcome
  {
    if s.ip >= |program| then StepOutcome(s, output, Some(EndOfProgram))
    else
      var s1 := s.(ip := s.ip + 1);
      match OpcodeOf(program[s.ip])
      case Err(e) => StepOutcome(s1, output, Some(e))
      case Ok(op) =>
        if s1.ip >= |program| then StepOutcome(s1, output, Some(EndOfProgram))
        else
          var operand := program[s1.ip];
          var s2 := s1.(ip := s1.ip + 1);
          Execute(op, operand, s2, output)
  }

  function Execute(op: Opcode, operand: nat, s: State, output: seq<int>): StepOutcome
  {
    match op
    case Adv =>
      (match Shift(s.a, Combo(s, operand))
       case Err(e) => StepOutcome(s, output, Some(e))
       case Ok(v) => StepOutcome(s.(a := v), output, None))
    case Bxl => StepOutcome(s.(b := Xor(s.b, operand)), output, None)
    case Bst =>
      (match Combo(s, operand)
       case Err(e) => StepOutcome(s, output, Some(e))
       case Ok(v) => StepOutcome(s.(b := v % 8), output, None))
    case Jnz => if s.a != 0 then StepOutcome(s.(ip := operand), output, None) else StepOutcome(s, output, None)
    case Bxc => StepOutcome(s.(b := Xor(s.b, s.c)), output, None)
    case Out =>
      (match Combo(s, operand)
       case Err(e) => StepOutcome(s, output, Some(e))
       case Ok(v) => StepOutcome(s, output + [v % 8], None))
    case Bdv =>
      (match Shift(s.a, Combo(s, operand))
       case Err(e) => StepOutcome(s, output, Some(e))
       case Ok(v) => StepOutcome(s.(b := v), output, None))
    case Cdv =>
      (match Shift(s.a, Combo(s, operand))
       case Err(e) => StepOutcome(s, output, Some(e))
       case Ok(v) => StepOutcome(s.(c := v), output, None))
  }

  predicate Outputs3Bit(output: seq<int>)
  {
    forall i :: 0 <= i < |output| ==> 0 <= output[i] < 8
  }

  /** A successful step moves the instruction pointer forward by two, except
      a `jnz` with A non-zero, which jumps to its operand; only `out` adds to
      the output, one value in 0..7; `bst` leaves B in 0..7. */
  lemma StepShape(program: seq<nat>, s: State, output: seq<int>)
    requires Outputs3Bit(output)
    ensures var r := StepSpec(program, s, output);
      && Outputs3Bit(r.output)
      && (r.stop.None? ==>
        var op := OpcodeOf(program[s.ip]).value;
        && (op == Jnz && s.a != 0 ==> r.state.ip == program[s.ip + 1])
        && (!(op == Jnz && s.a != 0) ==> r.state.ip == s.ip + 2)
        && (op == Bst ==> 0 <= r.state.b < 8)
        && (op == Out ==> |r.output| == |output| + 1)
        && (op != Out ==> r.output == output))
      && (r.stop.Some? ==> r.output == output)
  {
  }

  datatype RunOutcome = Done(output: seq<int>) | Failed(reason: Termination) | OutOfFuel

  /** `Computer::run` (lines 215-224) with at most `fuel` steps: stopping at
      the end of the program returns the output, any other stop is an error.
      A program can loop forever, which the fuel bound cuts off. */
  function RunSpec(program: seq<nat>, s: State, output: seq<int>, fuel: nat): RunOutcome
    decreases fuel
  {
    if fuel == 0 then OutOfFuel
    else
      var r := StepSpec(program, s, output);
      match r.stop
      case None => RunSpec(program, r.state, r.output, fuel - 1)
      case Some(EndOfProgram) => Done(r.output)
      case Some(e) => Failed(e)
  }

  /** Every value a run outputs is in 0..7, and the output only grows. */
  lemma {:induction false} RunOutputs3Bit(program: seq<nat>, s: State, output: seq<int>, fuel: nat)
    requires Outputs3Bit(output)
    ensures RunSpec(program, s, output, fuel).Done? ==>
      Outputs3Bit(RunSpec(program, s, output, fuel).output)
      && output <= RunSpec(program, s, output, fuel).output
    decreases fuel
  {
    if fuel > 0 {
      var r := StepSpec(program, s, output);
      StepShape(program, s, output);
      if r.stop.None? {
        RunOutputs3Bit(program, r.state, r.output, fuel - 1);
      }
    }
  }

  // ---------------------------------------------------------------------------
  // The computer as an object

  datatype Problem = Problem(a: int, b: int, c: int, program: seq<nat>)

  class Computer {
    var ip: nat
    var a: int
    var b: int
    var c: int
    const program: seq<nat>

    function Snapshot(): State
      reads this
    {
      State(ip, a, b, c)
    }

    /** `Computer::new` (lines 147-155). */
    constructor(p: Problem)
      ensures Snapshot() == State(0, p.a, p.b, p.c) && program == p.program
    {
      ip, a, b, c := 0, p.a, p.b, p.c;
      program := p.program;
    }

    /** `take_value` (lines 171-179): the byte under the instruction pointer,
        which then moves on; at the end of the program nothing changes. */
    method TakeValue() returns (r: Result<nat>)
      modifies this
      ensures old(ip) < |program| ==> r == Ok(program[old(ip)]) && ip == old(ip) + 1
      ensures old(ip) >= |program| ==> r == Err(EndOfProgram) && ip == old(ip)
      ensures a == old(a) && b == old(b) && c == old(c)
    {
      if ip < |program| {
        r := Ok(program[ip]);
        ip := ip + 1;
      } else {
        r := Err(EndOfProgram);
      }
    }

    /** `step` (lines 181-213). */
    method Step(output: seq<int>) returns (stop: Option<Termination>, output': seq<int>)
      modifies this
      ensures StepOutcome(Snapshot(), output', stop) == StepSpec(program, old(Snapshot()), output)
    {
      output' := output;
      var first := TakeValue();
      if first.Err? {
        return Some(first.reason), output';
      }
      var opcode := OpcodeOf(first.value);
      if opcode.Err? {
        return Some(opcode.reason), output';
      }
      var second := TakeValue();
      if second.Err? {
        return Some(second.reason), output';
      }
      var operand := second.value;
      var combo := Combo(Snapshot(), operand);
      stop := None;
      match opcode.value {
        case Adv =>
          var v := Shift(a, combo);
          if v.Err? { return Some(v.reason), output'; }
          a := v.value;
        case Bxl =>
          b := Xor(b, operand);
        case Bst =>
          if combo.Err? { return Some(combo.reason), output'; }
          b := combo.value % 8;
        case Jnz =>
          if a != 0 {
            ip := operand;
          }
        case Bxc =>
          b := Xor(b, c);
        case Out =>
          if combo.Err? { return Some(combo.reason), output'; }
          output' := output' + [combo.value % 8];
        case Bdv =>
          var v := Shift(a, combo);
          if v.Err? { return Some(v.reason), output'; }
          b := v.value;
        case Cdv =>
          var v := Shift(a, combo);
          if v.Err? { return Some(v.reason), output'; }
          c := v.value;
      }
    }

    /** `run` (lines 215-224), stepping at most `fuel` times. */
    method Run(fuel: nat) returns (r: RunOutcome)
      modifies this
      ensures r == RunSpec(program, old(Snapshot()), [], fuel)
    {
      var output: seq<int> := [];
      var left: nat := fuel;
      while left > 0
        invariant left <= fuel
        invariant RunSpec(program, Snapshot(), output, left) == RunSpec(program, old(Snapshot()), [], fuel)
        decreases left
      {
        var stop;
        stop, output := Step(output);
        match stop {
          case None =>
          case Some(e) =>
            if e == EndOfProgram {
              return Done(output);
            }
            return Failed(e);
        }
        left := left - 1;
      }
      return OutOfFuel;
    }
  }

  // ---------------------------------------------------------------------------
  // Parsing (lines 108-143)

  /** The text after `prefix` on a line that starts with it. */
  function AfterPrefix(line: string, prefix: string): Option<string>
  {
    if prefix <= line then Some(line[|prefix|..]) else None
  }

  function ParseRegister(line: string, prefix: string): (r: Option<int>)
    ensures r.Some? ==> prefix <= line && ParseSigned(line[|prefix|..], I64_LIMIT) == r
  {
    match AfterPrefix(line, prefix)
    case None => None
    case Some(rest) => ParseSigned(rest, I64_LIMIT)
  }

  /** Every comma-separated piece parsed as a byte. */
  function ParseBytes(pieces: seq<string>): (r: Option<seq<nat>>)
    ensures r.Some? ==> |r.value| == |pieces|
    ensures r.Some? ==> forall i :: 0 <= i < |pieces| ==> ParseUnsigned(pieces[i], U8_LIMIT) == Some(r.value[i])
  {
    if |pieces| == 0 then Some([])
    else
      match (ParseUnsigned(pieces[0], U8_LIMIT), ParseBytes(pieces[1..]))
      case (Some(v), Some(rest)) =>
        assert forall i :: 1 <= i < |pieces| ==> pieces[i] == pieces[1..][i - 1];
        Some([v] + rest)
      case _ => None
  }

  /** `Problem::new_from_input`: at least five lines, the three register
      lines and the program on the fifth; the fourth line is ignored. */
  function ParseProblem(input: string): (r: Option<Problem>)
    ensures |Lines(input)| < 5 ==> r.None?
    ensures r.Some? ==>
      var lines := Lines(input);
      && "Register A: " <= lines[0] && "Register B: " <= lines[1]
      && "Register C: " <= lines[2] && "Program: " <= lines[4]
      && (forall i :: 0 <= i < |r.value.program| ==> r.value.program[i] < 256)
  {
    var lines := Lines(input);
    if |lines| < 5 then None
    else
      match (ParseRegister(lines[0], "Register A: "), ParseRegister(lines[1], "Register B: "),
             ParseRegister(lines[2], "Register C: "), AfterPrefix(lines[4], "Program: "))
      case (Some(a), Some(b), Some(c), Some(rest)) =>
        (match ParseBytes(Split(rest, ','))
         case Some(program) => Some(Problem(a, b, c, program))
         case None => None)
      case _ => None
  }

  /** Part 1 (lines 3-8): the output joined by commas; None where the source
      unwraps an error (or the fuel runs out). */
  function Part1(input: string, fuel: nat): Option<string>
  {
    match ParseProblem(input)
    case None => None
    case Some(p) =>
      match RunSpec(p.program, State(0, p.a, p.b, p.c), [], fuel)
      case Done(out) =>
        if |out| == 0 then Some("")
        else Some(Join(seq(|out|, i requires 0 <= i < |out| => ShowInt(out[i])), ','))
      case _ => None
  }

  function ShowInt(n: int): string
  {
    if n >= 0 then ShowNat(n) else "-" + ShowNat(-n)
  }

  // ---------------------------------------------------------------------------
  // Part 2 (lines 10-40): growing A three bits at a time

  /** The search of lines 18-37: for each tail of the program, longest last,
      A is shifted left by three bits and the smallest increment is sought
      that makes the program print that tail. A run that fails panics in the
      source, as does one that prints more than the tail; both give None, as
      does running out of fuel (`searchFuel` increments per tail and `runFuel`
      steps per run). */
  method Part2(p: Problem, runFuel: nat, searchFuel: nat) returns (r: Option<int>)
    ensures r.Some? && |p.program| > 0 ==>
      RunSpec(p.program, State(0, r.value, p.b, p.c), [], runFuel) == Done(p.program)
  {
    var a := 0;
    var n := |p.program|;
    for tailLen := 1 to n + 1
      invariant tailLen > 1 ==>
        RunSpec(p.program, State(0, a, p.b, p.c), [], runFuel) == Done(p.program[n - (tailLen - 1)..])
    {
      a := a * 8;
      var required := p.program[n - tailLen..];
      var delta := 0;
      while true
        decreases searchFuel - delta
      {
        if delta >= searchFuel {
          return None;
        }
        var computer := new Computer(p);
        computer.a := a + delta;
        var outcome := computer.Run(runFuel);
        if !outcome.Done? {
          return None;
        }
        if outcome.output == required {
          a := a + delta;
          break;
        } else if |outcome.output| > |required| {
          return None;
        }
        delta := delta + 1;
      }
    }
    assert p.program[n - n..] == p.program;
    return Some(a);
  }

  // ---------------------------------------------------------------------------
  // The programs of the tests: `adv k; out 4; jnz 0`

  /** Shift A right by `k`, print A's low three bits, repeat while A is
      non-zero. The tests use k = 1 (lines 231-237) and k = 3 (lines 239-245). */
  function ShiftLoop(k: nat): seq<nat>
  {
    [0, k, 5, 4, 3, 0]
  }

  /** What that program prints for a non-negative A. */
  function Shifts(a: nat, k: nat): seq<int>
    requires k >= 1
    decreases a
  {
    ShiftDecreases(a, k);
    var next := ShiftRight(a, k);
    [next % 8] + (if next == 0 then [] else Shifts(next, k))
  }

  /** The loop iterations the program runs for A. */
  function Rounds(a: nat, k: nat): nat
    requires k >= 1
    decreases a
  {
    ShiftDecreases(a, k);
    var next := ShiftRight(a, k);
    1 + (if next == 0 then 0 else Rounds(next, k))
  }

  lemma {:induction false} ShiftDecreases(a: nat, k: nat)
    requires k >= 1
    ensures 0 <= ShiftRight(a, k) <= a
    ensures a > 0 ==> ShiftRight(a, k) < a
  {
    if k > 1 {
      ShiftDecreases(a, k - 1);
    }
  }

  /** With enough fuel the test program prints `Shifts(a, k)`. */
  lemma {:induction false} ShiftLoopRuns(k: nat, a: nat, b: int, c: int, output: seq<int>, fuel: nat)
    requires 1 <= k <= 3
    requires fuel >= 3 * Rounds(a, k) + 1
    ensures RunSpec(ShiftLoop(k), State(0, a, b, c), output, fuel) == Done(output + Shifts(a, k))
  {
    var run := (x: int, out: seq<int>, f: nat) => RunSpec(ShiftLoop(k), State(0, x, b, c), out, f);
    forall x: nat, out: seq<int>, f: nat | f >= 3 && ShiftRight(x, k) != 0
      ensures run(x, out, f) == run(ShiftRight(x, k), out + [ShiftRight(x, k) % 8], f - 3)
    {
      ShiftRound(k, x, b, c, out, f);
    }
    forall x: nat, out: seq<int>, f: nat | f >= 4 && ShiftRight(x, k) == 0
      ensures run(x, out, f) == Done(out + [0])
    {
      ShiftRound(k, x, b, c, out, f);
      ShiftLoopEnds(k, b, c, out + [0], f - 3);
    }
    Rounds3(run, k, a, output, fuel);
  }

  /** A run that takes three steps per round of the shift loop and ends
      after its last round prints `Shifts(a, k)`. */
  lemma {:induction false} Rounds3(run: (int, seq<int>, nat) -> RunOutcome, k: nat, a: nat, output: seq<int>, fuel: nat)
    requires k >= 1 && fuel >= 3 * Rounds(a, k) + 1
    requires forall x: nat, out: seq<int>, f: nat | f >= 3 && ShiftRight(x, k) != 0 ::
      run(x, out, f) == run(ShiftRight(x, k), out + [ShiftRight(x, k) % 8], f - 3)
    requires forall x: nat, out: seq<int>, f: nat | f >= 4 && ShiftRight(x, k) == 0 ::
      run(x, out, f) == Done(out + [0])
    ensures run(a, output, fuel) == Done(output + Shifts(a, k))
    decreases a
  {
    ShiftDecreases(a, k);
    var next := ShiftRight(a, k);
    if next == 0 {
      ShiftsLast(a, k);
    } else {
      ShiftsCons(a, k, next, Shifts(next, k), Rounds(next, k));
      Rounds3(run, k, next, output + [next % 8], fuel - 3);
      assert output + [next % 8] + Shifts(next, k) == output + Shifts(a, k);
    }
  }

  /** Past the jump the test program ends. */
  lemma {:induction false} ShiftLoopEnds(k: nat, b: int, c: int, output: seq<int>, fuel: nat)
    requires fuel >= 1
    ensures RunSpec(ShiftLoop(k), State(6, 0, b, c), output, fuel) == Done(output)
  {
  }

  /** One round of the test program: `adv`, `out` and `jnz` in turn. */
  lemma {:induction false} ShiftRound(k: nat, a: nat, b: int, c: int, output: seq<int>, fuel: nat)
    requires 1 <= k <= 3 && fuel >= 3
    ensures var next := ShiftRight(a, k);
      RunSpec(ShiftLoop(k), State(0, a, b, c), output, fuel) ==
      RunSpec(ShiftLoop(k), State(if next == 0 then 6 else 0, next, b, c), output + [next % 8], fuel - 3)
  {
    var program := ShiftLoop(k);
    var next := ShiftRight(a, k);
    var out2 := output + [next % 8];
    AdvStep(k, a, b, c, output);
    assert RunSpec(program, State(0, a, b, c), output, fuel) == RunSpec(program, State(2, next, b, c), output, fuel - 1);
    OutStep(k, next, b, c, output);
    assert RunSpec(program, State(2, next, b, c), output, fuel - 1) == RunSpec(program, State(4, next, b, c), out2, fuel - 2);
    JnzStep(k, next, b, c, out2);
  }

  lemma {:induction false} AdvStep(k: nat, a: int, b: int, c: int, output: seq<int>)
    requires 1 <= k <= 3
    ensures StepSpec(ShiftLoop(k), State(0, a, b, c), output) == StepOutcome(State(2, ShiftRight(a, k), b, c), output, None)
  {
  }

  lemma OutStep(k: nat, x: int, b: int, c: int, output: seq<int>)
    ensures StepSpec(ShiftLoop(k), State(2, x, b, c), output) == StepOutcome(State(4, x, b, c), output + [x % 8], None)
  {
  }

  lemma JnzStep(k: nat, x: int, b: int, c: int, output: seq<int>)
    ensures StepSpec(ShiftLoop(k), State(4, x, b, c), output) == StepOutcome(State(if x == 0 then 6 else 0, x, b, c), output, None)
  {
  }

  /** One round more in front of a known run of the loop. */
  lemma {:induction false} ShiftsCons(a: nat, k: nat, n: nat, rest: seq<int>, rounds: nat)
    requires k >= 1 && ShiftRight(a, k) == n && n != 0
    requires Shifts(n, k) == rest && Rounds(n, k) == rounds
    ensures Shifts(a, k) == [n % 8] + rest && Rounds(a, k) == rounds + 1
  {
  }

  lemma {:induction false} ShiftsLast(a: nat, k: nat)
    requires k >= 1 && ShiftRight(a, k) == 0
    ensures Shifts(a, k) == [0] && Rounds(a, k) == 1
  {
  }

  lemma Example1Tail()
    ensures Shifts(22, 1) == [3, 5, 2, 1, 0] && Rounds(22, 1) == 5
  {
    ShiftsLast(1, 1);
    ShiftsCons(2, 1, 1, [0], 1);
    ShiftsCons(5, 1, 2, [1, 0], 2);
    ShiftsCons(11, 1, 5, [2, 1, 0], 3);
    ShiftsCons(22, 1, 11, [5, 2, 1, 0], 4);
  }

  /** The first test prints 4,6,3,5,6,3,5,2,1,0 (lines 247-250). */
  lemma {:induction false} Example1(fuel: nat)
    requires fuel >= 31
    ensures RunSpec(ShiftLoop(1), State(0, 729, 0, 0), [], fuel) == Done([4, 6, 3, 5, 6, 3, 5, 2, 1, 0])
  {
    Example1Head();
    ShiftLoopRuns(1, 729, 0, 0, [], fuel);
  }

  lemma Example1Head()
    ensures Shifts(729, 1) == [4, 6, 3, 5, 6, 3, 5, 2, 1, 0] && Rounds(729, 1) == 10
  {
    Example1Tail();
    ShiftsCons(45, 1, 22, [3, 5, 2, 1, 0], 5);
    ShiftsCons(91, 1, 45, [6, 3, 5, 2, 1, 0], 6);
    ShiftsCons(182, 1, 91, [5, 6, 3, 5, 2, 1, 0], 7);
    ShiftsCons(364, 1, 182, [3, 5, 6, 3, 5, 2, 1, 0], 8);
    ShiftsCons(729, 1, 364, [6, 3, 5, 6, 3, 5, 2, 1, 0], 9);
  }

  /** The answer of the second test, 117440, makes the program print itself
      (lines 252-255). */
  lemma {:induction false} Example2(fuel: nat)
    requires fuel >= 19
    ensures RunSpec(ShiftLoop(3), State(0, 117440, 0, 0), [], fuel) == Done([0, 3, 5, 4, 3, 0])
  {
    ShiftsLast(3, 3);
    ShiftsCons(28, 3, 3, [0], 1);
    ShiftsCons(229, 3, 28, [3, 0], 2);
    ShiftsCons(1835, 3, 229, [4, 3, 0], 3);
    ShiftsCons(14680, 3, 1835, [5, 4, 3, 0], 4);
    ShiftsCons(117440, 3, 14680, [3, 5, 4, 3, 0], 5);
    ShiftLoopRuns(3, 117440, 0, 0, [], fuel);
  }
}
