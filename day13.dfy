/** Day 13: claw machines. Button A moves the claw by `a`, button B by `b`;
    a machine is won by pressing them so that the claw lands on `prize`.
    A press of A costs 3 tokens, a press of B costs 1. */
module Day13 {
  import opened Common

  datatype ClawMachine = ClawMachine(a: (int, int), b: (int, int), prize: (int, int))

  /** Rust's `/` on `i64`: the quotient rounded toward zero. */
  function TruncDiv(x: int, y: int): int
    requires y != 0
  {
    if (x >= 0) == (y > 0) then Abs(x) / Abs(y) else -(Abs(x) / Abs(y))
  }

  /** |q * y| == |q| * |y|. */
  lemma AbsMul(q: int, y: int)
    ensures Abs(q * y) == Abs(q) * Abs(y)
  {
    if q < 0 && y < 0 {
      assert q * y == (-q) * (-y);
    } else if q < 0 {
      assert q * y == -((-q) * y);
    } else if y < 0 {
      assert q * y == -(q * (-y));
    }
  }
  /** (a * b) / b == a. */
  lemma DivExact(a: nat, b: nat)
    requires b > 0
    ensures (a * b) / b == a
  {
    DivModUnique(a * b, b, a, 0);
  }

  /** An exact division gives back the factor. */
  lemma TruncDivExact(x: int, y: int, q: int)
    requires y != 0 && q * y == x
    ensures TruncDiv(x, y) == q
  {
    AbsMul(q, y);
    DivExact(Abs(q), Abs(y));
    if q > 0 {
      assert (x >= 0) == (y > 0);
    } else if q < 0 {
      assert (x >= 0) != (y > 0);
    }
  }

  /** The numerator and denominator of Cramer's rule for the A presses. */
  function Num(m: ClawMachine): int
  {
    m.prize.0 * m.b.1 - m.prize.1 * m.b.0
  }

  function Denom(m: ClawMachine): int
  {
    m.a.0 * m.b.1 - m.a.1 * m.b.0
  }

  /** `n` presses of A and `k` of B land on the prize. */
  predicate Wins(m: ClawMachine, n: int, k: int)
  {
    n * m.a.0 + k * m.b.0 == m.prize.0 && n * m.a.1 + k * m.b.1 == m.prize.1
  }

  /** Where `get_move` divides: by the determinant always, and by `b.0` when
      the first division is exact. A zero divisor panics in the source. */
  predicate NoDivisionByZero(m: ClawMachine)
  {
    Denom(m) != 0 && (TruncDiv(Num(m), Denom(m)) * Denom(m) == Num(m) ==> m.b.0 != 0)
  }

  /** `get_move` (lines 33-50). */
  function GetMove(m: ClawMachine): (r: Option<(int, int)>)
    requires NoDivisionByZero(m)
    ensures r.Some? ==> Wins(m, r.value.0, r.value.1)
  {
    var n := TruncDiv(Num(m), Denom(m));
    if n * Denom(m) == Num(m) then
      var k := TruncDiv(m.prize.0 - n * m.a.0, m.b.0);
      if Wins(m, n, k) then Some((n, k)) else None
    else None
  }

  /** A winning pair satisfies Cramer's rule: `n * Denom == Num`. */
  lemma WinsCramer(m: ClawMachine, n: int, k: int)
    requires Wins(m, n, k)
    ensures n * Denom(m) == Num(m)
  {
    var a0, a1, b0, b1 := m.a.0, m.a.1, m.b.0, m.b.1;
    calc {
      Num(m);
      (n * a0 + k * b0) * b1 - (n * a1 + k * b1) * b0;
      n * a0 * b1 + k * b0 * b1 - n * a1 * b0 - k * b1 * b0;
      n * (a0 * b1 - a1 * b0);
    }
  }

  /** With a non-zero determinant a machine has at most one way to win, and
      `get_move` finds it. */
  lemma GetMoveComplete(m: ClawMachine, n: int, k: int)
    requires Denom(m) != 0 && m.b.0 != 0
    requires Wins(m, n, k)
    ensures NoDivisionByZero(m)
    ensures GetMove(m) == Some((n, k))
  {
    WinsCramer(m, n, k);
    TruncDivExact(Num(m), Denom(m), n);
    assert m.prize.0 - n * m.a.0 == k * m.b.0;
    TruncDivExact(m.prize.0 - n * m.a.0, m.b.0, k);
  }

  /** The machine's price: the tokens of its win, if it can be won. */
  function Price(m: ClawMachine): int
    requires NoDivisionByZero(m)
  {
    match GetMove(m)
    case Some((n, k)) => 3 * n + k
    case None => 0
  }

  /** A machine that can be won costs 3 tokens per A press and 1 per B press. */
  lemma PriceOfWin(m: ClawMachine, n: int, k: int)
    requires Denom(m) != 0 && m.b.0 != 0 && Wins(m, n, k)
    ensures NoDivisionByZero(m) && Price(m) == 3 * n + k
  {
    GetMoveComplete(m, n, k);
  }

  /** A machine that cannot be won costs nothing. */
  lemma PriceOfLoss(m: ClawMachine)
    requires NoDivisionByZero(m)
    requires forall n, k :: !Wins(m, n, k)
    ensures Price(m) == 0
  {
  }

  predicate AllDivisible(ms: seq<ClawMachine>)
  {
    forall i :: 0 <= i < |ms| ==> NoDivisionByZero(ms[i])
  }

  /** Lines 6-14: the tokens spent on all machines that can be won. */
  function TotalPrice(ms: seq<ClawMachine>): int
    requires AllDivisible(ms)
  {
    if |ms| == 0 then 0 else TotalPrice(ms[..|ms| - 1]) + Price(ms[|ms| - 1])
  }

  const PART2_OFFSET: int := 10000000000000

  /** The prize moved by 10^13 on both axes (lines 19-24). */
  function Shifted(m: ClawMachine): ClawMachine
  {
    ClawMachine(m.a, m.b, (m.prize.0 + PART2_OFFSET, m.prize.1 + PART2_OFFSET))
  }

  /** Moving the prize keeps the buttons, so the machines that `get_move` may
      divide by stay the same. */
  lemma ShiftedDivisible(m: ClawMachine)
    requires Denom(m) != 0 && m.b.0 != 0
    ensures NoDivisionByZero(Shifted(m))
  {
  }

  // ---------------------------------------------------------------------------
  // Negative presses

  /** `get_move` never checks the signs of its answer: with A = (1, 1),
      B = (1, 2) and the prize at (0, 1) it answers -1 presses of A and 1 of
      B, and the machine is charged -2 tokens. */
  lemma NegativePresses()
    ensures var m := ClawMachine((1, 1), (1, 2), (0, 1));
      NoDivisionByZero(m) && GetMove(m) == Some((-1, 1)) && Price(m) == -2
  {
    var m := ClawMachine((1, 1), (1, 2), (0, 1));
    GetMoveComplete(m, -1, 1);
  }

  /** The intended move: the win, if it uses no negative count of presses. */
  function GetMoveChecked(m: ClawMachine): (r: Option<(int, int)>)
    requires NoDivisionByZero(m)
    ensures r.Some? ==> r.value.0 >= 0 && r.value.1 >= 0 && Wins(m, r.value.0, r.value.1)
  {
    match GetMove(m)
    case Some((n, k)) => if n >= 0 && k >= 0 then Some((n, k)) else None
    case None => None
  }

  /** A machine is won by the checked move exactly when some non-negative
      numbers of presses win it. */
  lemma GetMoveCheckedComplete(m: ClawMachine)
    requires Denom(m) != 0 && m.b.0 != 0
    ensures NoDivisionByZero(m)
    ensures GetMoveChecked(m).Some? <==> exists n, k :: n >= 0 && k >= 0 && Wins(m, n, k)
  {
    if exists n, k :: n >= 0 && k >= 0 && Wins(m, n, k) {
      var n, k :| n >= 0 && k >= 0 && Wins(m, n, k);
      GetMoveComplete(m, n, k);
    }
  }

  // ---------------------------------------------------------------------------
  // The machines of the test at lines 93-108

  lemma Examples()
    ensures GetMove(ClawMachine((94, 34), (22, 67), (8400, 5400))) == Some((80, 40))
    ensures GetMove(ClawMachine((17, 86), (84, 37), (7870, 6450))) == Some((38, 86))
    ensures GetMove(Shifted(ClawMachine((26, 66), (67, 21), (12748, 12176)))) == Some((118679050709, 103199174542))
    ensures GetMove(Shifted(ClawMachine((69, 23), (27, 71), (18641, 10279)))) == Some((102851800151, 107526881786))
    ensures GetMove(Shifted(ClawMachine((94, 34), (22, 67), (8400, 5400)))) == None
    ensures GetMove(Shifted(ClawMachine((17, 86), (84, 37), (7870, 6450)))) == None
  {
    GetMoveComplete(ClawMachine((94, 34), (22, 67), (8400, 5400)), 80, 40);
    GetMoveComplete(ClawMachine((17, 86), (84, 37), (7870, 6450)), 38, 86);
    GetMoveComplete(Shifted(ClawMachine((26, 66), (67, 21), (12748, 12176))), 118679050709, 103199174542);
    GetMoveComplete(Shifted(ClawMachine((69, 23), (27, 71), (18641, 10279))), 102851800151, 107526881786);
  }
}
