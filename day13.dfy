/**
 * Claw contraption (src/day_13.py): button A moves the claw by `a`, button B by `b`; `Game.cost`
 * solves a·A + b·B = prize by Cramer's rule with floor division and charges 3 tokens per A press
 * and 1 per B press when the solution is exact.
 */
module Day13 {
  import opened Common

  /** One machine: the two buttons' moves and the prize, as integer grid points. */
  datatype Game = Game(a: Point, b: Point, prize: Point)

  /** Python's floor division by zero. */
  datatype Failure = ZeroDivisionError

  /** part_2's correction to both prize coordinates. */
  const Shift: int := 10_000_000_000_000

  /** The determinant Cramer's rule divides by: a.real·b.imag − a.imag·b.real. */
  function Determinant(g: Game): int {
    g.a.0 * g.b.1 - g.a.1 * g.b.0
  }

  /** The prize moved by `error` on both axes. */
  function Target(g: Game, error: int): Point {
    (g.prize.0 + error, g.prize.1 + error)
  }

  /** Pressing A `x` times and B `y` times lands on p. */
  predicate Reaches(g: Game, x: int, y: int, p: Point) {
    x * g.a.0 + y * g.b.0 == p.0 && x * g.a.1 + y * g.b.1 == p.1
  }

  /** The press counts `cost` computes: a by Cramer's rule, b from the x axis, both floored. */
  function Presses(g: Game, error: int): Result<(int, int), Failure> {
    var p := Target(g, error);
    if Determinant(g) == 0 || g.b.0 == 0 then Err(ZeroDivisionError)
    else
      var x := FloorDiv(p.0 * g.b.1 - p.1 * g.b.0, Determinant(g));
      var y := FloorDiv(p.0 - g.a.0 * x, g.b.0);
      Ok((x, y))
  }

  /** `Game.cost`: 3a + b when the floored presses land exactly on the prize, otherwise 0. */
  function Cost(g: Game, error: int): Result<int, Failure> {
    match Presses(g, error)
    case Err(e) => Err(e)
    case Ok((x, y)) => Ok(if Reaches(g, x, y, Target(g, error)) then 3 * x + y else 0)
  }

  /** Floor division is exact on a multiple of the divisor. */
  lemma FloorDivExact(d: int, x: int)
    requires d != 0
    ensures FloorDiv(d * x, d) == x
  {
    var n := d * x;
    if d > 0 {
      assert n / d == x by { DivOfMultiple(d, x); }
    } else {
      assert n / d == x by { DivOfMultiple(d, x); }
      assert n % d == 0 by { DivOfMultiple(d, x); }
    }
  }

  lemma DivOfMultiple(d: int, x: int)
    requires d != 0
    ensures (d * x) / d == x && (d * x) % d == 0
  {
    var n := d * x;
    var q, r := n / d, n % d;
    assert n == d * q + r && 0 <= r < Abs(d);
    assert d * (x - q) == r;
    if x - q > 0 {
      MulAway(d, x - q);
      assert false;
    } else if x - q < 0 {
      MulAway(d, q - x);
      assert false;
    }
  }

  /** A non-zero multiple of d is at least |d| away from zero. */
  lemma MulAway(d: int, k: int)
    requires d != 0 && k > 0
    ensures d * k >= Abs(d) || d * k <= -Abs(d)
  {
    if d > 0 {
      assert d * k >= d * 1;
    } else {
      assert (-d) * k >= (-d) * 1;
    }
  }

  /** A division error is raised exactly when the determinant or b.real is zero. */
  lemma CostFails(g: Game, error: int)
    ensures Cost(g, error).Err? <==> Determinant(g) == 0 || g.b.0 == 0
  {
  }

  /** A non-zero cost is 3a + b for press counts that reproduce the prize on both axes. */
  lemma NonZeroCostSolves(g: Game, error: int)
    requires Cost(g, error).Ok? && Cost(g, error).value != 0
    ensures exists x, y :: Reaches(g, x, y, Target(g, error)) && Cost(g, error).value == 3 * x + y
  {
    var (x, y) := Presses(g, error).value;
    assert Reaches(g, x, y, Target(g, error));
  }

  /** The cost is 0 whenever the floored presses miss the prize. */
  lemma MissCostsNothing(g: Game, error: int)
    requires Presses(g, error).Ok?
    requires !Reaches(g, Presses(g, error).value.0, Presses(g, error).value.1, Target(g, error))
    ensures Cost(g, error) == Ok(0)
  {
  }

  /**
   * Cramer's rule finds every integer solution: when presses (x, y) reach the prize, `cost` returns
   * 3x + y (the solution is unique because the determinant is non-zero).
   */
  lemma SolutionIsFound(g: Game, error: int, x: int, y: int)
    requires Determinant(g) != 0 && g.b.0 != 0
    requires Reaches(g, x, y, Target(g, error))
    ensures Presses(g, error) == Ok((x, y))
    ensures Cost(g, error) == Ok(3 * x + y)
  {
    var p := Target(g, error);
    var d := Determinant(g);
    calc {
      p.0 * g.b.1 - p.1 * g.b.0;
      (x * g.a.0 + y * g.b.0) * g.b.1 - (x * g.a.1 + y * g.b.1) * g.b.0;
      { Expand(x, y, g.a.0, g.a.1, g.b.0, g.b.1); }
      d * x;
    }
    FloorDivExact(d, x);
    assert p.0 - g.a.0 * x == g.b.0 * y;
    FloorDivExact(g.b.0, y);
  }

  lemma Expand(x: int, y: int, a0: int, a1: int, b0: int, b1: int)
    ensures (x * a0 + y * b0) * b1 - (x * a1 + y * b1) * b0 == (a0 * b1 - a1 * b0) * x
  {
  }

  /** Two solutions of a machine with a non-zero determinant coincide. */
  lemma SolutionUnique(g: Game, p: Point, x: int, y: int, x': int, y': int)
    requires Determinant(g) != 0 && g.b.0 != 0
    requires Reaches(g, x, y, p) && Reaches(g, x', y', p)
    ensures x == x' && y == y'
  {
    var error := p.0 - g.prize.0;
    var g' := g.(prize := (p.0 - error, p.1 - error));
    assert Target(g', error) == p;
    SolutionIsFound(g', error, x, y);
    SolutionIsFound(g', error, x', y');
  }

  /** Σ cost over the games in order, the first division error propagating out of `sum`. */
  function Total(games: seq<Game>, error: int): Result<int, Failure> {
    if games == [] then Ok(0)
    else
      var n := |games| - 1;
      match Total(games[..n], error)
      case Err(e) => Err(e)
      case Ok(t) =>
        match Cost(games[n], error)
        case Err(e) => Err(e)
        case Ok(c) => Ok(t + c)
  }

  /** The total fails exactly when some game fails. */
  lemma {:induction false} TotalFails(games: seq<Game>, error: int)
    ensures Total(games, error).Err? <==> exists i :: 0 <= i < |games| && Cost(games[i], error).Err?
  {
    if games != [] {
      var n := |games| - 1;
      var init := games[..n];
      TotalFails(init, error);
      assert forall i :: 0 <= i < n ==> init[i] == games[i];
    }
  }

  /** The total of one game is its cost, and totals add up over concatenated game lists. */
  lemma {:induction false} TotalAppend(games: seq<Game>, more: seq<Game>, error: int)
    requires Total(games, error).Ok? && Total(more, error).Ok?
    ensures Total(games + more, error) == Ok(Total(games, error).value + Total(more, error).value)
    decreases |more|
  {
    if more == [] {
      assert games + more == games;
    } else {
      var n := |more| - 1;
      assert (games + more)[..|games| + n] == games + more[..n];
      assert (games + more)[|games| + n] == more[n];
      TotalAppend(games, more[..n], error);
    }
  }

  lemma TotalOne(g: Game, error: int)
    ensures Total([g], error) == Cost(g, error)
  {
    assert [g][..0] == [];
  }

  /** part_1 on the parsed games. */
  function Part1(games: seq<Game>): Result<int, Failure> {
    Total(games, 0)
  }

  /** part_2 on the parsed games: every prize shifted by 10^13. */
  function Part2(games: seq<Game>): Result<int, Failure> {
    Total(games, Shift)
  }

  /** part_2 is part_1 on the games with the prizes moved by 10^13 on both axes. */
  lemma {:induction false} Part2Shifts(games: seq<Game>)
    ensures Part2(games) == Part1(Shifted(games))
  {
    ShiftedTotal(games);
  }

  function Shifted(games: seq<Game>): (r: seq<Game>)
    ensures |r| == |games|
  {
    seq(|games|, i requires 0 <= i < |games| => games[i].(prize := Target(games[i], Shift)))
  }

  lemma {:induction false} ShiftedTotal(games: seq<Game>)
    ensures Total(games, Shift) == Total(Shifted(games), 0)
  {
    if games != [] {
      var n := |games| - 1;
      assert Shifted(games)[..n] == Shifted(games[..n]);
      assert Cost(Shifted(games)[n], 0) == Cost(games[n], Shift);
      ShiftedTotal(games[..n]);
    }
  }

  /** The four machines of the example. */
  const Example: seq<Game> := [
    Game((94, 34), (22, 67), (8400, 5400)),
    Game((26, 66), (67, 21), (12748, 12176)),
    Game((17, 86), (84, 37), (7870, 6450)),
    Game((69, 23), (27, 71), (18641, 10279))
  ]

  /** The example's first and third machines are won with 80·3 + 40 and 38·3 + 86 tokens: 480. */
  lemma ExamplePart1()
    ensures Part1(Example) == Ok(480)
  {
    var e := Example;
    SolutionIsFound(e[0], 0, 80, 40);
    assert Cost(e[1], 0) == Ok(0);
    SolutionIsFound(e[2], 0, 38, 86);
    assert Cost(e[3], 0) == Ok(0);
    TotalOne(e[0], 0);
    TotalOne(e[1], 0);
    TotalOne(e[2], 0);
    TotalOne(e[3], 0);
    assert [e[0]] + [e[1]] == [e[0], e[1]];
    assert [e[0], e[1]] + [e[2]] == [e[0], e[1], e[2]];
    assert [e[0], e[1], e[2]] + [e[3]] == e;
    TotalAppend([e[0]], [e[1]], 0);
    TotalAppend([e[0], e[1]], [e[2]], 0);
    TotalAppend([e[0], e[1], e[2]], [e[3]], 0);
  }

  /** With the prizes shifted, the second and fourth machines are the ones won: 875318608908. */
  lemma ExamplePart2()
    ensures Part2(Example) == Ok(875318608908)
  {
    var e := Example;
    assert Cost(e[0], Shift) == Ok(0);
    SolutionIsFound(e[1], Shift, 118679050709, 103199174542);
    assert Cost(e[2], Shift) == Ok(0);
    SolutionIsFound(e[3], Shift, 102851800151, 107526881786);
    TotalOne(e[0], Shift);
    TotalOne(e[1], Shift);
    TotalOne(e[2], Shift);
    TotalOne(e[3], Shift);
    assert [e[0]] + [e[1]] == [e[0], e[1]];
    assert [e[0], e[1]] + [e[2]] == [e[0], e[1], e[2]];
    assert [e[0], e[1], e[2]] + [e[3]] == e;
    TotalAppend([e[0]], [e[1]], Shift);
    TotalAppend([e[0], e[1]], [e[2]], Shift);
    TotalAppend([e[0], e[1], e[2]], [e[3]], Shift);
  }
}
