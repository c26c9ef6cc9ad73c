/**
 * Bridge repair (src/day_07.py): a calibration holds when some choice of operators between its
 * values, evaluated left to right, gives its answer; part_1 uses + and *, part_2 adds decimal
 * concatenation. Values are Python integers of either sign.
 */
module Day07 {
  import opened Common

  datatype Op = Plus | Times | Concat

  /**
   * Why a part stops: `calculate` of an empty list recurses until Python gives up, and `int`
   * refuses a concatenation with a minus sign in the middle.
   */
  datatype Failure = RecursionError | ValueError

  /**
   * `concatenation`: `int(str(a) + str(b))`. A negative b puts its minus sign after the digits
   * of a, which `int` refuses; a negative a keeps its sign in front.
   */
  function Concatenation(a: int, b: int): Result<int, Failure> {
    if b < 0 then Err(ValueError)
    else
      var shifted := (if a < 0 then -a else a) * Pow10(|Decimal(b)|) + b;
      Ok(if a < 0 then -shifted else shifted)
  }

  /** Concatenation is `int` of the two `str` written one after the other, failing exactly when `int` does. */
  lemma ConcatenationIsIntOfStr(a: int, b: int)
    ensures Concatenation(a, b).Ok? <==> IntOf(Str(a) + Str(b)).Some?
    ensures Concatenation(a, b).Ok? ==> Concatenation(a, b).value == IntOf(Str(a) + Str(b)).value
  {
    if b < 0 {
      SignInMiddle(a, b);
    } else if a < 0 {
      DigitsAfterSign(-a, b);
    } else {
      DigitsAfterDigits(a, b);
    }
  }

  lemma SignInMiddle(a: int, b: int)
    requires b < 0
    ensures IntOf(Str(a) + Str(b)) == None
  {
    var s := Str(a) + Str(b);
    assert s[|Str(a)|] == '-';
    if a < 0 {
      assert s[1..][|Str(a)| - 1] == '-';
    }
  }

  lemma DigitsAfterSign(m: nat, b: nat)
    requires m > 0
    ensures IntOf(Str(-(m as int)) + Str(b)) == Some(-(m * Pow10(|Decimal(b)|) + b))
  {
    var d := Decimal(m) + Decimal(b);
    DigitsValueAppend(Decimal(m), Decimal(b));
    assert Str(-(m as int)) + Str(b) == "-" + d;
    assert ("-" + d)[1..] == d;
  }

  lemma DigitsAfterDigits(a: nat, b: nat)
    ensures IntOf(Str(a) + Str(b)) == Some(a * Pow10(|Decimal(b)|) + b)
  {
    DigitsValueAppend(Decimal(a), Decimal(b));
    assert IsDigit((Decimal(a) + Decimal(b))[0]);
  }

  /** The operator applied as `op(calculated, values[0])`. */
  function Apply(op: Op, a: int, b: int): Result<int, Failure> {
    match op
    case Plus => Ok(a + b)
    case Times => Ok(a * b)
    case Concat => Concatenation(a, b)
  }

  /** `[op(c, v) for op in operators]`, stopping at the first operator that raises. */
  function ApplyAll(ops: seq<Op>, c: int, v: int): (r: Result<seq<int>, Failure>)
    ensures r.Ok? ==> |r.value| == |ops| && forall i :: 0 <= i < |ops| ==> Apply(ops[i], c, v) == Ok(r.value[i])
    ensures r.Err? <==> Concat in ops && v < 0
    ensures r != Err(RecursionError)
  {
    if ops == [] then Ok([])
    else
      assert ops == [ops[0]] + ops[1..];
      match Apply(ops[0], c, v)
      case Err(e) => Err(e)
      case Ok(x) =>
        match ApplyAll(ops[1..], c, v)
        case Err(e) => Err(e)
        case Ok(xs) => Ok([x] + xs)
  }

  /** The loop of `calculate` over the results for the tail, extending by every operator. */
  function Expand(calcs: seq<int>, v: int, ops: seq<Op>): (r: Result<seq<int>, Failure>)
    ensures r.Err? <==> calcs != [] && Concat in ops && v < 0
    ensures r != Err(RecursionError)
  {
    if calcs == [] then Ok([])
    else
      match Expand(calcs[..|calcs| - 1], v, ops)
      case Err(e) => Err(e)
      case Ok(init) =>
        match ApplyAll(ops, calcs[|calcs| - 1], v)
        case Err(e) => Err(e)
        case Ok(last) => Ok(init + last)
  }

  /**
   * `calculate`: the results for `values[1:]`, each combined with `values[0]` by every operator.
   * An empty list never reaches the base case and recurses until RecursionError.
   */
  function Calculate(values: seq<int>, ops: seq<Op>): Result<seq<int>, Failure> {
    if values == [] then Err(RecursionError)
    else if |values| == 1 then Ok(values)
    else
      match Calculate(values[1..], ops)
      case Err(e) => Err(e)
      case Ok(calcs) => Expand(calcs, values[0], ops)
  }

  function Reverse(s: seq<int>): (r: seq<int>)
    ensures |r| == |s|
  {
    if s == [] then [] else [s[|s| - 1]] + Reverse(s[..|s| - 1])
  }

  /** The left-to-right evaluation `((v0 o1 v1) o2 v2) ...` with the operators in `choice`. */
  function EvalLeft(vs: seq<int>, choice: seq<Op>): Result<int, Failure>
    requires |vs| >= 1 && |choice| == |vs| - 1
  {
    if |vs| == 1 then Ok(vs[0])
    else
      match EvalLeft(vs[..|vs| - 1], choice[..|choice| - 1])
      case Err(e) => Err(e)
      case Ok(c) => Apply(choice[|choice| - 1], c, vs[|vs| - 1])
  }

  predicate Drawn(choice: seq<Op>, ops: seq<Op>) {
    forall i :: 0 <= i < |choice| ==> choice[i] in ops
  }

  function Pow(b: nat, e: nat): nat {
    if e == 0 then 1 else b * Pow(b, e - 1)
  }

  lemma {:induction false} PowPositive(b: nat, e: nat)
    requires b >= 1
    ensures Pow(b, e) >= 1
  {
    if e > 0 {
      PowPositive(b, e - 1);
    }
  }

  /** A single value is its own only result. */
  lemma CalculateSingle(v: int, ops: seq<Op>)
    ensures Calculate([v], ops) == Ok([v])
  {
  }

  lemma {:induction false} ExpandLength(calcs: seq<int>, v: int, ops: seq<Op>)
    requires Expand(calcs, v, ops).Ok?
    ensures |Expand(calcs, v, ops).value| == |calcs| * |ops|
  {
    if calcs != [] {
      ExpandLength(calcs[..|calcs| - 1], v, ops);
      assert (|calcs| - 1) * |ops| + |ops| == |calcs| * |ops|;
    }
  }

  /** One result per choice of operators: `len(operators) ** (len(values) - 1)` of them. */
  lemma {:induction false} CalculateLength(values: seq<int>, ops: seq<Op>)
    requires |values| >= 1 && Calculate(values, ops).Ok?
    ensures |Calculate(values, ops).value| == Pow(|ops|, |values| - 1)
  {
    if |values| > 1 {
      CalculateLength(values[1..], ops);
      ExpandLength(Calculate(values[1..], ops).value, values[0], ops);
    }
  }

  /**
   * `calculate` raises exactly when concatenation is among the operators and one of the values
   * other than the last is negative: that value is once the right operand of a concatenation.
   * On a non-empty list the failure is never a RecursionError.
   */
  lemma {:induction false} CalculateFails(values: seq<int>, ops: seq<Op>)
    requires |values| >= 1
    ensures Calculate(values, ops).Err? <==> Concat in ops && exists i :: 0 <= i < |values| - 1 && values[i] < 0
    ensures Calculate(values, ops) != Err(RecursionError)
  {
    if |values| > 1 {
      var rest := values[1..];
      CalculateFails(rest, ops);
      if Calculate(rest, ops).Err? {
        var j :| 0 <= j < |rest| - 1 && rest[j] < 0;
        assert values[j + 1] < 0;
      } else {
        var calcs := Calculate(rest, ops).value;
        if Concat in ops {
          CalculateLength(rest, ops);
          PowPositive(|ops|, |rest| - 1);
        }
        if exists i :: 0 <= i < |values| - 1 && values[i] < 0 {
          var i :| 0 <= i < |values| - 1 && values[i] < 0;
          if i > 0 {
            assert rest[i - 1] < 0;
          }
        }
      }
    }
  }

  lemma {:induction false} ExpandHas(calcs: seq<int>, v: int, ops: seq<Op>, x: int)
    requires Expand(calcs, v, ops).Ok?
    ensures x in Expand(calcs, v, ops).value <==> exists c, op :: c in calcs && op in ops && Apply(op, c, v) == Ok(x)
  {
    if calcs != [] {
      var init, last := calcs[..|calcs| - 1], calcs[|calcs| - 1];
      ExpandHas(init, v, ops, x);
      assert calcs == init + [last];
      var row := ApplyAll(ops, last, v).value;
      if x in row {
        var i :| 0 <= i < |ops| && row[i] == x;
        assert last in calcs && ops[i] in ops && Apply(ops[i], last, v) == Ok(x);
      }
      if exists c, op :: c in calcs && op in ops && Apply(op, c, v) == Ok(x) {
        var c, op :| c in calcs && op in ops && Apply(op, c, v) == Ok(x);
        if c == last {
          var i :| 0 <= i < |ops| && ops[i] == op;
          assert row[i] == x;
        } else {
          assert c in init;
        }
      }
    }
  }

  /**
   * After `values.reverse()`, when `calculate` succeeds its results are exactly the left-to-right
   * evaluations of the original order, one per choice of operators.
   */
  lemma CalculateIsLeftToRight(vs: seq<int>, ops: seq<Op>, x: int)
    requires |vs| >= 1 && Calculate(Reverse(vs), ops).Ok?
    ensures x in Calculate(Reverse(vs), ops).value <==>
      exists choice :: |choice| == |vs| - 1 && Drawn(choice, ops) && EvalLeft(vs, choice) == Ok(x)
  {
    if x in Calculate(Reverse(vs), ops).value {
      CalculateSound(vs, ops, x);
    }
    if exists choice :: |choice| == |vs| - 1 && Drawn(choice, ops) && EvalLeft(vs, choice) == Ok(x) {
      var choice :| |choice| == |vs| - 1 && Drawn(choice, ops) && EvalLeft(vs, choice) == Ok(x);
      EvaluationCalculated(vs, ops, choice, x);
    }
  }

  /** Every result of `calculate` on the reversed values is some left-to-right evaluation. */
  lemma {:induction false} CalculateSound(vs: seq<int>, ops: seq<Op>, x: int)
    requires |vs| >= 1 && Calculate(Reverse(vs), ops).Ok? && x in Calculate(Reverse(vs), ops).value
    ensures exists choice :: |choice| == |vs| - 1 && Drawn(choice, ops) && EvalLeft(vs, choice) == Ok(x)
  {
    if |vs| == 1 {
      assert Reverse(vs) == vs;
      assert Drawn([], ops) && EvalLeft(vs, []) == Ok(x);
    } else {
      var init, last := vs[..|vs| - 1], vs[|vs| - 1];
      ReverseStep(vs, ops);
      var calcs := Calculate(Reverse(init), ops).value;
      ExpandHas(calcs, last, ops, x);
      var c, op :| c in calcs && op in ops && Apply(op, c, last) == Ok(x);
      CalculateSound(init, ops, c);
      var ch :| |ch| == |init| - 1 && Drawn(ch, ops) && EvalLeft(init, ch) == Ok(c);
      EvalLeftStep(vs, ch, op, ops, c);
    }
  }

  /** `calculate` on the reversed values: the last value combined with the results for the others. */
  lemma ReverseStep(vs: seq<int>, ops: seq<Op>)
    requires |vs| >= 2
    ensures var init := Calculate(Reverse(vs[..|vs| - 1]), ops);
      Calculate(Reverse(vs), ops) == if init.Err? then init else Expand(init.value, vs[|vs| - 1], ops)
  {
    var rv := Reverse(vs);
    assert rv[0] == vs[|vs| - 1] && rv[1..] == Reverse(vs[..|vs| - 1]);
  }

  /** One more operator on the right of a left-to-right evaluation. */
  lemma EvalLeftStep(vs: seq<int>, ch: seq<Op>, op: Op, ops: seq<Op>, c: int)
    requires |vs| >= 2 && |ch| == |vs| - 2 && Drawn(ch, ops) && op in ops
    requires EvalLeft(vs[..|vs| - 1], ch) == Ok(c)
    ensures Drawn(ch + [op], ops)
    ensures EvalLeft(vs, ch + [op]) == Apply(op, c, vs[|vs| - 1])
  {
    assert (ch + [op])[..|ch|] == ch;
  }

  /** Every left-to-right evaluation is a result of `calculate` on the reversed values, when that succeeds. */
  lemma {:induction false} EvaluationCalculated(vs: seq<int>, ops: seq<Op>, choice: seq<Op>, x: int)
    requires |vs| >= 1 && |choice| == |vs| - 1 && Drawn(choice, ops) && EvalLeft(vs, choice) == Ok(x)
    requires Calculate(Reverse(vs), ops).Ok?
    ensures x in Calculate(Reverse(vs), ops).value
  {
    if |vs| == 1 {
      assert Reverse(vs) == vs;
    } else {
      var init, last := vs[..|vs| - 1], vs[|vs| - 1];
      var ch, op := choice[..|choice| - 1], choice[|choice| - 1];
      var c := EvalLeft(init, ch).value;
      ReverseStep(vs, ops);
      EvaluationCalculated(init, ops, ch, c);
      ExpandHas(Calculate(Reverse(init), ops).value, last, ops, x);
    }
  }

  /** More operators can only add results: when both succeed, part_2's results include part_1's. */
  lemma {:induction false} MoreOperatorsMoreResults(values: seq<int>, ops: seq<Op>, more: seq<Op>, x: int)
    requires |values| >= 1 && forall op :: op in ops ==> op in more
    requires Calculate(values, ops).Ok? && Calculate(values, more).Ok?
    ensures x in Calculate(values, ops).value ==> x in Calculate(values, more).value
  {
    if |values| > 1 && x in Calculate(values, ops).value {
      var calcs := Calculate(values[1..], ops).value;
      ExpandHas(calcs, values[0], ops, x);
      var c, op :| c in calcs && op in ops && Apply(op, c, values[0]) == Ok(x);
      MoreOperatorsMoreResults(values[1..], ops, more, c);
      ExpandHas(Calculate(values[1..], more).value, values[0], more, x);
    }
  }

  datatype Calibration = Calibration(answer: int, testValues: seq<int>)

  /** The answer counts when some result of `calculate` on the reversed values equals it. */
  predicate Holds(cal: Calibration, ops: seq<Op>) {
    var answers := Calculate(Reverse(cal.testValues), ops);
    answers.Ok? && cal.answer in answers.value
  }

  /** The total of a part: the answers that hold, or the first failure of `calculate`. */
  function Total(cals: seq<Calibration>, ops: seq<Op>): Result<int, Failure> {
    if cals == [] then Ok(0)
    else
      var rest := Total(cals[..|cals| - 1], ops);
      var cal := cals[|cals| - 1];
      var answers := Calculate(Reverse(cal.testValues), ops);
      if rest.Err? then rest
      else if answers.Err? then Err(answers.error)
      else if cal.answer in answers.value then Ok(rest.value + cal.answer)
      else rest
  }

  /** The loop of `part_1` and `part_2`, for the given operators. */
  method Solve(cals: seq<Calibration>, ops: seq<Op>) returns (r: Result<int, Failure>)
    ensures r == Total(cals, ops)
  {
    var total := 0;
    for i := 0 to |cals|
      invariant Total(cals[..i], ops) == Ok(total)
    {
      assert cals[..i + 1][..i] == cals[..i] && cals[..i + 1][i] == cals[i];
      var answers := Calculate(Reverse(cals[i].testValues), ops);
      if answers.Err? {
        TotalErrPersists(cals, ops, i + 1);
        return Err(answers.error);
      }
      if cals[i].answer in answers.value {
        total := total + cals[i].answer;
      }
    }
    assert cals[..|cals|] == cals;
    return Ok(total);
  }

  lemma {:induction false} TotalErrPersists(cals: seq<Calibration>, ops: seq<Op>, k: nat)
    requires k <= |cals| && Total(cals[..k], ops).Err?
    ensures Total(cals, ops) == Total(cals[..k], ops)
    decreases |cals|
  {
    if k < |cals| {
      var init := cals[..|cals| - 1];
      assert init[..k] == cals[..k];
      TotalErrPersists(init, ops, k);
    } else {
      assert cals[..k] == cals;
    }
  }

  method Part1(cals: seq<Calibration>) returns (r: Result<int, Failure>)
    ensures r == Total(cals, [Plus, Times])
  {
    r := Solve(cals, [Plus, Times]);
  }

  method Part2(cals: seq<Calibration>) returns (r: Result<int, Failure>)
    ensures r == Total(cals, [Plus, Times, Concat])
  {
    r := Solve(cals, [Plus, Times, Concat]);
  }

  /** With + and * alone nothing raises ValueError: part_1 fails only on a calibration with no values. */
  lemma {:induction false} PlusTimesNeverValueError(cals: seq<Calibration>)
    ensures Total(cals, [Plus, Times]) != Err(ValueError)
  {
    if cals != [] {
      PlusTimesNeverValueError(cals[..|cals| - 1]);
      var values := Reverse(cals[|cals| - 1].testValues);
      if values != [] {
        CalculateFails(values, [Plus, Times]);
      }
    }
  }

  /**
   * Whenever part_1 raises, so does part_2; when neither raises and no answer is negative,
   * part_2 is at least part_1.
   */
  lemma {:induction false} Part2AtLeastPart1(cals: seq<Calibration>)
    ensures Total(cals, [Plus, Times]).Err? ==> Total(cals, [Plus, Times, Concat]).Err?
    ensures ((forall i :: 0 <= i < |cals| ==> cals[i].answer >= 0) &&
      Total(cals, [Plus, Times]).Ok? && Total(cals, [Plus, Times, Concat]).Ok?) ==>
      Total(cals, [Plus, Times]).value <= Total(cals, [Plus, Times, Concat]).value
  {
    if cals != [] {
      var cal := cals[|cals| - 1];
      Part2AtLeastPart1(cals[..|cals| - 1]);
      var values := Reverse(cal.testValues);
      if values != [] {
        CalculateFails(values, [Plus, Times]);
        if Calculate(values, [Plus, Times, Concat]).Ok? {
          MoreOperatorsMoreResults(values, [Plus, Times], [Plus, Times, Concat], cal.answer);
        }
      }
    }
  }

  lemma ConcatenationExample()
    ensures Concatenation(12, 345) == Ok(12345)
    ensures Concatenation(-3, 4) == Ok(-34)
    ensures Concatenation(3, -4) == Err(ValueError)
  {
    assert Decimal(345) == "345";
  }

  /** 3267: 81 40 27 holds with + and *: 81 * 40 + 27, evaluated left to right. */
  lemma ExampleHolds()
    ensures Holds(Calibration(3267, [81, 40, 27]), [Plus, Times])
  {
    var vs := [81, 40, 27];
    assert Reverse(vs) == [27, 40, 81];
    CalculateFails(Reverse(vs), [Plus, Times]);
    assert EvalLeft(vs, [Times, Plus]) == Ok(3267);
    assert Drawn([Times, Plus], [Plus, Times]);
    CalculateIsLeftToRight(vs, [Plus, Times], 3267);
  }

  /** A negative value after the first makes part_2 raise where part_1 does not. */
  lemma NegativeValueExample()
    ensures Total([Calibration(7, [3, -4])], [Plus, Times]) == Ok(0)
    ensures Total([Calibration(7, [3, -4])], [Plus, Times, Concat]) == Err(ValueError)
  {
    assert Reverse([3, -4]) == [-4, 3];
    var row := ApplyAll([Plus, Times], 3, -4);
    assert Apply([Plus, Times][0], 3, -4) == Ok(row.value[0]) && Apply([Plus, Times][1], 3, -4) == Ok(row.value[1]);
    assert row.Ok? && |row.value| == 2;
    assert row.value[0] == -1 && row.value[1] == -12;
    assert row.value == [-1, -12];
    assert [3][..0] == [] && [-4, 3][1..] == [3];
    assert [] + [-1, -12] == [-1, -12];
    assert Expand([3], -4, [Plus, Times]) == Ok([-1, -12]);
    assert Calculate([-4, 3], [Plus, Times]) == Ok([-1, -12]);
    assert Calculate([-4, 3], [Plus, Times, Concat]).Err?;
  }
}
