/**
 * Chronospatial computer (src/day_17.py): `run_program` interprets a program of 3-bit opcodes and
 * operands over registers A, B and C, collecting the values of `out` instructions.
 */
module Day17 {
  import opened Common

  /** The exceptions `run_program` and `parse_input` can raise. */
  datatype Failure = NotImplementedError | ValueError | IndexError

  /** The machine between instructions: registers, `ptr` and the output so far. */
  datatype Machine = Machine(a: nat, b: nat, c: nat, ptr: nat, output: seq<nat>)

  function Pow2(k: nat): (r: nat)
    ensures r >= 1
  {
    if k == 0 then 1 else 2 * Pow2(k - 1)
  }

  /** `A // (2 ** k)`: never more than A. */
  function Shr(a: nat, k: nat): (r: nat)
    ensures r <= a
  {
    DivBounds(a, Pow2(k));
    a / Pow2(k)
  }

  lemma DivBounds(a: nat, p: nat)
    requires p >= 1
    ensures 0 <= a / p <= a
  {
    var q := a / p;
    assert a == p * q + a % p;
    assert p * q == q + (p - 1) * q;
  }

  /** `op`: operands 0-3 stand for themselves, 4/5/6 for A/B/C; 7 and anything else raise. */
  function Combo(m: Machine, operand: nat): Result<nat, Failure> {
    if operand <= 3 then Ok(operand)
    else if operand == 4 then Ok(m.a)
    else if operand == 5 then Ok(m.b)
    else if operand == 6 then Ok(m.c)
    else if operand == 7 then Err(NotImplementedError)
    else Err(ValueError)
  }

  /** `program[ptr + 1]`, which raises IndexError past the end. */
  function Operand(m: Machine, program: seq<nat>): Result<nat, Failure> {
    if m.ptr + 1 < |program| then Ok(program[m.ptr + 1]) else Err(IndexError)
  }

  /** The combo value of the current instruction's operand. */
  function ComboOperand(m: Machine, program: seq<nat>): Result<nat, Failure> {
    match Operand(m, program)
    case Err(e) => Err(e)
    case Ok(o) => Combo(m, o)
  }

  /** One turn of the `while` loop: the instruction at `ptr`. */
  function Step(m: Machine, program: seq<nat>): Result<Machine, Failure>
    requires m.ptr < |program|
  {
    var next := m.ptr + 2;
    match program[m.ptr]
    case 0 =>
      (match ComboOperand(m, program)
       case Err(e) => Err(e)
       case Ok(k) => Ok(m.(a := Shr(m.a, k), ptr := next)))
    case 1 =>
      (match Operand(m, program)
       case Err(e) => Err(e)
       case Ok(o) => Ok(m.(b := Xor(m.b, o), ptr := next)))
    case 2 =>
      (match ComboOperand(m, program)
       case Err(e) => Err(e)
       case Ok(k) => Ok(m.(b := k % 8, ptr := next)))
    case 3 =>
      if m.a == 0 then Ok(m.(ptr := next))
      else
        (match Operand(m, program)
         case Err(e) => Err(e)
         case Ok(o) => Ok(m.(ptr := o)))
    case 4 => Ok(m.(b := Xor(m.b, m.c), ptr := next))
    case 5 =>
      (match ComboOperand(m, program)
       case Err(e) => Err(e)
       case Ok(k) => Ok(m.(output := m.output + [k % 8], ptr := next)))
    case 6 =>
      (match ComboOperand(m, program)
       case Err(e) => Err(e)
       case Ok(k) => Ok(m.(b := Shr(m.a, k), ptr := next)))
    case 7 =>
      (match ComboOperand(m, program)
       case Err(e) => Err(e)
       case Ok(k) => Ok(m.(c := Shr(m.a, k), ptr := next)))
    case _ => Err(NotImplementedError)
  }

  /** Where a run stands after some turns: halted, stopped by an exception, or still running. */
  datatype Run = Halted(m: Machine) | Raised(error: Failure, m: Machine) | Running(m: Machine)

  /** The loop, for at most `fuel` turns; it halts once `ptr` is past the program. */
  function Exec(m: Machine, program: seq<nat>, fuel: nat): Run
    decreases fuel
  {
    if m.ptr >= |program| then Halted(m)
    else if fuel == 0 then Running(m)
    else
      match Step(m, program)
      case Err(e) => Raised(e, m)
      case Ok(m') => Exec(m', program, fuel - 1)
  }

  // ---------------------------------------------------------------------------------------------
  // What one instruction does

  /** `jnz` jumps to its operand exactly when A is not zero; every other instruction moves on by 2. */
  lemma StepJump(m: Machine, program: seq<nat>)
    requires m.ptr < |program| && Step(m, program).Ok?
    ensures Step(m, program).value.ptr
      == if program[m.ptr] == 3 && m.a != 0 then program[m.ptr + 1] else m.ptr + 2
  {
  }

  /** `out` appends one value in 0..7; no other instruction touches the output. */
  lemma StepOutput(m: Machine, program: seq<nat>)
    requires m.ptr < |program| && Step(m, program).Ok?
    ensures var m' := Step(m, program).value;
      if program[m.ptr] == 5 then |m'.output| == |m.output| + 1 && m'.output[..|m.output|] == m.output
        && m'.output[|m.output|] < 8
      else m'.output == m.output
  {
  }

  /** The divisions store A // 2^combo: never more than A, and A itself only ever shrinks. */
  lemma StepDivides(m: Machine, program: seq<nat>)
    requires m.ptr < |program| && Step(m, program).Ok?
    ensures Step(m, program).value.a <= m.a
    ensures program[m.ptr] in {0, 6, 7} ==> ComboOperand(m, program).Ok?
    ensures program[m.ptr] == 0 ==> Step(m, program).value.a == Shr(m.a, ComboOperand(m, program).value)
    ensures program[m.ptr] == 6 ==> Step(m, program).value.b == Shr(m.a, ComboOperand(m, program).value) <= m.a
    ensures program[m.ptr] == 7 ==> Step(m, program).value.c == Shr(m.a, ComboOperand(m, program).value) <= m.a
  {
  }

  /** The combo operand raises NotImplementedError on 7 and ValueError above 7. */
  lemma ComboFails(m: Machine, operand: nat)
    ensures Combo(m, operand).Err? <==> operand >= 7
    ensures Combo(m, operand) == Err(NotImplementedError) <==> operand == 7
    ensures operand <= 3 ==> Combo(m, operand) == Ok(operand)
  {
  }

  // ---------------------------------------------------------------------------------------------
  // What a whole run does

  /** The machine a run ends in. */
  function Final(r: Run): Machine {
    match r
    case Halted(m) => m
    case Raised(_, m) => m
    case Running(m) => m
  }

  /**
   * Over a whole run the output only grows and stays in 0..7, and A never grows; a halted run has
   * its `ptr` past the program.
   */
  lemma {:induction false} ExecKeeps(m: Machine, program: seq<nat>, fuel: nat)
    requires forall i :: 0 <= i < |m.output| ==> m.output[i] < 8
    ensures var f := Final(Exec(m, program, fuel));
      |m.output| <= |f.output| && f.output[..|m.output|] == m.output
      && (forall i :: 0 <= i < |f.output| ==> f.output[i] < 8)
      && f.a <= m.a
    ensures Exec(m, program, fuel).Halted? ==> Final(Exec(m, program, fuel)).ptr >= |program|
    decreases fuel
  {
    if m.ptr < |program| && fuel > 0 && Step(m, program).Ok? {
      var m' := Step(m, program).value;
      StepOutput(m, program);
      StepDivides(m, program);
      ExecKeeps(m', program, fuel - 1);
      var f := Final(Exec(m', program, fuel - 1));
      assert f.output[..|m.output|] == f.output[..|m'.output|][..|m.output|];
    }
  }

  /** More fuel never changes a run that has already halted or raised. */
  lemma {:induction false} ExecSettled(m: Machine, program: seq<nat>, fuel: nat, more: nat)
    requires !Exec(m, program, fuel).Running?
    ensures Exec(m, program, fuel + more) == Exec(m, program, fuel)
    decreases fuel
  {
    if m.ptr < |program| && Step(m, program).Ok? {
      ExecSettled(Step(m, program).value, program, fuel - 1, more);
    }
  }

  // ---------------------------------------------------------------------------------------------
  // run_program on the caller's registers

  /** The register dictionary, which `run_program` updates in place. */
  class Registers {
    var a: nat
    var b: nat
    var c: nat

    constructor (a: nat, b: nat, c: nat)
      ensures this.a == a && this.b == b && this.c == c
    {
      this.a, this.b, this.c := a, b, c;
    }
  }

  /** What `run_program` gives its caller: the output list, an exception, or (out of fuel) nothing yet. */
  datatype Outcome = Output(values: seq<nat>) | Exception(error: Failure) | OutOfFuel

  function OutcomeOf(r: Run): Outcome {
    match r
    case Halted(m) => Output(m.output)
    case Raised(e, _) => Exception(e)
    case Running(_) => OutOfFuel
  }

  /**
   * `run_program` for at most `fuel` turns of its loop: the outcome and the registers left behind are
   * those of the run from `ptr` 0 with no output.
   */
  method RunProgram(registers: Registers, program: seq<nat>, fuel: nat) returns (r: Outcome)
    modifies registers
    ensures var run := Exec(Machine(old(registers.a), old(registers.b), old(registers.c), 0, []), program, fuel);
      r == OutcomeOf(run)
      && registers.a == Final(run).a && registers.b == Final(run).b && registers.c == Final(run).c
  {
    ghost var start := Machine(registers.a, registers.b, registers.c, 0, []);
    var ptr: nat := 0;
    var output: seq<nat> := [];
    var turns := 0;
    while ptr < |program| && turns < fuel
      invariant turns <= fuel
      invariant Exec(start, program, fuel) == Exec(Machine(registers.a, registers.b, registers.c, ptr, output), program, fuel - turns)
      decreases fuel - turns
    {
      var step := StepOn(registers, program, ptr, output);
      if step.Err? {
        return Exception(step.error);
      }
      ptr, output := step.value.0, step.value.1;
      turns := turns + 1;
    }
    if ptr < |program| {
      return OutOfFuel;
    }
    return Output(output);
  }

  /** One turn of the loop on the registers in place; on an exception they are as the turn left them. */
  method StepOn(registers: Registers, program: seq<nat>, ptr: nat, output: seq<nat>) returns (r: Result<(nat, seq<nat>), Failure>)
    requires ptr < |program|
    modifies registers
    ensures var m := Machine(old(registers.a), old(registers.b), old(registers.c), ptr, output);
      match Step(m, program)
      case Err(e) => r == Err(e) && registers.a == m.a && registers.b == m.b && registers.c == m.c
      case Ok(m') => r == Ok((m'.ptr, m'.output)) && registers.a == m'.a && registers.b == m'.b && registers.c == m'.c
  {
    var m := Machine(registers.a, registers.b, registers.c, ptr, output);
    var opcode := program[ptr];
    var operand := if ptr + 1 < |program| then Ok(program[ptr + 1]) else Err(IndexError);
    assert operand == Operand(m, program);
    var combo := match operand case Err(e) => Err(e) case Ok(o) => Combo(m, o);
    assert combo == ComboOperand(m, program);
    if opcode == 1 {
      if operand.Err? {
        return Err(operand.error);
      }
      registers.b := Xor(registers.b, operand.value);
    } else if opcode == 3 {
      if registers.a != 0 {
        if operand.Err? {
          return Err(operand.error);
        }
        return Ok((operand.value, output));
      }
    } else if opcode == 4 {
      registers.b := Xor(registers.b, registers.c);
    } else if opcode in {0, 2, 5, 6, 7} {
      if combo.Err? {
        return Err(combo.error);
      }
      var k := combo.value;
      var low: nat := k % 8;
      if opcode == 0 {
        registers.a := Shr(registers.a, k);
      } else if opcode == 2 {
        registers.b := low;
      } else if opcode == 5 {
        return Ok((ptr + 2, output + [low]));
      } else if opcode == 6 {
        registers.b := Shr(registers.a, k);
      } else {
        registers.c := Shr(registers.a, k);
      }
    } else {
      return Err(NotImplementedError);
    }
    return Ok((ptr + 2, output));
  }

  // ---------------------------------------------------------------------------------------------
  // The tests of run_program

  /** C = 9 and `bst 6` set B to 1. */
  lemma ExampleBst()
    ensures Final(Exec(Machine(0, 0, 9, 0, []), [2, 6], 1)).b == 1
  {
  }

  /** A = 10 and three `out`s give 0, 1, 2. */
  lemma ExampleOut()
    ensures Exec(Machine(10, 0, 0, 0, []), [5, 0, 5, 1, 5, 4], 3) == Halted(Machine(10, 0, 0, 6, [0, 1, 2]))
  {
  }

  /** B = 29 XOR 7 is 26. */
  lemma ExampleBxl()
    ensures Final(Exec(Machine(0, 29, 0, 0, []), [1, 7], 1)).b == 26
  {
  }

  /** B = 2024 XOR 43690 is 44354. */
  lemma ExampleBxc()
    ensures Final(Exec(Machine(0, 2024, 43690, 0, []), [4, 0], 1)).b == 44354
  {
  }

  /** The program of the third test and of the example: `adv 1`, `out 4`, `jnz 0`. */
  const Halving: seq<nat> := [0, 1, 5, 4, 3, 0]

  /** One pass of `Halving` halves A, outputs the new A mod 8, and loops back while A is not zero. */
  lemma HalvingPass(a: nat, out: seq<nat>, fuel: nat)
    ensures a / 2 != 0 ==> Exec(Machine(a, 0, 0, 0, out), Halving, fuel + 3) == Exec(Machine(a / 2, 0, 0, 0, out + [a / 2 % 8]), Halving, fuel)
    ensures a / 2 == 0 ==> Exec(Machine(a, 0, 0, 0, out), Halving, fuel + 3) == Halted(Machine(0, 0, 0, 6, out + [0]))
  {
    var m0 := Machine(a, 0, 0, 0, out);
    var m1 := Machine(a / 2, 0, 0, 2, out);
    var m2 := Machine(a / 2, 0, 0, 4, out + [a / 2 % 8]);
    var m3 := if a / 2 != 0 then m2.(ptr := 0) else m2.(ptr := 6);
    assert Step(m0, Halving) == Ok(m1);
    assert Exec(m0, Halving, fuel + 3) == Exec(m1, Halving, fuel + 2);
    assert Step(m1, Halving) == Ok(m2);
    assert Exec(m1, Halving, fuel + 2) == Exec(m2, Halving, fuel + 1);
    assert Step(m2, Halving) == Ok(m3);
    assert Exec(m2, Halving, fuel + 1) == Exec(m3, Halving, fuel);
  }

  /** The values `Halving` outputs from A = a: each halving of A, mod 8, down to the pass that reaches 0. */
  function Halvings(a: nat): seq<nat>
    decreases a
  {
    if a / 2 == 0 then [0] else [a / 2 % 8] + Halvings(a / 2)
  }

  /** `Halving` from A = a halts after three turns per output, having output `Halvings(a)` and cleared A. */
  lemma {:induction false} HalvingRun(a: nat, out: seq<nat>)
    ensures Exec(Machine(a, 0, 0, 0, out), Halving, 3 * |Halvings(a)|) == Halted(Machine(0, 0, 0, 6, out + Halvings(a)))
    decreases a
  {
    if a / 2 == 0 {
      HalvingPass(a, out, 0);
    } else {
      var rest := Halvings(a / 2);
      HalvingPass(a, out, 3 * |rest|);
      HalvingRun(a / 2, out + [a / 2 % 8]);
      assert out + [a / 2 % 8] + rest == out + Halvings(a);
    }
  }

  /** With A = 2024 the program outputs 4,2,5,6,7,7,7,7,3,1,0 (by `HalvingRun`, in 33 turns). */
  lemma ExampleHalving()
    ensures Halvings(2024) == [4, 2, 5, 6, 7, 7, 7, 7, 3, 1, 0]
  {
  }

  /** The example's registers (A = 729) make the program output 4,6,3,5,6,3,5,2,1,0 (by `HalvingRun`, in 30 turns). */
  lemma ExampleRun()
    ensures Halvings(729) == [4, 6, 3, 5, 6, 3, 5, 2, 1, 0]
  {
  }

  // ---------------------------------------------------------------------------------------------
  // parse_input and part_1

  /** One register line "Register X: v": the name after the first space and the value; the value is read first. */
  function RegisterLine(line: string): Result<(string, int), Failure> {
    var pieces := SplitOn(line, ": ");
    if |pieces| != 2 then Err(ValueError)
    else
      match IntOf(pieces[1])
      case None => Err(ValueError)
      case Some(v) =>
        var words := SplitOn(pieces[0], " ");
        if |words| < 2 then Err(IndexError) else Ok((words[1], v))
  }

  /** The register dictionary after the lines, in order; the first bad line raises. */
  function RegisterMap(lines: seq<string>): Result<map<string, int>, Failure> {
    if lines == [] then Ok(map[])
    else
      var n := |lines| - 1;
      match RegisterMap(lines[..n])
      case Err(e) => Err(e)
      case Ok(regs) =>
        match RegisterLine(lines[n])
        case Err(e) => Err(e)
        case Ok((name, v)) => Ok(regs[name := v])
  }

  /** `[int(x) for x in pieces]`: the first piece that is not a number raises ValueError. */
  function Ints(pieces: seq<string>): Result<seq<int>, Failure> {
    if pieces == [] then Ok([])
    else
      var n := |pieces| - 1;
      match Ints(pieces[..n])
      case Err(e) => Err(e)
      case Ok(vs) =>
        match IntOf(pieces[n])
        case None => Err(ValueError)
        case Some(v) => Ok(vs + [v])
  }

  /** The program line "Program: p,q,...": the text after its first space, split on commas. */
  function ProgramLine(text: string): Result<seq<int>, Failure> {
    var words := SplitOn(text, " ");
    if |words| < 2 then Err(IndexError) else Ints(SplitOn(words[1], ","))
  }

  /** `parse_input`: registers from the first section, the program from the second. */
  function Parse(puzzle: string): Result<(map<string, int>, seq<int>), Failure> {
    var parts := Sections(puzzle);
    if |parts| != 2 then Err(ValueError)
    else
      match RegisterMap(Split(parts[0]))
      case Err(e) => Err(e)
      case Ok(regs) =>
        match ProgramLine(parts[1])
        case Err(e) => Err(e)
        case Ok(program) => Ok((regs, program))
  }

  /** Once a prefix of the register lines raises, the whole loop raises the same exception. */
  lemma {:induction false} RegisterMapFails(lines: seq<string>, k: nat)
    requires k <= |lines| && RegisterMap(lines[..k]).Err?
    ensures RegisterMap(lines) == RegisterMap(lines[..k])
  {
    if k < |lines| {
      var n := |lines| - 1;
      assert lines[..n][..k] == lines[..k];
      RegisterMapFails(lines[..n], k);
    } else {
      assert lines[..k] == lines;
    }
  }

  /** Every line of a loop that did not raise is a register line, and the last line naming a register sets it. */
  lemma {:induction false} RegistersSet(lines: seq<string>, i: int)
    requires RegisterMap(lines).Ok? && 0 <= i < |lines|
    ensures RegisterLine(lines[i]).Ok?
    ensures (forall j :: i < j < |lines| && RegisterLine(lines[j]).Ok? ==> RegisterLine(lines[j]).value.0 != RegisterLine(lines[i]).value.0)
      ==> var (name, v) := RegisterLine(lines[i]).value; name in RegisterMap(lines).value && RegisterMap(lines).value[name] == v
  {
    var n := |lines| - 1;
    var init := lines[..n];
    if i < n {
      assert init[i] == lines[i];
      assert forall j :: i < j < n ==> init[j] == lines[j];
      RegistersSet(init, i);
    }
  }

  /** The parsed program: each number read back from its text. */
  lemma {:induction false} IntsRead(pieces: seq<string>)
    requires Ints(pieces).Ok?
    ensures |Ints(pieces).value| == |pieces|
    ensures forall i :: 0 <= i < |pieces| ==> IntOf(pieces[i]) == Some(Ints(pieces).value[i])
  {
    if pieces != [] {
      var n := |pieces| - 1;
      IntsRead(pieces[..n]);
      assert forall i :: 0 <= i < n ==> pieces[..n][i] == pieces[i];
    }
  }

  /** `registers[name]` on the defaultdict: 0 when the name was never set. */
  function Get(regs: map<string, int>, name: string): int {
    if name in regs then regs[name] else 0
  }

  /** No negative register or program value (the model's integers are the naturals). */
  predicate Natural(regs: map<string, int>, program: seq<int>) {
    Get(regs, "A") >= 0 && Get(regs, "B") >= 0 && Get(regs, "C") >= 0
    && forall i :: 0 <= i < |program| ==> program[i] >= 0
  }

  function Naturals(program: seq<int>): (r: seq<nat>)
    requires forall i :: 0 <= i < |program| ==> program[i] >= 0
    ensures |r| == |program| && forall i :: 0 <= i < |r| ==> r[i] == program[i]
  {
    seq(|program|, i requires 0 <= i < |program| => program[i] as nat)
  }

  /** `",".join(map(str, output))`. */
  function Csv(values: seq<nat>): string {
    if values == [] then "" else JoinOn(seq(|values|, i requires 0 <= i < |values| => Decimal(values[i])), ",")
  }

  /** The run part_1 makes on a parsed, natural input. */
  function RunOf(regs: map<string, int>, program: seq<int>, fuel: nat): Run
    requires Natural(regs, program)
  {
    Exec(Machine(Get(regs, "A") as nat, Get(regs, "B") as nat, Get(regs, "C") as nat, 0, []), Naturals(program), fuel)
  }

  /**
   * `part_1` with at most `fuel` turns (None when they run out): a parse error, the exception the
   * run raises, or its output joined with commas.
   */
  method Part1(puzzle: string, fuel: nat) returns (r: Option<Result<string, Failure>>)
    requires Parse(puzzle).Ok? ==> Natural(Parse(puzzle).value.0, Parse(puzzle).value.1)
    ensures Parse(puzzle).Err? ==> r == Some(Err(Parse(puzzle).error))
    ensures Parse(puzzle).Ok? ==> var (regs, program) := Parse(puzzle).value;
      match RunOf(regs, program, fuel)
      case Halted(m) => r == Some(Ok(Csv(m.output)))
      case Raised(e, _) => r == Some(Err(e))
      case Running(_) => r == None
  {
    var parsed := ParseInput(puzzle);
    if parsed.Err? {
      return Some(Err(parsed.error));
    }
    var (regs, program) := parsed.value;
    var registers := new Registers(Get(regs, "A") as nat, Get(regs, "B") as nat, Get(regs, "C") as nat);
    var outcome := RunProgram(registers, Naturals(program), fuel);
    match outcome
    case Output(values) => return Some(Ok(Csv(values)));
    case Exception(e) => return Some(Err(e));
    case OutOfFuel => return None;
  }

  /** `parse_input`, with the register lines read in a loop. */
  method ParseInput(puzzle: string) returns (r: Result<(map<string, int>, seq<int>), Failure>)
    ensures r == Parse(puzzle)
  {
    var parts := Sections(puzzle);
    if |parts| != 2 {
      return Err(ValueError);
    }
    var lines := Split(parts[0]);
    var regs: map<string, int> := map[];
    for i := 0 to |lines|
      invariant RegisterMap(lines[..i]) == Ok(regs)
    {
      assert lines[..i + 1][..i] == lines[..i];
      var line := RegisterLine(lines[i]);
      if line.Err? {
        RegisterMapFails(lines, i + 1);
        return Err(line.error);
      }
      regs := regs[line.value.0 := line.value.1];
    }
    assert lines[..|lines|] == lines;
    var program := ProgramLine(parts[1]);
    if program.Err? {
      return Err(program.error);
    }
    return Ok((regs, program.value));
  }
}
