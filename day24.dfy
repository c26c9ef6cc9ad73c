/**
 * Crossed wires (src/day_24.py): `parse_input` reads the initial wire values and the gates,
 * `apply_rule` evaluates a gate after evaluating, recursively, the inputs it is missing, and
 * `part_1` evaluates every gate and reads the wires starting with 'z' as a binary number.
 */
module Day24 {
  import opened Common

  /** The exceptions the source raises: ValueError and IndexError while reading, KeyError for an
    * input no gate drives, RecursionError when a gate depends on itself. */
  datatype Failure = ValueError | IndexError | KeyError | RecursionError

  /** `Op = Literal["AND", "OR", "XOR"]`. */
  datatype Op = AND | OR | XOR

  /** `Rule = tuple[Wire, Op, Wire, Wire]`: inputs a and b, output c. */
  datatype Rule = Rule(a: string, op: Op, b: string, c: string)

  type Wires = map<string, bool>

  type Rules = map<string, Rule>

  // ---------------------------------------------------------------------------------------------
  // parse_input

  /** The operator as written in the input. */
  function OpName(op: Op): string {
    match op
    case AND => "AND"
    case OR => "OR"
    case XOR => "XOR"
  }

  /** `parse_op`: the three operator names, and a ValueError for anything else. */
  function ParseOp(name: string): (r: Result<Op, Failure>)
    ensures r.Ok? <==> name in {"AND", "OR", "XOR"}
    ensures r.Ok? ==> OpName(r.value) == name
    ensures r.Err? ==> r.error == ValueError
  {
    if name == "AND" then Ok(AND)
    else if name == "OR" then Ok(OR)
    else if name == "XOR" then Ok(XOR)
    else Err(ValueError)
  }

  /** `wire, value = line.split(": ")` and `int(value) == 1`: the unpacking fails before `int` does. */
  function WireLine(line: string): Result<(string, bool), Failure> {
    var pieces := SplitOn(line, ": ");
    if |pieces| != 2 then Err(ValueError)
    else
      match IntOf(pieces[1])
      case None => Err(ValueError)
      case Some(v) => Ok((pieces[0], v == 1))
  }

  /**
   * The tuple of a gate line split on spaces, built left to right: `parts[1]` is indexed and checked
   * as an operator before `parts[2]` and `parts[4]` are indexed. `parts[3]` (the arrow) is never read.
   */
  function RuleLine(line: string): Result<Rule, Failure> {
    var parts := SplitOn(line, " ");
    if |parts| < 2 then Err(IndexError)
    else
      match ParseOp(parts[1])
      case Err(e) => Err(e)
      case Ok(op) => if |parts| < 5 then Err(IndexError) else Ok(Rule(parts[0], op, parts[2], parts[4]))
  }

  /** A gate written `a OP b -> c` reads back as the rule, when no wire name holds a space. */
  lemma RuleLineRead(rule: Rule)
    requires ' ' !in rule.a && ' ' !in rule.b && ' ' !in rule.c
    ensures RuleLine(rule.a + " " + OpName(rule.op) + " " + rule.b + " -> " + rule.c) == Ok(rule)
  {
    var words := [rule.a, OpName(rule.op), rule.b, "->", rule.c];
    SplitJoinOn(words, ' ');
    assert RuleLine(JoinOn(words, " ")) == Ok(rule);
    JoinGate(words[0], words[1], words[2], words[4]);
  }

  /** The pieces of a gate line joined with spaces. */
  lemma JoinGate(a: string, op: string, b: string, c: string)
    ensures JoinOn([a, op, b, "->", c], " ") == a + " " + op + " " + b + " -> " + c
  {
    var ws := [a, op, b, "->", c];
    assert ws[1..] == [op, b, "->", c] && ws[1..][1..] == [b, "->", c];
    assert ws[1..][1..][1..] == ["->", c] && ws[1..][1..][1..][1..] == [c];
    var arrow := JoinOn(["->", c], " ");
    assert ["->", c][1..] == [c] && JoinOn([c], " ") == c;
    assert arrow == "->" + " " + c;
    assert b + " " + arrow == b + " -> " + c;
    assert op + " " + JoinOn([b, "->", c], " ") == op + " " + b + " -> " + c;
  }

  /** A gate line whose operator is none of the three is a ValueError, whatever its wires. */
  lemma UnknownOp(a: string, name: string, b: string, c: string)
    requires ' ' !in a && ' ' !in name && ' ' !in b && ' ' !in c
    requires name !in {"AND", "OR", "XOR"}
    ensures RuleLine(a + " " + name + " " + b + " -> " + c) == Err(ValueError)
  {
    var words := [a, name, b, "->", c];
    SplitJoinOn(words, ' ');
    assert RuleLine(JoinOn(words, " ")) == Err(ValueError);
    JoinGate(words[0], words[1], words[2], words[4]);
  }

  /** The first loop of `parse_input`: a later line for the same wire overwrites the earlier one. */
  function WiresOf(lines: seq<string>): Result<Wires, Failure> {
    if lines == [] then Ok(map[])
    else
      var n := |lines| - 1;
      match WiresOf(lines[..n])
      case Err(e) => Err(e)
      case Ok(wires) =>
        match WireLine(lines[n])
        case Err(e) => Err(e)
        case Ok(wv) => Ok(wires[wv.0 := wv.1])
  }

  /**
   * The second loop of `parse_input`: `rules[rule[3]] = rule`, together with the dictionary's key
   * order (a key keeps the place of its first insertion).
   */
  function RulesOf(lines: seq<string>): Result<(Rules, seq<string>), Failure> {
    if lines == [] then Ok((map[], []))
    else
      var n := |lines| - 1;
      match RulesOf(lines[..n])
      case Err(e) => Err(e)
      case Ok(ro) =>
        match RuleLine(lines[n])
        case Err(e) => Err(e)
        case Ok(rule) =>
          Ok((ro.0[rule.c := rule], if rule.c in ro.0 then ro.1 else ro.1 + [rule.c]))
  }

  /** Every rule is stored under its own output wire. */
  ghost predicate Keyed(rules: Rules) {
    forall w :: w in rules ==> rules[w].c == w
  }

  /** The key order lists every key once. */
  ghost predicate Ordered(rules: Rules, order: seq<string>) {
    (forall i, j :: 0 <= i < j < |order| ==> order[i] != order[j])
    && forall w :: w in rules <==> w in order
  }

  /** Reading the gates fails exactly when some line does. */
  lemma {:induction false} RulesFail(lines: seq<string>)
    ensures RulesOf(lines).Err? <==> exists i :: 0 <= i < |lines| && RuleLine(lines[i]).Err?
  {
    if lines != [] {
      var n := |lines| - 1;
      RulesFail(lines[..n]);
      assert forall i :: 0 <= i < n ==> lines[..n][i] == lines[i];
    }
  }

  /**
   * Once read, every rule is stored under its own output wire, the key order lists the keys once
   * each, and every line's output wire is a key.
   */
  lemma {:induction false} RulesRead(lines: seq<string>)
    ensures RulesOf(lines).Ok? ==>
      Keyed(RulesOf(lines).value.0) && Ordered(RulesOf(lines).value.0, RulesOf(lines).value.1)
    ensures RulesOf(lines).Ok? ==> forall i :: 0 <= i < |lines| ==>
      RuleLine(lines[i]).Ok? && RuleLine(lines[i]).value.c in RulesOf(lines).value.0
  {
    if lines != [] {
      var n := |lines| - 1;
      RulesRead(lines[..n]);
      if RulesOf(lines).Ok? {
        var ro := RulesOf(lines[..n]).value;
        var rule := RuleLine(lines[n]).value;
        assert RulesOf(lines).value == (ro.0[rule.c := rule], if rule.c in ro.0 then ro.1 else ro.1 + [rule.c]);
        forall i | 0 <= i < n
          ensures RuleLine(lines[i]).Ok? && RuleLine(lines[i]).value.c in RulesOf(lines).value.0
        {
          assert lines[..n][i] == lines[i];
        }
      }
    }
  }

  /** `parse_input`: the initial wires are read before `parts[1]` is indexed. */
  function ParseInput(puzzle: string): (r: Result<(Wires, Rules, seq<string>), Failure>)
    ensures r.Ok? ==> Keyed(r.value.1) && Ordered(r.value.1, r.value.2)
  {
    var parts := SplitOn(puzzle, "\n\n");
    match WiresOf(Lines(parts[0]))
    case Err(e) => Err(e)
    case Ok(wires) =>
      if |parts| < 2 then Err(IndexError)
      else
        RulesRead(Lines(parts[1]));
        match RulesOf(Lines(parts[1]))
        case Err(e) => Err(e)
        case Ok(ro) => Ok((wires, ro.0, ro.1))
  }

  /** The first loop of `parse_input`. */
  method ReadWires(lines: seq<string>) returns (r: Result<Wires, Failure>)
    ensures r == WiresOf(lines)
  {
    var wires: Wires := map[];
    for k := 0 to |lines|
      invariant WiresOf(lines[..k]) == Ok(wires)
    {
      assert lines[..k + 1][..k] == lines[..k];
      match WireLine(lines[k])
      case Err(e) =>
        FailureStays(lines, k + 1, e);
        return Err(e);
      case Ok(wv) =>
        wires := wires[wv.0 := wv.1];
    }
    assert lines[..|lines|] == lines;
    return Ok(wires);
  }

  /** Once a line fails, reading fails with that error whatever follows. */
  lemma {:induction false} FailureStays(lines: seq<string>, k: nat, e: Failure)
    requires 0 < k <= |lines| && WiresOf(lines[..k]) == Err(e)
    ensures WiresOf(lines) == Err(e)
    decreases |lines| - k
  {
    if k < |lines| {
      assert lines[..k + 1][..k] == lines[..k];
      FailureStays(lines, k + 1, e);
    } else {
      assert lines[..k] == lines;
    }
  }

  /** Once a line fails, reading fails with that error whatever follows. */
  lemma {:induction false} RuleFailureStays(lines: seq<string>, k: nat, e: Failure)
    requires 0 < k <= |lines| && RulesOf(lines[..k]) == Err(e)
    ensures RulesOf(lines) == Err(e)
    decreases |lines| - k
  {
    if k < |lines| {
      assert lines[..k + 1][..k] == lines[..k];
      RuleFailureStays(lines, k + 1, e);
    } else {
      assert lines[..k] == lines;
    }
  }

  /** The second loop of `parse_input`. */
  method ReadRules(lines: seq<string>) returns (r: Result<(Rules, seq<string>), Failure>)
    ensures r == RulesOf(lines)
  {
    var rules: Rules := map[];
    var order: seq<string> := [];
    for k := 0 to |lines|
      invariant RulesOf(lines[..k]) == Ok((rules, order))
    {
      assert lines[..k + 1][..k] == lines[..k];
      match RuleLine(lines[k])
      case Err(e) =>
        RuleFailureStays(lines, k + 1, e);
        return Err(e);
      case Ok(rule) =>
        if rule.c !in rules {
          order := order + [rule.c];
        }
        rules := rules[rule.c := rule];
    }
    assert lines[..|lines|] == lines;
    return Ok((rules, order));
  }

  /** `parse_input`. */
  method Parse(puzzle: string) returns (r: Result<(Wires, Rules, seq<string>), Failure>)
    ensures r == ParseInput(puzzle)
  {
    var parts := SplitOn(puzzle, "\n\n");
    var wires := ReadWires(Lines(parts[0]));
    if wires.Err? {
      return Err(wires.error);
    }
    if |parts| < 2 {
      return Err(IndexError);
    }
    var rules := ReadRules(Lines(parts[1]));
    if rules.Err? {
      return Err(rules.error);
    }
    return Ok((wires.value, rules.value.0, rules.value.1));
  }

  // ---------------------------------------------------------------------------------------------
  // apply_rule

  /** The `match op` of `apply_rule`. */
  function Gate(op: Op, x: bool, y: bool): bool {
    match op
    case AND => x && y
    case OR => x || y
    case XOR => x != y
  }

  /**
   * `apply_rule(rules[w], wires, rules)` called while the gates of `pending` are still waiting for
   * their inputs: each input not yet on a wire is evaluated first (a KeyError when no gate drives
   * it, a RecursionError when it is one of the waiting gates, which would repeat forever), then the
   * gate's value is written to w. Only w may change an existing value; every wire added is driven
   * by a gate; and when w is not one of its own inputs, its value is the gate applied to the
   * values its inputs end with.
   */
  function Evaluate(w: string, wires: Wires, rules: Rules, pending: set<string>): (r: Result<Wires, Failure>)
    requires Keyed(rules) && w in rules && w !in pending
    ensures r.Ok? ==> wires.Keys + {w} <= r.value.Keys <= wires.Keys + (rules.Keys - pending)
    ensures r.Ok? ==> forall x :: x in wires && x != w ==> r.value[x] == wires[x]
    ensures r.Ok? ==> rules[w].a in r.value && rules[w].b in r.value
    ensures r.Ok? && rules[w].a != w && rules[w].b != w ==>
      r.value[w] == Gate(rules[w].op, r.value[rules[w].a], r.value[rules[w].b])
    decreases rules.Keys - pending, 0
  {
    var rule := rules[w];
    var waiting := pending + {w};
    match Input(rule.a, wires, rules, waiting)
    case Err(e) => Err(e)
    case Ok(wires1) =>
      match Input(rule.b, wires1, rules, waiting)
      case Err(e) => Err(e)
      case Ok(wires2) => Ok(wires2[rule.c := Gate(rule.op, wires2[rule.a], wires2[rule.b])])
  }

  /** `if x not in wires: apply_rule(rules[x], wires, rules)`: afterwards x is on a wire. */
  function Input(x: string, wires: Wires, rules: Rules, waiting: set<string>): (r: Result<Wires, Failure>)
    requires Keyed(rules)
    ensures r.Ok? ==> wires.Keys + {x} <= r.value.Keys <= wires.Keys + (rules.Keys - waiting)
    ensures r.Ok? ==> forall y :: y in wires ==> r.value[y] == wires[y]
    decreases rules.Keys - waiting, 1
  {
    if x in wires then Ok(wires)
    else if x !in rules then Err(KeyError)
    else if x in waiting then Err(RecursionError)
    else Evaluate(x, wires, rules, waiting)
  }

  /** The recursive `apply_rule`, writing into its own copy of the wires. */
  method Apply(w: string, wires: Wires, rules: Rules, pending: set<string>) returns (r: Result<Wires, Failure>)
    requires Keyed(rules) && w in rules && w !in pending
    ensures r == Evaluate(w, wires, rules, pending)
    decreases rules.Keys - pending, 0
  {
    var rule := rules[w];
    var waiting := pending + {w};
    var current := wires;
    if rule.a !in current {
      if rule.a !in rules {
        return Err(KeyError);
      } else if rule.a in waiting {
        return Err(RecursionError);
      }
      var next := Apply(rule.a, current, rules, waiting);
      if next.Err? {
        return next;
      }
      current := next.value;
    }
    assert Input(rule.a, wires, rules, waiting) == Ok(current);
    ghost var wires1 := current;
    if rule.b !in current {
      if rule.b !in rules {
        return Err(KeyError);
      } else if rule.b in waiting {
        return Err(RecursionError);
      }
      var next := Apply(rule.b, current, rules, waiting);
      if next.Err? {
        return next;
      }
      current := next.value;
    }
    assert Input(rule.b, wires1, rules, waiting) == Ok(current);
    current := current[rule.c := Gate(rule.op, current[rule.a], current[rule.b])];
    return Ok(current);
  }

  /** Every gate whose output is on a wire has its inputs on wires and holds the gate of their values. */
  ghost predicate Settled(wires: Wires, rules: Rules) {
    forall g :: g in wires && g in rules ==>
      rules[g].a in wires && rules[g].b in wires && wires[g] == Gate(rules[g].op, wires[rules[g].a], wires[rules[g].b])
  }

  /**
   * On settled wires, evaluating a gate keeps them settled; a gate already on a wire is evaluated
   * again to the same value, so nothing changes.
   */
  lemma {:induction false} EvaluateSettled(w: string, wires: Wires, rules: Rules, pending: set<string>)
    requires Keyed(rules) && w in rules && w !in pending && Settled(wires, rules)
    ensures Evaluate(w, wires, rules, pending).Ok? ==> Settled(Evaluate(w, wires, rules, pending).value, rules)
    ensures w in wires ==> Evaluate(w, wires, rules, pending) == Ok(wires)
    decreases rules.Keys - pending, 0
  {
    var rule := rules[w];
    var waiting := pending + {w};
    InputSettled(rule.a, wires, rules, waiting);
    var first := Input(rule.a, wires, rules, waiting);
    if first.Ok? {
      var wires1 := first.value;
      InputSettled(rule.b, wires1, rules, waiting);
      var second := Input(rule.b, wires1, rules, waiting);
      if second.Ok? {
        var wires2 := second.value;
        var v := Gate(rule.op, wires2[rule.a], wires2[rule.b]);
        assert Evaluate(w, wires, rules, pending) == Ok(wires2[w := v]);
        if w in wires {
          SettledAgain(wires, rules, w);
        } else {
          SettledWrite(wires2, rules, w, v);
        }
      }
    }
  }

  /** A gate already on settled wires holds its value, and its inputs need no evaluation. */
  lemma SettledAgain(wires: Wires, rules: Rules, w: string)
    requires Keyed(rules) && w in rules && w in wires && Settled(wires, rules)
    ensures rules[w].a in wires && rules[w].b in wires
    ensures wires[w := Gate(rules[w].op, wires[rules[w].a], wires[rules[w].b])] == wires
  {
  }

  /** Writing a new gate's value, with its inputs on wires, keeps the wires settled. */
  lemma SettledWrite(wires: Wires, rules: Rules, w: string, v: bool)
    requires Keyed(rules) && w in rules && w !in wires && Settled(wires, rules)
    requires rules[w].a in wires && rules[w].b in wires
    requires v == Gate(rules[w].op, wires[rules[w].a], wires[rules[w].b])
    ensures Settled(wires[w := v], rules)
  {
    var after := wires[w := v];
    forall g | g in after && g in rules
      ensures rules[g].a in after && rules[g].b in after
      ensures after[g] == Gate(rules[g].op, after[rules[g].a], after[rules[g].b])
    {
      if g != w {
        assert rules[g].a != w && rules[g].b != w;
      }
    }
  }

  /** Evaluating a missing input keeps settled wires settled. */
  lemma {:induction false} InputSettled(x: string, wires: Wires, rules: Rules, waiting: set<string>)
    requires Keyed(rules) && Settled(wires, rules)
    ensures Input(x, wires, rules, waiting).Ok? ==> Settled(Input(x, wires, rules, waiting).value, rules)
    decreases rules.Keys - waiting, 1
  {
    if x !in wires && x in rules && x !in waiting {
      EvaluateSettled(x, wires, rules, waiting);
    }
  }

  // ---------------------------------------------------------------------------------------------
  // part_1

  /** `for rule in rules.values(): apply_rule(rule, wires, rules)`, in the dictionary's key order. */
  function Run(order: seq<string>, wires: Wires, rules: Rules): Result<Wires, Failure>
    requires Keyed(rules) && forall i :: 0 <= i < |order| ==> order[i] in rules
  {
    if order == [] then Ok(wires)
    else
      match Evaluate(order[0], wires, rules, {})
      case Err(e) => Err(e)
      case Ok(wires1) => Run(order[1..], wires1, rules)
  }

  /** A run that ends without an error leaves settled wires settled. */
  lemma {:induction false} RunSettles(order: seq<string>, wires: Wires, rules: Rules)
    requires Keyed(rules) && forall i :: 0 <= i < |order| ==> order[i] in rules
    requires Settled(wires, rules)
    ensures Run(order, wires, rules).Ok? ==> Settled(Run(order, wires, rules).value, rules)
  {
    if order != [] {
      EvaluateSettled(order[0], wires, rules, {});
      var first := Evaluate(order[0], wires, rules, {});
      if first.Ok? {
        RunSettles(order[1..], first.value, rules);
      }
    }
  }

  /** A run that ends without an error has put every gate it evaluated on a wire. */
  lemma {:induction false} RunCovers(order: seq<string>, wires: Wires, rules: Rules)
    requires Keyed(rules) && forall i :: 0 <= i < |order| ==> order[i] in rules
    ensures Run(order, wires, rules).Ok? ==> forall i :: 0 <= i < |order| ==> order[i] in Run(order, wires, rules).value
  {
    if order != [] {
      var first := Evaluate(order[0], wires, rules, {});
      if first.Ok? {
        RunCovers(order[1..], first.value, rules);
        RunKeeps(order[1..], first.value, rules);
        assert forall i :: 1 <= i < |order| ==> order[i] == order[1..][i - 1];
      }
    }
  }

  /** A run only adds wires. */
  lemma {:induction false} RunKeeps(order: seq<string>, wires: Wires, rules: Rules)
    requires Keyed(rules) && forall i :: 0 <= i < |order| ==> order[i] in rules
    ensures Run(order, wires, rules).Ok? ==> wires.Keys <= Run(order, wires, rules).value.Keys
  {
    if order != [] && Evaluate(order[0], wires, rules, {}).Ok? {
      RunKeeps(order[1..], Evaluate(order[0], wires, rules, {}).value, rules);
    }
  }

  /** Starting wires that no gate drives are settled. */
  lemma Undriven(wires: Wires, rules: Rules)
    requires forall w :: w in wires ==> w !in rules
    ensures Settled(wires, rules)
  {
  }

  /** The loop of `part_1` over the rules. */
  method Evaluated(order: seq<string>, wires: Wires, rules: Rules) returns (r: Result<Wires, Failure>)
    requires Keyed(rules) && forall i :: 0 <= i < |order| ==> order[i] in rules
    ensures r == Run(order, wires, rules)
  {
    var current := wires;
    for k := 0 to |order|
      invariant Run(order, wires, rules) == Run(order[k..], current, rules)
    {
      assert order[k..][1..] == order[k + 1..];
      var next := Apply(order[k], current, rules, {});
      if next.Err? {
        return Err(next.error);
      }
      current := next.value;
    }
    return Ok(current);
  }

  /**
   * When no gate drives a wire that has a starting value, a run over every gate that ends without an
   * error leaves each gate's output on a wire, holding the gate applied to its inputs' values.
   */
  lemma CircuitSettles(order: seq<string>, wires: Wires, rules: Rules)
    requires Keyed(rules) && Ordered(rules, order)
    requires forall w :: w in wires ==> w !in rules
    ensures Run(order, wires, rules).Ok? ==> forall g :: g in rules ==>
      var r := Run(order, wires, rules).value;
      g in r && rules[g].a in r && rules[g].b in r && r[g] == Gate(rules[g].op, r[rules[g].a], r[rules[g].b])
  {
    Undriven(wires, rules);
    RunSettles(order, wires, rules);
    RunCovers(order, wires, rules);
    if Run(order, wires, rules).Ok? {
      forall g | g in rules
        ensures g in Run(order, wires, rules).value
      {
        var i :| 0 <= i < |order| && order[i] == g;
      }
    }
  }

  /** Python's `<` on strings: code point by code point, a proper prefix first. */
  predicate Below(x: string, y: string)
    decreases |x|
  {
    y != [] && (x == [] || x[0] < y[0] || (x[0] == y[0] && Below(x[1..], y[1..])))
  }

  /** No name is below itself. */
  lemma {:induction false} BelowIrreflexive(x: string)
    ensures !Below(x, x)
  {
    if x != [] {
      BelowIrreflexive(x[1..]);
    }
  }

  /** Below is transitive. */
  lemma {:induction false} BelowTransitive(x: string, y: string, z: string)
    requires Below(x, y) && Below(y, z)
    ensures Below(x, z)
    decreases |x|
  {
    if x != [] && x[0] == y[0] && y[0] == z[0] {
      BelowTransitive(x[1..], y[1..], z[1..]);
    }
  }

  /** Any two different names are ordered one way or the other. */
  lemma {:induction false} BelowTotal(x: string, y: string)
    requires x != y
    ensures Below(x, y) || Below(y, x)
    decreases |x|
  {
    if x != [] && y != [] && x[0] == y[0] {
      assert x == [x[0]] + x[1..] && y == [y[0]] + y[1..];
      BelowTotal(x[1..], y[1..]);
    }
  }

  /** m comes before every other name of s. */
  predicate Least(m: string, s: set<string>) {
    m in s && forall x :: x in s && x != m ==> Below(m, x)
  }

  /** Every non-empty set of names has a least one, and only one. */
  lemma {:induction false} LeastExists(s: set<string>)
    requires s != {}
    ensures exists m :: Least(m, s)
    ensures forall m, n :: Least(m, s) && Least(n, s) ==> m == n
    decreases s
  {
    var x :| x in s;
    if s != {x} {
      LeastExists(s - {x});
      var m :| Least(m, s - {x});
      if Below(m, x) {
        assert Least(m, s);
      } else {
        BelowTotal(m, x);
        forall y | y in s && y != x
          ensures Below(x, y)
        {
          if y != m {
            BelowTransitive(x, m, y);
          }
        }
        assert Least(x, s);
      }
    } else {
      assert Least(x, s);
    }
    forall m, n | Least(m, s) && Least(n, s)
      ensures m == n
    {
      if m != n {
        BelowTransitive(m, n, m);
        BelowIrreflexive(m);
      }
    }
  }

  /** `sorted(...)` on a set of names. */
  function SortedNames(s: set<string>): seq<string>
    decreases s
  {
    if s == {} then []
    else
      LeastExists(s);
      var m :| Least(m, s);
      [m] + SortedNames(s - {m})
  }

  /** Each name is below every name after it. */
  ghost predicate Increasing(zs: seq<string>) {
    forall i, j :: 0 <= i < j < |zs| ==> Below(zs[i], zs[j])
  }

  /** `sorted` lists the names of the set once each, in increasing order. */
  lemma {:induction false} SortedNamesIncreasing(s: set<string>)
    ensures Increasing(SortedNames(s)) && forall x :: x in SortedNames(s) <==> x in s
    decreases s
  {
    if s != {} {
      LeastExists(s);
      var m :| Least(m, s);
      var rest := SortedNames(s - {m});
      assert SortedNames(s) == [m] + rest;
      SortedNamesIncreasing(s - {m});
      forall x
        ensures x in [m] + rest <==> x in s
      {
        if x in [m] + rest && x != m {
          var k :| 0 <= k < |[m] + rest| && ([m] + rest)[k] == x;
          assert rest[k - 1] == x;
        }
      }
      forall i, j | 0 <= i < j < |[m] + rest|
        ensures Below(([m] + rest)[i], ([m] + rest)[j])
      {
        if i == 0 {
          assert rest[j - 1] in s - {m};
        } else {
          assert ([m] + rest)[i] == rest[i - 1] && ([m] + rest)[j] == rest[j - 1];
        }
      }
    }
  }

  /** An increasing list of exactly the names of s is the sorted one. */
  lemma {:induction false} SortedNamesUnique(s: set<string>, zs: seq<string>)
    requires Increasing(zs) && forall x :: x in zs <==> x in s
    ensures zs == SortedNames(s)
    decreases s
  {
    HeadIn(zs);
    if s != {} {
      LeastExists(s);
      var m :| Least(m, s);
      assert SortedNames(s) == [m] + SortedNames(s - {m});
      assert Least(zs[0], s) by {
        forall x | x in s && x != zs[0]
          ensures Below(zs[0], x)
        {
          var j :| 0 <= j < |zs| && zs[j] == x;
        }
      }
      assert zs[0] == m;
      assert Increasing(zs[1..]) by {
        forall i, j | 0 <= i < j < |zs[1..]|
          ensures Below(zs[1..][i], zs[1..][j])
        {
          assert zs[1..][i] == zs[i + 1] && zs[1..][j] == zs[j + 1];
        }
      }
      forall x
        ensures x in zs[1..] <==> x in s - {m}
      {
        if x in zs[1..] {
          var j :| 1 <= j < |zs| && zs[j] == x;
          if x == zs[0] {
            BelowIrreflexive(x);
          }
        }
        if x in s - {m} {
          var j :| 0 <= j < |zs| && zs[j] == x;
        }
      }
      SortedNamesUnique(s - {m}, zs[1..]);
      assert zs == [zs[0]] + zs[1..];
    }
  }

  /** A non-empty list holds its first element. */
  lemma HeadIn(zs: seq<string>)
    ensures zs == [] || zs[0] in zs
  {
  }

  /** `[w for w in wires.keys() if w.startswith("z")]`. */
  function ZWires(wires: Wires): (r: set<string>)
    ensures forall w :: w in r ==> w in wires
  {
    set w | w in wires && |w| > 0 && w[0] == 'z'
  }

  /** The values of the wires, in the order given. */
  function Bits(wires: Wires, zs: seq<string>): (r: seq<bool>)
    requires forall i :: 0 <= i < |zs| ==> zs[i] in wires
    ensures |r| == |zs|
  {
    seq(|zs|, i requires 0 <= i < |zs| => wires[zs[i]])
  }

  /** `int(s, 2)` for the digits of the bits written last to first: the first bit is the lowest. */
  function Number(bits: seq<bool>): nat {
    if bits == [] then 0 else Indicator(bits[0]) + 2 * Number(bits[1..])
  }

  /**
   * The end of `part_1`: the z-wires in sorted order, the first the least significant bit. With no
   * z-wire the joined text is empty and `int("", 2)` is a ValueError.
   */
  function Reading(wires: Wires): Result<nat, Failure> {
    var zs := SortedNames(ZWires(wires));
    SortedNamesIncreasing(ZWires(wires));
    if zs == [] then Err(ValueError) else Ok(Number(Bits(wires, zs)))
  }

  /** Reading fails exactly when no wire starts with 'z'; otherwise the lowest bit is the first z-wire by name. */
  lemma LowestBit(wires: Wires)
    ensures Reading(wires).Err? <==> ZWires(wires) == {}
    ensures forall m :: Least(m, ZWires(wires)) ==>
      Reading(wires) == Ok(Reading(wires).value) && Reading(wires).value % 2 == Indicator(wires[m])
  {
    SortedNamesIncreasing(ZWires(wires));
    var zs := SortedNames(ZWires(wires));
    if zs == [] {
      assert forall x :: x !in ZWires(wires);
    }
    forall m | Least(m, ZWires(wires))
      ensures Reading(wires) == Ok(Reading(wires).value) && Reading(wires).value % 2 == Indicator(wires[m])
    {
      HeadIn(zs);
      assert zs[0] == m by {
        if zs[0] != m {
          BelowIrreflexive(m);
          var j :| 0 <= j < |zs| && zs[j] == m;
          BelowTransitive(m, zs[0], m);
        }
      }
    }
  }

  /** `part_1` on its text, as functions. */
  function Answer(puzzle: string): Result<nat, Failure> {
    match ParseInput(puzzle)
    case Err(e) => Err(e)
    case Ok(parsed) =>
      match Run(parsed.2, parsed.0, parsed.1)
      case Err(e) => Err(e)
      case Ok(wires) => Reading(wires)
  }

  /** `part_1`. */
  method Part1(puzzle: string) returns (r: Result<nat, Failure>)
    ensures r == Answer(puzzle)
  {
    var parsed := Parse(puzzle);
    if parsed.Err? {
      return Err(parsed.error);
    }
    var (wires, rules, order) := parsed.value;
    var run := Evaluated(order, wires, rules);
    if run.Err? {
      return Err(run.error);
    }
    r := Reading(run.value);
  }
}
