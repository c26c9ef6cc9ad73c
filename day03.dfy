/**
 * Corrupted memory (src/day_03.py): scan the text left to right for `mul(a,b)` instructions,
 * where a and b are runs of decimal digits; part 2 also obeys `do()` and `don't()`.
 */
module Day03 {
  import opened Common

  /** End of the run of digits that starts at index i (i itself when s[i] is not a digit). */
  function DigitRun(s: string, i: nat): (k: nat)
    requires i <= |s|
    ensures i <= k <= |s| && (k < |s| ==> !IsDigit(s[k]))
    ensures forall j :: i <= j < k ==> IsDigit(s[j])
    decreases |s| - i
  {
    if i == |s| || !IsDigit(s[i]) then i else DigitRun(s, i + 1)
  }

  lemma {:induction false} DigitRunIs(s: string, i: nat, k: nat)
    requires i <= k < |s| && !IsDigit(s[k])
    requires forall j :: i <= j < k ==> IsDigit(s[j])
    ensures DigitRun(s, i) == k
    decreases k - i
  {
    if i < k {
      DigitRunIs(s, i + 1, k);
    }
  }

  /** `w` occurs in `s` at index i. */
  predicate StartsWith(s: string, i: nat, w: string)
    decreases w
  {
    if w == [] then i <= |s| else i < |s| && s[i] == w[0] && StartsWith(s, i + 1, w[1..])
  }

  lemma {:induction false} StartsWithIsSlice(s: string, i: nat, w: string)
    ensures StartsWith(s, i, w) <==> i + |w| <= |s| && s[i..i + |w|] == w
    decreases w
  {
    if w != [] {
      StartsWithIsSlice(s, i + 1, w[1..]);
      if i + |w| <= |s| {
        var t := s[i..i + |w|];
        assert t[0] == s[i] && t[1..] == s[i + 1..i + 1 + |w[1..]|];
        if t == w {
          assert t[1..] == w[1..];
        }
        if s[i] == w[0] && s[i + 1..i + 1 + |w[1..]|] == w[1..] {
          assert t == [t[0]] + t[1..] == [w[0]] + w[1..] == w;
        }
      }
    }
  }

  /** A matched instruction: its two operands and the index just past its `)`. */
  datatype Mul = Mul(a: nat, b: nat, end: nat)

  /** The value the instruction contributes. */
  function Product(m: Mul): nat {
    m.a * m.b
  }

  /** The pattern `mul\((\d+),(\d+)\)` tried at index i, digits being ASCII. */
  function MulAt(s: string, i: nat): (m: Option<Mul>)
    requires i <= |s|
    ensures m.Some? ==> i + 8 <= m.value.end <= |s| && s[i] == 'm'
  {
    if !StartsWith(s, i, "mul(") then None
    else
      var j := DigitRun(s, i + 4);
      if j == i + 4 || j == |s| || s[j] != ',' then None
      else
        var k := DigitRun(s, j + 1);
        if k == j + 1 || k == |s| || s[k] != ')' then None
        else
          assert AllDigits(s[i + 4..j]) && AllDigits(s[j + 1..k]);
          Some(Mul(DigitsValue(s[i + 4..j]), DigitsValue(s[j + 1..k]), k + 1))
  }

  /** The reference shape of an instruction: "mul(" x "," y ")" with non-empty digit strings. */
  predicate MulToken(t: string, x: string, y: string) {
    x != [] && y != [] && AllDigits(x) && AllDigits(y) && t == "mul(" + x + "," + y + ")"
  }

  /** What MulAt matches is an instruction, and its operands are the values of the digits. */
  lemma MulAtSound(s: string, i: nat)
    requires i <= |s| && MulAt(s, i).Some?
    ensures var m := MulAt(s, i).value;
      exists x, y :: MulToken(s[i..m.end], x, y) && DigitsValue(x) == m.a && DigitsValue(y) == m.b
  {
    var m := MulAt(s, i).value;
    var j := MulAtShape(s, i);
    TokenFromParts(s, i, j, m.end);
    assert MulToken(s[i..m.end], s[i + 4..j], s[j + 1..m.end - 1]);
  }

  /** Where the comma of a match sits, and what the digit runs around it are. */
  lemma MulAtShape(s: string, i: nat) returns (j: nat)
    requires i <= |s| && MulAt(s, i).Some?
    ensures var m := MulAt(s, i).value;
      i + 4 < j && j + 1 < m.end - 1 && m.end <= |s| && s[i..i + 4] == "mul(" && s[j] == ',' && s[m.end - 1] == ')'
      && AllDigits(s[i + 4..j]) && AllDigits(s[j + 1..m.end - 1])
      && m.a == DigitsValue(s[i + 4..j]) && m.b == DigitsValue(s[j + 1..m.end - 1])
  {
    j := DigitRun(s, i + 4);
    StartsWithIsSlice(s, i, "mul(");
  }

  /** A slice cut at the comma and the closing parenthesis is a token of its two digit runs. */
  lemma TokenFromParts(s: string, i: nat, j: nat, e: nat)
    requires i + 4 < j && j + 1 < e - 1 && e <= |s| && s[i..i + 4] == "mul(" && s[j] == ',' && s[e - 1] == ')'
    requires AllDigits(s[i + 4..j]) && AllDigits(s[j + 1..e - 1])
    ensures MulToken(s[i..e], s[i + 4..j], s[j + 1..e - 1])
  {
    assert [s[j]] == "," && [s[e - 1]] == ")";
    assert s[i..e] == s[i..i + 4] + s[i + 4..j] + [s[j]] + s[j + 1..e - 1] + [s[e - 1]];
  }

  /** Every instruction that starts at i is the one MulAt finds there. */
  lemma MulAtComplete(s: string, i: nat, e: nat, x: string, y: string)
    requires i <= e <= |s| && MulToken(s[i..e], x, y)
    ensures MulAt(s, i) == Some(Mul(DigitsValue(x), DigitsValue(y), e))
  {
    var j := i + 4 + |x|;
    var k := j + 1 + |y|;
    TokenParts(s, i, e, x, y);
    StartsWithIsSlice(s, i, "mul(");
    assert forall p :: i + 4 <= p < j ==> IsDigit(s[p]) by {
      forall p | i + 4 <= p < j ensures IsDigit(s[p]) {
        assert s[p] == s[i + 4..j][p - i - 4];
      }
    }
    assert forall p :: j + 1 <= p < k ==> IsDigit(s[p]) by {
      forall p | j + 1 <= p < k ensures IsDigit(s[p]) {
        assert s[p] == s[j + 1..k][p - j - 1];
      }
    }
    DigitRunIs(s, i + 4, j);
    DigitRunIs(s, j + 1, k);
    MulAtMatches(s, i, j, k);
  }

  /** The pieces of an instruction, located in the text. */
  lemma TokenParts(s: string, i: nat, e: nat, x: string, y: string)
    requires i <= e <= |s| && MulToken(s[i..e], x, y)
    ensures e == i + 4 + |x| + 1 + |y| + 1
    ensures s[i..i + 4] == "mul(" && s[i + 4..i + 4 + |x|] == x && s[i + 4 + |x|] == ','
    ensures s[i + 5 + |x|..e - 1] == y && s[e - 1] == ')'
  {
    var j := i + 4 + |x|;
    assert s[i..e] == "mul(" + (x + ("," + (y + ")")));
    SliceConcat(s, i, e, "mul(", x + ("," + (y + ")")));
    SliceConcat(s, i + 4, e, x, "," + (y + ")"));
    SliceConcat(s, j, e, ",", y + ")");
    SliceConcat(s, j + 1, e, y, ")");
    assert s[j] == s[j..j + 1][0];
    assert s[e - 1] == s[e - 1..e][0];
  }

  /** A slice that is a concatenation splits into slices that are its two parts. */
  lemma SliceConcat(s: string, i: nat, e: nat, a: string, b: string)
    requires i <= e <= |s| && s[i..e] == a + b
    ensures i + |a| <= e && s[i..i + |a|] == a && s[i + |a|..e] == b
  {
    assert s[i..i + |a|] == s[i..e][..|a|];
    assert s[i + |a|..e] == s[i..e][|a|..];
  }

  /** MulAt's three checks passing: it returns the two digit runs and the index past `)`. */
  lemma MulAtMatches(s: string, i: nat, j: nat, k: nat)
    requires i + 4 < j && j + 1 < k < |s| && StartsWith(s, i, "mul(")
    requires DigitRun(s, i + 4) == j && s[j] == ',' && DigitRun(s, j + 1) == k && s[k] == ')'
    ensures MulAt(s, i) == Some(Mul(DigitsValue(s[i + 4..j]), DigitsValue(s[j + 1..k]), k + 1))
  {
  }

  /** `re.findall` from index i: the sum of a*b over the instructions, each ending where the next search starts. */
  function MulSum(s: string, i: nat): nat
    requires i <= |s|
    decreases |s| - i
  {
    if i == |s| then 0
    else
      match MulAt(s, i)
      case Some(m) => Product(m) + MulSum(s, m.end)
      case None => MulSum(s, i + 1)
  }

  /** part_1. */
  function Part1(s: string): nat {
    MulSum(s, 0)
  }

  /**
   * What part_2's loop adds from index i on, given the current enable flag: muls count only while
   * enabled, `do()` enables and `don't()` disables, wherever they occur.
   */
  function EnabledSum(s: string, i: nat, working: bool): nat
    requires i <= |s|
    decreases |s| - i
  {
    if i == |s| then 0
    else
      match MulAt(s, i)
      case Some(m) => (if working then Product(m) else 0) + EnabledSum(s, m.end, working)
      case None =>
        if StartsWith(s, i, "do()") then EnabledSum(s, i + 4, true)
        else if StartsWith(s, i, "don't()") then EnabledSum(s, i + 7, false)
        else EnabledSum(s, i + 1, working)
  }

  /** part_2: one pass over the matches, toggling `working` and adding enabled products. */
  method Part2(s: string) returns (total: nat)
    ensures total == EnabledSum(s, 0, true)
  {
    var working := true;
    total := 0;
    var i := 0;
    ghost var goal := EnabledSum(s, 0, true);
    while i < |s|
      invariant 0 <= i <= |s|
      invariant total + EnabledSum(s, i, working) == goal
      decreases |s| - i
    {
      match MulAt(s, i)
      case Some(m) =>
        total := total + (if working then Product(m) else 0);
        i := m.end;
      case None =>
        if StartsWith(s, i, "do()") {
          working := true;
          i := i + 4;
        } else if StartsWith(s, i, "don't()") {
          working := false;
          i := i + 7;
        } else {
          i := i + 1;
        }
    }
  }

  /** A stretch without an `m` holds no instruction, so the plain scan skips it unchanged. */
  lemma {:induction false} SkipWithoutM(s: string, i: nat, j: nat)
    requires i <= j <= |s|
    requires forall p :: i <= p < j ==> s[p] != 'm'
    ensures MulSum(s, i) == MulSum(s, j)
    decreases j - i
  {
    if i < j {
      SkipWithoutM(s, i + 1, j);
    }
  }

  /** A word without an `m` at i is skipped over by the plain scan. */
  lemma SkipWord(s: string, i: nat, w: string)
    requires StartsWith(s, i, w) && 'm' !in w
    ensures i + |w| <= |s| && MulSum(s, i) == MulSum(s, i + |w|)
  {
    StartsWithIsSlice(s, i, w);
    forall p | i <= p < i + |w|
      ensures s[p] != 'm'
    {
      assert s[p] == s[i..i + |w|][p - i] == w[p - i];
    }
    SkipWithoutM(s, i, i + |w|);
  }

  lemma SkipDo(s: string, i: nat)
    requires StartsWith(s, i, "do()")
    ensures i + 4 <= |s| && MulSum(s, i) == MulSum(s, i + 4)
  {
    SkipWord(s, i, "do()");
  }

  lemma SkipDont(s: string, i: nat)
    requires StartsWith(s, i, "don't()")
    ensures i + 7 <= |s| && MulSum(s, i) == MulSum(s, i + 7)
  {
    SkipWord(s, i, "don't()");
  }

  /** part_2 adds a subset of part_1's non-negative products, so it never exceeds part_1. */
  lemma {:induction false} EnabledAtMostAll(s: string, i: nat, working: bool)
    requires i <= |s|
    ensures EnabledSum(s, i, working) <= MulSum(s, i)
    decreases |s| - i
  {
    if i < |s| {
      match MulAt(s, i)
      case Some(m) =>
        EnabledAtMostAll(s, m.end, working);
      case None =>
        assert MulSum(s, i) == MulSum(s, i + 1);
        if StartsWith(s, i, "do()") {
          SkipDo(s, i);
          EnabledAtMostAll(s, i + 4, true);
          assert EnabledSum(s, i, working) == EnabledSum(s, i + 4, true);
        } else if StartsWith(s, i, "don't()") {
          SkipDont(s, i);
          EnabledAtMostAll(s, i + 7, false);
          assert EnabledSum(s, i, working) == EnabledSum(s, i + 7, false);
        } else {
          EnabledAtMostAll(s, i + 1, working);
          assert EnabledSum(s, i, working) == EnabledSum(s, i + 1, working);
        }
    }
  }

  lemma Part2AtMostPart1(s: string)
    ensures EnabledSum(s, 0, true) <= Part1(s)
  {
    EnabledAtMostAll(s, 0, true);
  }

  /** Without any `don't()` ahead, the enabled scan adds exactly what part_1 adds. */
  lemma {:induction false} NoDontCountsAll(s: string, i: nat)
    requires i <= |s|
    requires forall p :: i <= p <= |s| ==> !StartsWith(s, p, "don't()")
    ensures EnabledSum(s, i, true) == MulSum(s, i)
    decreases |s| - i
  {
    if i < |s| {
      match MulAt(s, i)
      case Some(m) =>
        NoDontCountsAll(s, m.end);
      case None =>
        var next := EnabledNoMul(s, i);
        NoDontCountsAll(s, next);
    }
  }

  /** One non-product step of the enabled scan when no `don't()` starts here. */
  lemma EnabledNoMul(s: string, i: nat) returns (next: nat)
    requires i < |s| && MulAt(s, i).None? && !StartsWith(s, i, "don't()")
    ensures i < next <= |s|
    ensures EnabledSum(s, i, true) == EnabledSum(s, next, true)
    ensures MulSum(s, i) == MulSum(s, next)
  {
    assert MulSum(s, i) == MulSum(s, i + 1);
    if StartsWith(s, i, "do()") {
      SkipDo(s, i);
      next := i + 4;
    } else {
      next := i + 1;
    }
  }

  /** Once disabled, nothing counts until a `do()`: with none ahead the rest adds 0. */
  lemma {:induction false} DisabledCountsNothing(s: string, i: nat)
    requires i <= |s|
    requires forall p :: i <= p <= |s| ==> !StartsWith(s, p, "do()")
    ensures EnabledSum(s, i, false) == 0
    decreases |s| - i
  {
    if i < |s| {
      match MulAt(s, i)
      case Some(m) =>
        DisabledCountsNothing(s, m.end);
      case None =>
        if StartsWith(s, i, "don't()") {
          DisabledCountsNothing(s, i + 7);
        } else {
          DisabledCountsNothing(s, i + 1);
        }
    }
  }

  /** Square brackets or a mismatched bracket are not instructions. */
  lemma MalformedMuls()
    ensures MulAt("mul[3,7]", 0) == None
    ensures MulAt("mul(32,64]", 0) == None
  {
  }

  /** `do()` is recognised wherever it occurs, inside a longer word such as `undo()` too. */
  lemma DoAnywhere(s: string, i: nat, working: bool)
    requires i < |s| && StartsWith(s, i, "do()")
    ensures EnabledSum(s, i, working) == EnabledSum(s, i + 4, true)
  {
    StartsWithIsSlice(s, i, "do()");
  }

  /** `don't()` is recognised wherever it occurs and disables what follows. */
  lemma DontAnywhere(s: string, i: nat, working: bool)
    requires i < |s| && StartsWith(s, i, "don't()")
    ensures EnabledSum(s, i, working) == EnabledSum(s, i + 7, false)
  {
    StartsWithIsSlice(s, i, "don't()");
    StartsWithIsSlice(s, i, "do()");
  }
}
