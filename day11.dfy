/**
 * Plutonian pebbles (src/day_11.py): on every blink each stone changes by the first rule that
 * applies: 0 becomes 1; a stone whose `str` has an even length is cut into the two halves of that
 * text; any other stone is multiplied by 2024. Stones are Python integers of either sign: the
 * left half of a negative stone keeps the minus sign, and `int("-")` raises ValueError.
 */
module Day11 {
  import opened Common

  datatype Failure = ValueError

  /** The stones of one line, held in a double-ended queue the blink rotates. */
  class Line {
    var stones: seq<int>

    constructor (initial: seq<int>)
      ensures stones == initial
    {
      stones := initial;
    }

    /** `stones[0] = value` */
    method SetFirst(value: int)
      requires stones != []
      modifies this
      ensures stones == [value] + old(stones)[1..]
    {
      stones := stones[0 := value];
    }

    /** `stones.rotate(-1)`: the first stone moves to the back. */
    method RotateLeft()
      modifies this
      ensures old(stones) == [] ==> stones == []
      ensures old(stones) != [] ==> stones == old(stones)[1..] + [old(stones)[0]]
    {
      if stones != [] {
        stones := stones[1..] + [stones[0]];
      }
    }

    /** `stones.insert(0, value)` */
    method InsertFirst(value: int)
      modifies this
      ensures stones == [value] + old(stones)
    {
      stones := [value] + stones;
    }
  }

  /** The number of decimal digits of n. */
  function DigitCount(n: nat): (r: nat)
    ensures r >= 1
  {
    if n < 10 then 1 else 1 + DigitCount(n / 10)
  }

  /** The length of `str(n)`: the digits, and a minus sign for a negative n. */
  function Width(n: int): (r: nat)
    ensures r >= 1
  {
    if n < 0 then 1 + DigitCount(-n) else DigitCount(n)
  }

  /** n with its last k digits dropped. */
  function High(n: nat, k: nat): nat {
    if k == 0 then n else High(n / 10, k - 1)
  }

  /** The number the last k digits of n spell. */
  function Low(n: nat, k: nat): nat {
    if k == 0 then 0 else 10 * Low(n / 10, k - 1) + n % 10
  }

  /** DigitCount is the length of `str(n)` for a natural. */
  lemma {:induction false} DigitCountIsLength(n: nat)
    ensures DigitCount(n) == |Decimal(n)|
  {
    if n >= 10 {
      DigitCountIsLength(n / 10);
    }
  }

  /** Width is the length of `str(n)`. */
  lemma WidthIsLength(n: int)
    ensures Width(n) == |Str(n)|
  {
    DigitCountIsLength(if n < 0 then -n else n);
  }

  /** Writing n as q·10^k + r with r < 10^k: q is n without its last k digits, and r is them. */
  lemma {:induction false} PlaceValue(n: nat, k: nat, q: nat, r: nat)
    requires r < Pow10(k) && n == q * Pow10(k) + r
    ensures High(n, k) == q && Low(n, k) == r
  {
    if k > 0 {
      var p := Pow10(k - 1);
      ShiftTen(q, p);
      assert n == 10 * (q * p) + r;
      assert n / 10 == q * p + r / 10 && n % 10 == r % 10;
      PlaceValue(n / 10, k - 1, q, r / 10);
    }
  }

  /**
   * What one stone becomes on a blink, left to right. A stone of even width is cut where
   * `chars[:middle]` and `chars[middle:]` meet: the right half is its last `k` digits and the left
   * half the digits before them, with the sign; a left half that is only "-" is a ValueError.
   */
  function Change(n: int): Result<seq<int>, Failure> {
    if n == 0 then Ok([1])
    else if Width(n) % 2 == 0 then
      var m := if n < 0 then -n else n;
      var k := Width(n) - Width(n) / 2;
      var high: int := High(m, k);
      if k == DigitCount(m) then Err(ValueError)
      else Ok([if n < 0 then -high else high, Low(m, k)])
    else Ok([n * 2024])
  }

  /** The digits of m, cut before its last k: High and Low are what the two pieces spell. */
  lemma CutDigits(m: nat, k: nat) returns (l: string, r: string)
    requires k <= DigitCount(m)
    ensures AllDigits(l) && AllDigits(r) && Decimal(m) == l + r && |r| == k
    ensures High(m, k) == DigitsValue(l) && Low(m, k) == DigitsValue(r)
  {
    DigitCountIsLength(m);
    var d := Decimal(m);
    l, r := d[..|d| - k], d[|d| - k..];
    assert d == l + r;
    DigitsValueAppend(l, r);
    DigitsValueBound(r);
    PlaceValue(m, k, DigitsValue(l), DigitsValue(r));
  }

  /**
   * The new stones are `int(chars[:middle])` and `int(chars[middle:])` of `chars = str(n)`, and
   * the blink raises exactly when the first of these does.
   */
  lemma HalvesAreSlices(n: int)
    requires n != 0 && Width(n) % 2 == 0
    ensures var chars := Str(n); var middle := |chars| / 2;
      IntOf(chars[middle..]).Some? &&
      (IntOf(chars[..middle]).None? ==> Change(n) == Err(ValueError)) &&
      (IntOf(chars[..middle]).Some? ==> Change(n) == Ok([IntOf(chars[..middle]).value, IntOf(chars[middle..]).value]))
  {
    if n > 0 {
      PositiveSlices(n);
    } else {
      NegativeSlices(n);
    }
  }

  lemma PositiveSlices(n: int)
    requires n > 0 && Width(n) % 2 == 0
    ensures var chars := Str(n); var middle := |chars| / 2;
      IntOf(chars[middle..]).Some? && IntOf(chars[..middle]).Some? &&
      Change(n) == Ok([IntOf(chars[..middle]).value, IntOf(chars[middle..]).value])
  {
    var m, k, high, low := ChangeCut(n);
    DigitCountIsLength(n);
    var l, r := CutDigits(n, k);
    var chars := Str(n);
    assert chars == l + r && |chars| / 2 == |l|;
    assert chars[..|l|] == l && chars[|l|..] == r;
    IntOfDigits(l);
    IntOfDigits(r);
  }

  lemma NegativeSlices(n: int)
    requires n < 0 && Width(n) % 2 == 0
    ensures var chars := Str(n); var middle := |chars| / 2;
      IntOf(chars[middle..]).Some? &&
      (IntOf(chars[..middle]).None? ==> Change(n) == Err(ValueError)) &&
      (IntOf(chars[..middle]).Some? ==> Change(n) == Ok([IntOf(chars[..middle]).value, IntOf(chars[middle..]).value]))
  {
    var d, c := NegativeDigits(n);
    SignedSlices(d, c);
    var chars := Str(n);
    assert chars[..c + 1] == ("-" + d)[..c + 1] && chars[c + 1..] == ("-" + d)[c + 1..];
  }

  /** A negative stone of even width: its digits d, and the number c of them left of the cut. */
  lemma NegativeDigits(n: int) returns (d: string, c: nat)
    requires n < 0 && Width(n) % 2 == 0
    ensures AllDigits(d) && c < |d| && Str(n) == "-" + d && |Str(n)| / 2 == c + 1
    ensures c == 0 ==> Change(n) == Err(ValueError)
    ensures c > 0 ==> Change(n) == Ok([-(DigitsValue(d[..c]) as int), DigitsValue(d[c..]) as int])
  {
    var m, k, high, low := ChangeCut(n);
    DigitCountIsLength(m);
    var l, r := CutDigits(m, k);
    d, c := l + r, |l|;
    assert d[..c] == l && d[c..] == r;
    assert Str(n) == "-" + d;
    if c > 0 {
      assert k < DigitCount(m);
      var hi: int := -(high as int);
      assert Change(n) == Ok([hi, low]);
    }
  }

  /** `int` of the two pieces of a minus sign and digits, cut after the sign and c digits. */
  lemma SignedSlices(d: string, c: nat)
    requires AllDigits(d) && c < |d|
    ensures var chars := "-" + d;
      IntOf(chars[c + 1..]) == Some(DigitsValue(d[c..]) as int) &&
      (c == 0 ==> IntOf(chars[..c + 1]) == None) &&
      (c > 0 ==> IntOf(chars[..c + 1]) == Some(-(DigitsValue(d[..c]) as int)))
  {
    var chars := "-" + d;
    assert chars[..c + 1] == "-" + d[..c] && chars[c + 1..] == d[c..];
    IntOfDigits(d[c..]);
    IntOfSigned(d[..c]);
  }

  /** The cut of a stone of even width, in terms of its digits. */
  lemma ChangeCut(n: int) returns (m: nat, k: nat, high: nat, low: nat)
    requires n != 0 && Width(n) % 2 == 0
    ensures m == (if n < 0 then -n else n) && k == Width(n) - Width(n) / 2 && k <= DigitCount(m)
    ensures high == High(m, k) && low == Low(m, k)
    ensures k == DigitCount(m) ==> Change(n) == Err(ValueError)
    ensures k < DigitCount(m) ==> Change(n) == Ok([if n < 0 then -(high as int) else high, low])
  {
    m := if n < 0 then -n else n;
    k := Width(n) - Width(n) / 2;
    high, low := High(m, k), Low(m, k);
  }

  /**
   * The halves of a stone of even width, other than -9 .. -1: written one after the other with the
   * stone's sign they give it back, and the right half is below 10^k for its k digits. The left
   * half of a positive stone has exactly as many digits and no leading zero; that of a negative
   * stone is negative.
   */
  lemma SplitHalves(n: int)
    requires n != 0 && Width(n) % 2 == 0 && !(-9 <= n <= -1)
    ensures Change(n).Ok? && |Change(n).value| == 2
    ensures var k := Width(n) - Width(n) / 2; var hi, lo := Change(n).value[0], Change(n).value[1];
      0 <= lo < Pow10(k) &&
      (n > 0 ==> n == hi * Pow10(k) + lo && Pow10(k - 1) <= hi < Pow10(k)) &&
      (n < 0 ==> n == hi * Pow10(k) - lo && hi <= -1)
  {
    var m, k, high, low := ChangeCut(n);
    CutBounds(m, k);
    if n > 0 {
      assert k == DigitCount(m) - k;
      assert Change(n) == Ok([high, low]);
    } else {
      assert Change(n) == Ok([-(high as int), low]);
      NegativeHalves(n, high, Pow10(k), low);
    }
  }

  /** A negative stone is its negated left half shifted back, minus its right half. */
  lemma NegativeHalves(n: int, high: nat, p: nat, low: nat)
    requires n < 0 && -n == high * p + low && 1 <= high
    ensures n == (-(high as int)) * p - low && -(high as int) <= -1
  {
    NegatedProduct(high, p);
  }

  lemma NegatedProduct(a: int, p: int)
    ensures (-a) * p == -(a * p)
  {
  }

  /**
   * Cutting the last k digits off m, with at least one digit left: the two pieces give m back, the
   * right piece is below 10^k and the left piece is at least 10^(c-1) and below 10^c for its c digits.
   */
  lemma CutBounds(m: nat, k: nat)
    requires m > 0 && k < DigitCount(m)
    ensures m == High(m, k) * Pow10(k) + Low(m, k) && Low(m, k) < Pow10(k)
    ensures var c := DigitCount(m) - k; Pow10(c - 1) <= High(m, k) < Pow10(c)
  {
    HighLow(m, k);
    var l := LeftDigits(m, k);
    DigitsValueBound(l);
    LeadingDigit(l);
  }

  /** The digits of m before its last k: a run without a leading zero that spells High(m, k). */
  lemma LeftDigits(m: nat, k: nat) returns (l: string)
    requires m > 0 && k < DigitCount(m)
    ensures AllDigits(l) && |l| == DigitCount(m) - k && l[0] != '0' && DigitsValue(l) == High(m, k)
  {
    var r;
    l, r := CutDigits(m, k);
    DigitCountIsLength(m);
    assert l[0] == Decimal(m)[0];
  }

  /** m is what is left of it after dropping its last k digits, shifted back, plus those digits. */
  lemma {:induction false} HighLow(m: nat, k: nat)
    ensures m == High(m, k) * Pow10(k) + Low(m, k) && Low(m, k) < Pow10(k)
  {
    if k > 0 {
      HighLow(m / 10, k - 1);
      var h, l, p := High(m, k), Low(m / 10, k - 1), Pow10(k - 1);
      assert m / 10 == h * p + l && l < p;
      ShiftTen(h, p);
      assert Low(m, k) == 10 * l + m % 10 && Pow10(k) == 10 * p;
    }
  }

  /** A blink raises on a stone exactly when it is one of -9 .. -1, whose left half is "-". */
  lemma ChangeFails(n: int)
    ensures Change(n).Err? <==> -9 <= n <= -1
  {
  }

  /** A string of digits without a leading zero is worth at least 10^(k-1). */
  lemma {:induction false} LeadingDigit(s: string)
    requires AllDigits(s) && |s| >= 1 && s[0] != '0'
    ensures DigitsValue(s) >= Pow10(|s| - 1)
  {
    if |s| > 1 {
      var init := s[..|s| - 1];
      LeadingDigit(init);
    }
  }

  /** One blink over the whole line: each stone replaced by what it becomes, in order, up to the first that raises. */
  function BlinkAll(s: seq<int>): Result<seq<int>, Failure> {
    if s == [] then Ok([])
    else
      match BlinkAll(s[..|s| - 1])
      case Err(e) => Err(e)
      case Ok(done) =>
        match Change(s[|s| - 1])
        case Err(e) => Err(e)
        case Ok(c) => Ok(done + c)
  }

  /** A blink raises exactly when some stone is one of -9 .. -1. */
  lemma {:induction false} BlinkFails(s: seq<int>)
    ensures BlinkAll(s).Err? <==> exists i :: 0 <= i < |s| && -9 <= s[i] <= -1
  {
    if s != [] {
      var init := s[..|s| - 1];
      BlinkFails(init);
      ChangeFails(s[|s| - 1]);
      if exists i :: 0 <= i < |s| && -9 <= s[i] <= -1 {
        var i :| 0 <= i < |s| && -9 <= s[i] <= -1;
        if i < |s| - 1 {
          assert init[i] == s[i];
        }
      }
      if exists i :: 0 <= i < |init| && -9 <= init[i] <= -1 {
        var i :| 0 <= i < |init| && -9 <= init[i] <= -1;
        assert s[i] == init[i];
      }
    }
  }

  /**
   * One pass of blink's loop: the front stone is changed and what it became goes to the back. When
   * `int` raises, it does so before the line is touched.
   */
  method ChangeFront(line: Line) returns (r: Result<(), Failure>)
    requires line.stones != []
    modifies line
    ensures Change(old(line.stones)[0]).Ok? ==>
      r == Ok(()) && line.stones == old(line.stones)[1..] + Change(old(line.stones)[0]).value
    ensures Change(old(line.stones)[0]).Err? ==>
      r == Err(Change(old(line.stones)[0]).error) && line.stones == old(line.stones)
  {
    ghost var tail := line.stones[1..];
    var first := line.stones[0];
    if first == 0 {
      line.SetFirst(1);
    } else if Width(first) % 2 == 0 {
      var m := if first < 0 then -first else first;
      var k := Width(first) - Width(first) / 2;
      if k == DigitCount(m) {
        return Err(ValueError);
      }
      var high: int := High(m, k);
      line.SetFirst(if first < 0 then -high else high);
      line.RotateLeft();
      assert line.stones == tail + [Change(first).value[0]];
      line.InsertFirst(Low(m, k));
    } else {
      line.SetFirst(first * 2024);
    }
    line.RotateLeft();
    return Ok(());
  }

  /**
   * blink: as many passes as there are stones, so every original stone is changed once, in order.
   * When a stone raises, the stones before it have been changed and moved behind the rest.
   */
  method Blink(line: Line) returns (r: Result<(), Failure>)
    modifies line
    ensures BlinkAll(old(line.stones)).Ok? ==> r == Ok(()) && line.stones == BlinkAll(old(line.stones)).value
    ensures BlinkAll(old(line.stones)).Err? ==> r == Err(BlinkAll(old(line.stones)).error)
    ensures BlinkAll(old(line.stones)).Err? ==>
      exists i :: (0 <= i < |old(line.stones)| &&
        BlinkAll(old(line.stones)[..i]).Ok? && Change(old(line.stones)[i]).Err? &&
        line.stones == old(line.stones)[i..] + BlinkAll(old(line.stones)[..i]).value)
  {
    ghost var s := line.stones;
    var count := |line.stones|;
    for i := 0 to count
      invariant BlinkAll(s[..i]).Ok? && line.stones == s[i..] + BlinkAll(s[..i]).value
    {
      BlinkStep(s, i, line.stones);
      ghost var before := line.stones;
      var step := ChangeFront(line);
      if step.Err? {
        BlinkErrPersists(s, i + 1);
        assert line.stones == s[i..] + BlinkAll(s[..i]).value;
        return Err(step.error);
      }
    }
    assert s[..|s|] == s;
    return Ok(());
  }

  /** The line after i passes: the unchanged stones, then what the changed ones became. */
  lemma BlinkStep(s: seq<int>, i: nat, stones: seq<int>)
    requires i < |s| && BlinkAll(s[..i]).Ok? && stones == s[i..] + BlinkAll(s[..i]).value
    ensures stones != [] && stones[0] == s[i] && stones[1..] == s[i + 1..] + BlinkAll(s[..i]).value
    ensures BlinkAll(s[..i + 1]) == if Change(s[i]).Err? then Err(Change(s[i]).error)
      else Ok(BlinkAll(s[..i]).value + Change(s[i]).value)
  {
    assert s[..i + 1][..i] == s[..i];
  }

  /** Once a prefix of the line raises, so does the whole line, with the same failure. */
  lemma {:induction false} BlinkErrPersists(s: seq<int>, k: nat)
    requires k <= |s| && BlinkAll(s[..k]).Err?
    ensures BlinkAll(s) == BlinkAll(s[..k])
    decreases |s|
  {
    if k < |s| {
      var init := s[..|s| - 1];
      assert init[..k] == s[..k];
      BlinkErrPersists(init, k);
    } else {
      assert s[..k] == s;
    }
  }

  /** A blink works stone by stone: the changes of two runs of stones sit side by side. */
  lemma {:induction false} BlinkConcat(a: seq<int>, b: seq<int>)
    ensures BlinkAll(a + b).Ok? <==> BlinkAll(a).Ok? && BlinkAll(b).Ok?
    ensures BlinkAll(a + b).Ok? ==> BlinkAll(a + b).value == BlinkAll(a).value + BlinkAll(b).value
    decreases |b|
  {
    if b == [] {
      assert a + b == a;
    } else {
      var n := |b| - 1;
      assert (a + b)[..|a + b| - 1] == a + b[..n];
      BlinkConcat(a, b[..n]);
    }
  }

  /** The stones that split: non-zero, of even width. */
  function EvenStones(s: seq<int>): nat {
    if s == [] then 0
    else EvenStones(s[..|s| - 1]) + Indicator(s[|s| - 1] != 0 && Width(s[|s| - 1]) % 2 == 0)
  }

  /** Only splitting stones add to the line: one more stone per non-zero stone of even width. */
  lemma {:induction false} BlinkLength(s: seq<int>)
    requires BlinkAll(s).Ok?
    ensures |BlinkAll(s).value| == |s| + EvenStones(s)
  {
    if s != [] {
      BlinkLength(s[..|s| - 1]);
    }
  }

  /** n blinks, stopping at the first that raises. */
  function Blinks(s: seq<int>, n: nat): Result<seq<int>, Failure>
    decreases n
  {
    if n == 0 then Ok(s)
    else
      match BlinkAll(s)
      case Err(e) => Err(e)
      case Ok(t) => Blinks(t, n - 1)
  }

  /** The line never shrinks: each blink keeps every stone or splits it. */
  lemma {:induction false} BlinksGrow(s: seq<int>, n: nat)
    requires Blinks(s, n).Ok?
    ensures |Blinks(s, n).value| >= |s|
    decreases n
  {
    if n > 0 {
      BlinkLength(s);
      BlinksGrow(BlinkAll(s).value, n - 1);
    }
  }

  predicate Naturals(s: seq<int>) {
    forall i :: 0 <= i < |s| ==> s[i] >= 0
  }

  /** A stone that is not negative changes into stones that are not negative. */
  lemma ChangeNatural(n: int)
    requires n >= 0
    ensures Change(n).Ok? && Naturals(Change(n).value)
  {
  }

  /** A line of stones that are not negative never raises, however many times it blinks. */
  lemma {:induction false} NaturalsNeverFail(s: seq<int>, n: nat)
    requires Naturals(s)
    ensures Blinks(s, n).Ok? && Naturals(Blinks(s, n).value)
    decreases n
  {
    if n > 0 {
      NaturalsBlink(s);
      NaturalsNeverFail(BlinkAll(s).value, n - 1);
    }
  }

  lemma {:induction false} NaturalsBlink(s: seq<int>)
    requires Naturals(s)
    ensures BlinkAll(s).Ok? && Naturals(BlinkAll(s).value)
  {
    if s != [] {
      var init := s[..|s| - 1];
      NaturalsBlink(init);
      ChangeNatural(s[|s| - 1]);
      var done, c := BlinkAll(init).value, Change(s[|s| - 1]).value;
      assert BlinkAll(s).value == done + c;
      assert forall i :: 0 <= i < |done + c| ==> (done + c)[i] >= 0 by {
        forall i | 0 <= i < |done + c|
          ensures (done + c)[i] >= 0
        {
          if i < |done| {
            assert (done + c)[i] == done[i];
          } else {
            assert (done + c)[i] == c[i - |done|];
          }
        }
      }
    }
  }

  /** The number of stones after `times` blinks, or the failure of the blink that raised. */
  method CountAfter(stones: seq<int>, times: nat) returns (r: Result<nat, Failure>)
    ensures Blinks(stones, times).Ok? ==> r == Ok(|Blinks(stones, times).value|)
    ensures Blinks(stones, times).Err? ==> r == Err(Blinks(stones, times).error)
  {
    var line := new Line(stones);
    for k := 0 to times
      invariant Blinks(stones, times) == Blinks(line.stones, times - k)
    {
      var blinked := Blink(line);
      if blinked.Err? {
        return Err(blinked.error);
      }
    }
    r := Ok(|line.stones|);
  }

  /** part_1: the number of stones after 25 blinks, never fewer than at the start. */
  method Part1(stones: seq<int>) returns (r: Result<nat, Failure>)
    ensures Blinks(stones, 25).Ok? ==> r == Ok(|Blinks(stones, 25).value|) && r.value >= |stones|
    ensures Blinks(stones, 25).Err? ==> r == Err(Blinks(stones, 25).error)
  {
    r := CountAfter(stones, 25);
    if r.Ok? {
      BlinksGrow(stones, 25);
    }
  }

  /** part_2: the same after 75 blinks. */
  method Part2(stones: seq<int>) returns (r: Result<nat, Failure>)
    ensures Blinks(stones, 75).Ok? ==> r == Ok(|Blinks(stones, 75).value|) && r.value >= |stones|
    ensures Blinks(stones, 75).Err? ==> r == Err(Blinks(stones, 75).error)
  {
    r := CountAfter(stones, 75);
    if r.Ok? {
      BlinksGrow(stones, 75);
    }
  }

  /** One more stone at the end of the line adds what it becomes at the end of the blink. */
  lemma BlinkSnoc(s: seq<int>, x: int)
    requires BlinkAll(s).Ok? && Change(x).Ok?
    ensures BlinkAll(s + [x]) == Ok(BlinkAll(s).value + Change(x).value)
  {
    assert (s + [x])[..|s|] == s;
  }

  /** What each stone of the unit test becomes. */
  lemma TestStones()
    ensures Change(0) == Ok([1]) && Change(1) == Ok([2024]) && Change(10) == Ok([1, 0])
    ensures Change(99) == Ok([9, 9]) && Change(999) == Ok([2021976])
  {
    assert DigitCount(10) == 2 && DigitCount(99) == 2 && DigitCount(999) == 3 && DigitCount(1) == 1;
  }

  /** The first three stones of the unit test. */
  lemma BlinkExampleStart()
    ensures BlinkAll([0, 1, 10]) == Ok([1, 2024, 1, 0])
  {
    TestStones();
    assert [] + [0] == [0] && [0] + [1] == [0, 1] && [0, 1] + [10] == [0, 1, 10];
    assert [] + [1] == [1] && [1] + [2024] == [1, 2024] && [1, 2024] + [1, 0] == [1, 2024, 1, 0];
    BlinkSnoc([], 0);
    BlinkSnoc([0], 1);
    BlinkSnoc([0, 1], 10);
  }

  /** The blink of the unit test: 0 1 10 99 999. */
  lemma BlinkExample()
    ensures BlinkAll([0, 1, 10, 99, 999]) == Ok([1, 2024, 1, 0, 9, 9, 2021976])
  {
    TestStones();
    BlinkExampleStart();
    assert [0, 1, 10] + [99] == [0, 1, 10, 99] && [0, 1, 10, 99] + [999] == [0, 1, 10, 99, 999];
    assert [1, 2024, 1, 0] + [9, 9] == [1, 2024, 1, 0, 9, 9];
    assert [1, 2024, 1, 0, 9, 9] + [2021976] == [1, 2024, 1, 0, 9, 9, 2021976];
    BlinkSnoc([0, 1, 10], 99);
    BlinkSnoc([0, 1, 10, 99], 999);
  }

  /** Negative stones: "-123" is cut into "-1" and "23", while "-1" is cut into "-" and "1", which `int` refuses. */
  lemma NegativeExample()
    ensures BlinkAll([-123]) == Ok([-1, 23])
    ensures BlinkAll([-1]) == Err(ValueError)
  {
    assert DigitCount(123) == 3 && Width(-123) == 4;
    assert Change(-123) == Ok([-1, 23]);
    assert [] + [-123] == [-123] && [] + [-1, 23] == [-1, 23];
    BlinkSnoc([], -123);
    assert DigitCount(1) == 1 && Width(-1) == 2;
    assert Change(-1) == Err(ValueError);
    assert [-1][..0] == [];
  }
}
