/** Small shared vocabulary: optional values, results with an error, integer helpers. */
module Common {

  datatype Option<+T> = None | Some(value: T)

  /** The outcome of an operation that the source may end by raising an exception. */
  datatype Result<+T, +E> = Ok(value: T) | Err(error: E)

  /** A grid point (x, y); the puzzles store these as Python complex numbers or int pairs. */
  type Point = (int, int)

  /** A boolean counted as 0 or 1, as Python's `sum` over booleans does. */
  function Indicator(b: bool): nat {
    if b then 1 else 0
  }

  function Min(a: int, b: int): int {
    if a <= b then a else b
  }

  function Max(a: int, b: int): int {
    if a <= b then b else a
  }

  function Abs(x: int): int {
    if x < 0 then -x else x
  }

  /** Sum of a sequence, added left to right. */
  function Sum(s: seq<int>): int {
    if s == [] then 0 else Sum(s[..|s| - 1]) + s[|s| - 1]
  }

  predicate IsDigit(c: char) {
    '0' <= c <= '9'
  }

  predicate AllDigits(s: string) {
    forall i :: 0 <= i < |s| ==> IsDigit(s[i])
  }

  /** Decimal value of a string of digits, most significant first. */
  function DigitsValue(s: string): nat
    requires AllDigits(s)
  {
    if s == [] then 0 else 10 * DigitsValue(s[..|s| - 1]) + (s[|s| - 1] - '0') as nat
  }

  function Pow10(k: nat): (r: nat)
    ensures r >= 1
  {
    if k == 0 then 1 else 10 * Pow10(k - 1)
  }

  /** `str(n)` for a natural: its decimal digits, most significant first, with no leading zero. */
  function Decimal(n: nat): (r: string)
    ensures |r| >= 1 && AllDigits(r) && DigitsValue(r) == n
    ensures r[0] == '0' ==> n == 0
  {
    var last := ['0' + (n % 10) as char];
    if n < 10 then last
    else
      var r := Decimal(n / 10) + last;
      assert r[..|r| - 1] == Decimal(n / 10);
      r
  }

  /** The value of two digit strings written one after the other. */
  lemma {:induction false} DigitsValueAppend(s: string, t: string)
    requires AllDigits(s) && AllDigits(t)
    ensures AllDigits(s + t)
    ensures DigitsValue(s + t) == DigitsValue(s) * Pow10(|t|) + DigitsValue(t)
  {
    if t != [] {
      var u := t[..|t| - 1];
      var d := (t[|t| - 1] - '0') as nat;
      assert (s + t)[..|s + t| - 1] == s + u;
      DigitsValueAppend(s, u);
      var a, p, v := DigitsValue(s), Pow10(|u|), DigitsValue(u);
      assert (s + t)[|s + t| - 1] == t[|t| - 1];
      assert DigitsValue(s + t) == 10 * (a * p + v) + d;
      assert DigitsValue(t) == 10 * v + d;
      assert Pow10(|t|) == 10 * p;
      ShiftTen(a, p);
    } else {
      assert s + t == s;
    }
  }

  /** A string of k digits is worth less than 10^k. */
  lemma {:induction false} DigitsValueBound(s: string)
    requires AllDigits(s)
    ensures DigitsValue(s) < Pow10(|s|)
  {
    if s != [] {
      DigitsValueBound(s[..|s| - 1]);
    }
  }

  lemma ShiftTen(a: int, p: int)
    ensures 10 * (a * p) == a * (10 * p)
  {
  }

  /** 2^64: `Xor` works on 64-bit words. */
  const Word: nat := 0x1_0000_0000_0000_0000

  /** Bitwise exclusive or of two naturals (Python's `^` on non-negative ints), 64 bits at a time. */
  function Xor(a: nat, b: nat): nat
    decreases a + b, 1
  {
    if a < Word && b < Word then LowXor(a, b)
    else Word * Xor(a / Word, b / Word) + Xor(a % Word, b % Word)
  }

  /** The exclusive or of the low 64-bit words of a and b, on bit-vectors. */
  function LowXor(a: nat, b: nat): nat
    decreases a + b, 0
  {
    if a < Word && b < Word then ((a as bv64) ^ (b as bv64)) as nat
    else Xor(a % Word, b % Word)
  }

  /** `^` is commutative. */
  lemma {:induction false} XorCommutes(a: nat, b: nat)
    ensures Xor(a, b) == Xor(b, a)
    decreases a + b
  {
    if a < Word && b < Word {
      assert LowXor(a, b) == LowXor(b, a) by {
        assert (a as bv64) ^ (b as bv64) == (b as bv64) ^ (a as bv64);
      }
    } else {
      XorCommutes(a / Word, b / Word);
      XorCommutes(a % Word, b % Word);
    }
  }

  /** x ^ x == 0. */
  lemma {:induction false} XorSelf(a: nat)
    ensures Xor(a, a) == 0
    decreases a
  {
    if a >= Word {
      XorSelf(a / Word);
      XorSelf(a % Word);
    } else {
      assert LowXor(a, a) == 0 by {
        assert (a as bv64) ^ (a as bv64) == 0;
      }
    }
  }

  /** Python's floor division `//` on integers. */
  function FloorDiv(n: int, d: int): int
    requires d != 0
  {
    if d > 0 then n / d
    else if n % d == 0 then n / d
    else n / d - 1
  }

  /** (x, y) is a character of the text: x is the column, y the line. */
  predicate InText(lines: seq<string>, p: Point) {
    0 <= p.1 < |lines| && 0 <= p.0 < |lines[p.1]|
  }

  /** Cells read before (col, row) in reading order: whole lines above `row`, then the first `col` cells of it. */
  predicate ReadBefore(p: Point, row: int, col: int) {
    p.1 < row || (p.1 == row && p.0 < col)
  }

  function Add(a: Point, b: Point): Point {
    (a.0 + b.0, a.1 + b.1)
  }

  /** The characters `str.splitlines` breaks at; "\r\n" is one break of two characters. */
  predicate LineBreak(c: char) {
    c == '\n' || c == '\r' || c == '\U{000B}' || c == '\U{000C}' || c == '\U{001C}' || c == '\U{001D}'
    || c == '\U{001E}' || c == '\U{0085}' || c == '\U{2028}' || c == '\U{2029}'
  }

  predicate NoBreak(l: string) {
    forall j :: 0 <= j < |l| ==> !LineBreak(l[j])
  }

  /** Index of the first line break of any kind in `s` at or after `from`, or |s| if there is none. */
  function BreakAt(s: string, from: nat): (k: nat)
    requires from <= |s|
    ensures from <= k <= |s| && (k < |s| ==> LineBreak(s[k]))
    ensures forall i :: from <= i < k ==> !LineBreak(s[i])
    decreases |s| - from
  {
    if from == |s| || LineBreak(s[from]) then from else BreakAt(s, from + 1)
  }

  /** The length of the break at k: two for "\r\n", one otherwise. */
  function BreakWidth(s: string, k: nat): (w: nat)
    requires k < |s|
    ensures 1 <= w && k + w <= |s|
  {
    if s[k] == '\r' && k + 1 < |s| && s[k + 1] == '\n' then 2 else 1
  }

  /**
   * str.splitlines: the text between line breaks, where a final break ends the last line rather
   * than starting an empty one.
   */
  function Lines(s: string): (r: seq<string>)
    ensures forall i :: 0 <= i < |r| ==> NoBreak(r[i])
    decreases |s|
  {
    if s == [] then []
    else
      var k := BreakAt(s, 0);
      [s[..k]] + (if k < |s| then Lines(s[k + BreakWidth(s, k)..]) else [])
  }

  /** One unfolding of Lines at a text with a break: its first line, then the lines after the break. */
  lemma LinesCons(s: string)
    requires s != [] && BreakAt(s, 0) < |s|
    ensures var e := BreakAt(s, 0);
      Lines(s) == [s[..e]] + Lines(s[e + BreakWidth(s, e)..])
  {
    var e := BreakAt(s, 0);
    var rest := s[e + BreakWidth(s, e)..];
    assert Lines(s) == [s[..e]] + (if e < |s| then Lines(rest) else []);
  }

  /** Each line followed by a line break. */
  function Unlines(ls: seq<string>): string {
    if ls == [] then [] else ls[0] + "\n" + Unlines(ls[1..])
  }

  /** Splitting undoes joining lines that hold no line break. */
  lemma {:induction false} LinesUnlines(ls: seq<string>)
    requires forall i :: 0 <= i < |ls| ==> NoBreak(ls[i])
    ensures Lines(Unlines(ls)) == ls
  {
    if ls != [] {
      FirstLine(ls);
      LinesUnlines(ls[1..]);
    }
  }

  /** The first line of joined lines ends at the first break, and the rest follows it. */
  lemma FirstLine(ls: seq<string>)
    requires ls != [] && NoBreak(ls[0])
    ensures var s, l := Unlines(ls), ls[0];
      BreakAt(s, 0) == |l| < |s| && BreakWidth(s, |l|) == 1 && s[..|l|] == l && s[|l| + 1..] == Unlines(ls[1..])
  {
    var s := Unlines(ls);
    var l := ls[0];
    assert s == l + ("\n" + Unlines(ls[1..]));
    assert forall i :: 0 <= i < |l| ==> s[i] == l[i];
    BreakAtIs(s, 0, |l|);
  }

  lemma {:induction false} BreakAtIs(s: string, from: nat, k: nat)
    requires from <= k < |s| && LineBreak(s[k])
    requires forall i :: from <= i < k ==> !LineBreak(s[i])
    ensures BreakAt(s, from) == k
    decreases k - from
  {
    if from < k {
      BreakAtIs(s, from + 1, k);
    }
  }

  /** "\r\n" ends one line, as "\n" alone would. */
  lemma CrLfIsOneBreak()
    ensures Lines("029A\r\n980A") == ["029A", "980A"]
  {
    var s := "029A\r\n980A";
    BreakAtIs(s, 0, 4);
    assert BreakWidth(s, 4) == 2;
    var t := s[6..];
    assert t == "980A";
    NoBreakAtEnd(t);
    assert t[..4] == t;
    assert Lines(t) == [t];
    assert s[..4] == "029A";
    assert Lines(s) == [s[..4]] + Lines(t);
  }

  /** A lone "\r" and a form feed each end a line; a break right after a break leaves an empty line. */
  lemma OtherBreaks()
    ensures Lines("a\r\rb\U{000C}") == ["a", "", "b"]
  {
    var u := "a\r\rb\U{000C}";
    BreakAtIs(u, 0, 1);
    assert BreakWidth(u, 1) == 1;
    var v := u[2..];
    assert v == "\rb\U{000C}";
    BreakAtIs(v, 0, 0);
    assert BreakWidth(v, 0) == 1;
    var w := v[1..];
    assert w == "b\U{000C}";
    BreakAtIs(w, 0, 1);
    assert w[2..] == [] && w[..1] == "b";
    assert Lines(w) == ["b"];
    assert Lines(v) == [""] + Lines(w);
    assert u[..1] == "a";
    assert Lines(u) == ["a"] + Lines(v);
  }

  lemma NoBreakAtEnd(s: string)
    requires NoBreak(s)
    ensures BreakAt(s, 0) == |s|
  {
    BreakAtEnd(s, 0);
  }

  lemma {:induction false} BreakAtEnd(s: string, from: nat)
    requires from <= |s| && forall i :: from <= i < |s| ==> !LineBreak(s[i])
    ensures BreakAt(s, from) == |s|
    decreases |s| - from
  {
    if from < |s| {
      BreakAtEnd(s, from + 1);
    }
  }

  /** Index of the first "\n" in `s` at or after `from`, or |s| if there is none. */
  function LineEnd(s: string, from: nat): (k: nat)
    requires from <= |s|
    ensures from <= k <= |s| && (k < |s| ==> s[k] == '\n')
    ensures forall i :: from <= i < k ==> s[i] != '\n'
    decreases |s| - from
  {
    if from == |s| || s[from] == '\n' then from else LineEnd(s, from + 1)
  }

  lemma {:induction false} LineEndIs(s: string, from: nat, k: nat)
    requires from <= k < |s| && s[k] == '\n'
    requires forall i :: from <= i < k ==> s[i] != '\n'
    ensures LineEnd(s, from) == k
    decreases k - from
  {
    if from < k {
      LineEndIs(s, from + 1, k);
    }
  }

  /** str.split("\n"): the text between breaks, so a final break leaves an empty last piece. */
  function Split(s: string): (r: seq<string>)
    ensures |r| >= 1 && forall i :: 0 <= i < |r| ==> '\n' !in r[i]
    decreases |s|
  {
    var k := LineEnd(s, 0);
    if k == |s| then [s] else [s[..k]] + Split(s[k + 1..])
  }

  /** "\n".join: the pieces with a break between each two. */
  function Join(ls: seq<string>): string
    requires ls != []
  {
    if |ls| == 1 then ls[0] else ls[0] + "\n" + Join(ls[1..])
  }

  /** Joining the pieces of a split gives the text back. */
  lemma {:induction false} JoinSplit(s: string)
    ensures Join(Split(s)) == s
    decreases |s|
  {
    var k := LineEnd(s, 0);
    if k < |s| {
      JoinSplit(s[k + 1..]);
      assert s == s[..k] + "\n" + s[k + 1..];
    }
  }

  /** Splitting a join of break-free pieces gives the pieces back. */
  lemma {:induction false} SplitJoin(ls: seq<string>)
    requires ls != [] && forall i :: 0 <= i < |ls| ==> '\n' !in ls[i]
    ensures Split(Join(ls)) == ls
    decreases |ls|
  {
    var s := Join(ls);
    if |ls| == 1 {
      assert forall i :: 0 <= i < |s| ==> s[i] != '\n';
      LineEndAtEnd(s, 0);
    } else {
      JoinFirst(ls);
      assert forall i :: 0 <= i < |ls| - 1 ==> ls[1..][i] == ls[i + 1];
      SplitJoin(ls[1..]);
      assert Split(s) == [ls[0]] + Split(Join(ls[1..]));
      assert ls == [ls[0]] + ls[1..];
    }
  }

  /** The first piece of a join ends at the first break. */
  lemma JoinFirst(ls: seq<string>)
    requires |ls| > 1 && '\n' !in ls[0]
    ensures var s := Join(ls); var l := ls[0];
      LineEnd(s, 0) == |l| < |s| && s[..|l|] == l && s[|l| + 1..] == Join(ls[1..])
  {
    var s := Join(ls);
    var l := ls[0];
    assert s == l + ("\n" + Join(ls[1..]));
    assert forall i :: 0 <= i < |l| ==> s[i] == l[i];
    LineEndIs(s, 0, |l|);
  }

  lemma {:induction false} LineEndAtEnd(s: string, from: nat)
    requires from <= |s| && forall i :: from <= i < |s| ==> s[i] != '\n'
    ensures LineEnd(s, from) == |s|
    decreases |s| - from
  {
    if from < |s| {
      LineEndAtEnd(s, from + 1);
    }
  }

  /** Index of the first blank line separator "\n\n" at or after `from`, or |s| if there is none. */
  function BlankAt(s: string, from: nat): (k: nat)
    requires from <= |s|
    ensures from <= k <= |s| && (k < |s| ==> k + 1 < |s| && s[k] == '\n' && s[k + 1] == '\n')
    ensures forall i :: from <= i < k && i + 1 < |s| ==> !(s[i] == '\n' && s[i + 1] == '\n')
    decreases |s| - from
  {
    if from + 1 >= |s| then |s|
    else if s[from] == '\n' && s[from + 1] == '\n' then from
    else BlankAt(s, from + 1)
  }

  /** str.split("\n\n"): the pieces between blank-line separators, found left to right. */
  function Sections(s: string): (r: seq<string>)
    ensures |r| >= 1
    decreases |s|
  {
    var k := BlankAt(s, 0);
    if k == |s| then [s] else [s[..k]] + Sections(s[k + 2..])
  }

  /** "\n\n".join */
  function JoinSections(ls: seq<string>): string
    requires ls != []
  {
    if |ls| == 1 then ls[0] else ls[0] + "\n\n" + JoinSections(ls[1..])
  }

  /** Joining the sections with blank lines gives the text back. */
  lemma {:induction false} SectionsJoin(s: string)
    ensures JoinSections(Sections(s)) == s
    decreases |s|
  {
    var k := BlankAt(s, 0);
    if k < |s| {
      var rest := s[k + 2..];
      SectionsJoin(rest);
      var r := Sections(rest);
      assert Sections(s) == [s[..k]] + r;
      assert ([s[..k]] + r)[1..] == r;
      assert JoinSections(Sections(s)) == s[..k] + "\n\n" + rest;
      assert s[k..k + 2] == "\n\n";
      SliceSplit(s, k, k + 2);
    } else {
      assert Sections(s) == [s];
    }
  }

  /** `sep` occurs in `s` at index i. */
  predicate OccursAt(s: string, sep: string, i: int) {
    0 <= i && i + |sep| <= |s| && s[i..i + |sep|] == sep
  }

  /** Index of the first occurrence of `sep` in `s` at or after `from`, or |s| if there is none. */
  function FindFrom(s: string, sep: string, from: nat): (k: nat)
    requires sep != [] && from <= |s|
    ensures from <= k <= |s|
    ensures k < |s| ==> OccursAt(s, sep, k)
    ensures forall i :: from <= i < k ==> !OccursAt(s, sep, i)
    decreases |s| - from
  {
    if from + |sep| > |s| then |s|
    else if s[from..from + |sep|] == sep then from
    else FindFrom(s, sep, from + 1)
  }

  /** str.split(sep): the pieces between occurrences of `sep`, found left to right. */
  function SplitOn(s: string, sep: string): (r: seq<string>)
    requires sep != []
    ensures |r| >= 1
    decreases |s|
  {
    var k := FindFrom(s, sep, 0);
    if k == |s| then [s] else [s[..k]] + SplitOn(s[k + |sep|..], sep)
  }

  /** sep.join */
  function JoinOn(ls: seq<string>, sep: string): string
    requires ls != []
  {
    if |ls| == 1 then ls[0] else ls[0] + sep + JoinOn(ls[1..], sep)
  }

  /** Joining the pieces of a split with the separator gives the text back. */
  lemma {:induction false} SplitOnJoin(s: string, sep: string)
    requires sep != []
    ensures JoinOn(SplitOn(s, sep), sep) == s
    decreases |s|
  {
    var k := FindFrom(s, sep, 0);
    if k < |s| {
      var rest := s[k + |sep|..];
      SplitOnFirst(s, sep);
      SplitOnJoin(rest, sep);
      JoinOnCons(s[..k], SplitOn(rest, sep), sep);
    } else {
      assert SplitOn(s, sep) == [s];
    }
  }

  /** A text with the separator in it splits into the piece before its first occurrence and the split of the rest. */
  lemma SplitOnFirst(s: string, sep: string)
    requires sep != [] && FindFrom(s, sep, 0) < |s|
    ensures var k := FindFrom(s, sep, 0);
      SplitOn(s, sep) == [s[..k]] + SplitOn(s[k + |sep|..], sep) && s == s[..k] + sep + s[k + |sep|..]
  {
    var k := FindFrom(s, sep, 0);
    assert s[k..k + |sep|] == sep;
    SliceSplit(s, k, k + |sep|);
  }

  lemma JoinOnCons(x: string, r: seq<string>, sep: string)
    requires r != []
    ensures JoinOn([x] + r, sep) == x + sep + JoinOn(r, sep)
  {
    assert ([x] + r)[1..] == r;
  }

  /** FindFrom stops at the first occurrence. */
  lemma {:induction false} FindFromFirst(s: string, sep: string, from: nat, k: nat)
    requires sep != [] && from <= k <= |s|
    requires k < |s| ==> OccursAt(s, sep, k)
    requires forall i :: from <= i < k ==> !OccursAt(s, sep, i)
    ensures FindFrom(s, sep, from) == k
    decreases k - from
  {
    if from < k {
      FindFromFirst(s, sep, from + 1, k);
    }
  }

  /** Splitting on a one-character separator undoes joining pieces that do not hold it. */
  lemma {:induction false} SplitJoinOn(ws: seq<string>, c: char)
    requires ws != [] && forall i :: 0 <= i < |ws| ==> c !in ws[i]
    ensures SplitOn(JoinOn(ws, [c]), [c]) == ws
  {
    if |ws| == 1 {
      var s := ws[0];
      NoSeparatorBefore(s, s, c);
      FindFromFirst(s, [c], 0, |s|);
    } else {
      var rest := ws[1..];
      SplitJoinOnFirst(ws, c);
      assert forall i :: 0 <= i < |rest| ==> rest[i] == ws[i + 1];
      SplitJoinOn(rest, c);
      assert ws == [ws[0]] + rest;
    }
  }

  /** The first piece of a join is the first piece of its split, and the rest split as the rest joined. */
  lemma SplitJoinOnFirst(ws: seq<string>, c: char)
    requires |ws| > 1 && c !in ws[0]
    ensures SplitOn(JoinOn(ws, [c]), [c]) == [ws[0]] + SplitOn(JoinOn(ws[1..], [c]), [c])
  {
    var s := JoinOn(ws, [c]);
    var w := ws[0];
    assert s == w + [c] + JoinOn(ws[1..], [c]);
    NoSeparatorBefore(s, w, c);
    assert s[|w|..|w| + 1] == [c];
    FindFromFirst(s, [c], 0, |w|);
    SplitOnFirst(s, [c]);
    assert s[..|w|] == w && s[|w| + 1..] == JoinOn(ws[1..], [c]);
  }

  /** A piece without c at the front of a text has no occurrence of c inside it. */
  lemma NoSeparatorBefore(s: string, w: string, c: char)
    requires |w| <= |s| && s[..|w|] == w && c !in w
    ensures forall i :: 0 <= i < |w| ==> !OccursAt(s, [c], i)
  {
    forall i | 0 <= i < |w|
      ensures !OccursAt(s, [c], i)
    {
      assert s[i] == w[i] && s[i..i + 1][0] == s[i];
    }
  }

  /** A text is its three slices around k and m, one after the other. */
  lemma SliceSplit(s: string, k: nat, m: nat)
    requires k <= m <= |s|
    ensures s == s[..k] + s[k..m] + s[m..]
  {
  }

  /** `int(s)` on an optional sign followed by decimal digits; anything else is None (ValueError). */
  function IntOf(s: string): Option<int> {
    if s != [] && (s[0] == '-' || s[0] == '+') then
      if |s| >= 2 && AllDigits(s[1..]) then
        var v: int := DigitsValue(s[1..]);
        Some(if s[0] == '-' then -v else v)
      else None
    else if s != [] && AllDigits(s) then Some(DigitsValue(s) as int)
    else None
  }

  /** `int(str(n))` is n, for either sign. */
  lemma IntOfDecimal(n: nat)
    ensures IntOf(Decimal(n)) == Some(n)
    ensures IntOf("-" + Decimal(n)) == Some(-(n as int))
  {
    var d := Decimal(n);
    assert ("-" + d)[1..] == d;
  }

  /** `int` of a non-empty run of digits is their value. */
  lemma IntOfDigits(s: string)
    requires s != [] && AllDigits(s)
    ensures IntOf(s) == Some(DigitsValue(s) as int)
  {
    assert IsDigit(s[0]);
  }

  /** `int` of a minus sign before digits is their value negated; a lone minus sign is refused. */
  lemma IntOfSigned(s: string)
    requires AllDigits(s)
    ensures s == [] ==> IntOf("-" + s) == None
    ensures s != [] ==> IntOf("-" + s) == Some(-(DigitsValue(s) as int))
  {
    assert ("-" + s)[1..] == s;
  }

  /** `str(n)` of an integer of either sign: a minus sign before the digits of a negative one. */
  function Str(n: int): (r: string)
    ensures IntOf(r) == Some(n)
    ensures |r| >= 1 && (r[0] == '-' <==> n < 0)
  {
    if n < 0 then
      IntOfDecimal(-n);
      "-" + Decimal(-n)
    else
      IntOfDecimal(n);
      Decimal(n)
  }

  // ---------------------------------------------------------------------------------------------
  // Sorting (list.sort and sorted on integers)

  predicate Sorted(s: seq<int>) {
    forall i, j :: 0 <= i < j < |s| ==> s[i] <= s[j]
  }

  /** A sorted sequence stays sorted behind a head no larger than any of its elements. */
  lemma ConsSorted(h: int, t: seq<int>)
    requires Sorted(t) && forall k :: 0 <= k < |t| ==> h <= t[k]
    ensures Sorted([h] + t)
  {
    forall i, j | 0 <= i < j < |t| + 1 ensures ([h] + t)[i] <= ([h] + t)[j] {
      assert ([h] + t)[j] == t[j - 1];
      if i > 0 {
        assert ([h] + t)[i] == t[i - 1];
      }
    }
  }

  /** A lower bound of every element carries over to any sequence with the same elements. */
  lemma BoundedByMultiset(h: int, t: seq<int>, u: seq<int>)
    requires multiset(t) == multiset(u) && forall k :: 0 <= k < |u| ==> h <= u[k]
    ensures forall k :: 0 <= k < |t| ==> h <= t[k]
  {
    forall k | 0 <= k < |t| ensures h <= t[k] {
      assert t[k] in multiset(u) by {
        assert t[k] in multiset(t);
      }
    }
  }

  /** Puts `x` into a sequence before the first element not below it. */
  function Insert(x: int, s: seq<int>): seq<int> {
    if s == [] || x <= s[0] then [x] + s else [s[0]] + Insert(x, s[1..])
  }

  /** Inserting adds one element. */
  lemma {:induction false} InsertAdds(x: int, s: seq<int>)
    ensures |Insert(x, s)| == |s| + 1
    ensures multiset(Insert(x, s)) == multiset(s) + multiset{x}
  {
    if s != [] && x > s[0] {
      InsertAdds(x, s[1..]);
      assert s == [s[0]] + s[1..];
      assert Insert(x, s) == [s[0]] + Insert(x, s[1..]);
    }
  }

  /** Inserting into a sorted sequence keeps it sorted. */
  lemma {:induction false} InsertSorted(x: int, s: seq<int>)
    requires Sorted(s)
    ensures Sorted(Insert(x, s))
  {
    if s == [] {
    } else if x <= s[0] {
      ConsSorted(x, s);
    } else {
      var t := Insert(x, s[1..]);
      TailSorted(s);
      InsertSorted(x, s[1..]);
      InsertAdds(x, s[1..]);
      assert forall k :: 0 <= k < |s[1..] + [x]| ==> s[0] <= (s[1..] + [x])[k];
      BoundedByMultiset(s[0], t, s[1..] + [x]);
      ConsSorted(s[0], t);
    }
  }

  /** The ascending rearrangement of a sequence of integers. */
  function Sort(s: seq<int>): (r: seq<int>)
    ensures |r| == |s| && Sorted(r) && multiset(r) == multiset(s)
  {
    if s == [] then []
    else
      assert s == s[..|s| - 1] + [s[|s| - 1]];
      InsertSorted(s[|s| - 1], Sort(s[..|s| - 1]));
      InsertAdds(s[|s| - 1], Sort(s[..|s| - 1]));
      Insert(s[|s| - 1], Sort(s[..|s| - 1]))
  }

  /** There is only one sorted arrangement of a multiset: sorting forgets the input order. */
  lemma {:induction false} SortedUnique(a: seq<int>, b: seq<int>)
    requires Sorted(a) && Sorted(b) && multiset(a) == multiset(b)
    ensures a == b
    decreases |a|
  {
    if a != [] {
      assert |b| == |multiset(b)| == |a|;
      SameHeads(a, b);
      SameTails(a, b);
      TailSorted(a);
      TailSorted(b);
      SortedUnique(a[1..], b[1..]);
      assert a == [a[0]] + a[1..] && b == [b[0]] + b[1..];
    }
  }

  /** Sorted arrangements of one multiset start with its least element. */
  lemma SameHeads(a: seq<int>, b: seq<int>)
    requires Sorted(a) && Sorted(b) && multiset(a) == multiset(b) && a != [] && b != []
    ensures a[0] == b[0]
  {
    assert a[0] in multiset(b) && b[0] in multiset(a) by {
      assert a[0] in multiset(a) && b[0] in multiset(b);
    }
    var i :| 0 <= i < |b| && b[i] == a[0];
    var j :| 0 <= j < |a| && a[j] == b[0];
    assert b[0] <= b[i] && a[0] <= a[j];
  }

  lemma SameTails(a: seq<int>, b: seq<int>)
    requires multiset(a) == multiset(b) && a != [] && b != [] && a[0] == b[0]
    ensures multiset(a[1..]) == multiset(b[1..])
  {
    assert a == [a[0]] + a[1..] && b == [b[0]] + b[1..];
    assert multiset(a) == multiset{a[0]} + multiset(a[1..]);
    assert multiset(b) == multiset{b[0]} + multiset(b[1..]);
    assert multiset(a[1..]) == multiset(a) - multiset{a[0]};
    assert multiset(b[1..]) == multiset(b) - multiset{b[0]};
  }

  lemma TailSorted(a: seq<int>)
    requires Sorted(a) && a != []
    ensures Sorted(a[1..])
  {
    forall i, j | 0 <= i < j < |a| - 1 ensures a[1..][i] <= a[1..][j] {
      assert a[1..][i] == a[i + 1] && a[1..][j] == a[j + 1];
    }
  }

  lemma SortDependsOnlyOnMultiset(s: seq<int>, t: seq<int>)
    requires multiset(s) == multiset(t)
    ensures Sort(s) == Sort(t)
  {
    SortedUnique(Sort(s), Sort(t));
  }

  /** Sorting gives the one sorted arrangement of the same elements. */
  lemma SortIs(s: seq<int>, t: seq<int>)
    requires Sorted(t) && multiset(s) == multiset(t)
    ensures Sort(s) == t
  {
    SortedUnique(Sort(s), t);
  }
}
