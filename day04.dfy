/**
 * Word search (src/day_04.py): the text becomes a grid of characters keyed by (x, y), where reads
 * outside the text give "."; part_1 counts XMAS written in four directions, forwards or backwards,
 * and part_2 counts X-shaped pairs of MAS.
 */
module Day04 {
  import opened Common

  /** The grid the loops of both parts fill: every character of the text at its (x, y). */
  function GridOf(lines: seq<string>): map<Point, char> {
    map y, x | 0 <= y < |lines| && 0 <= x < |lines[y]| :: (x, y) := lines[y][x]
  }

  /** The grid holds exactly the characters of the text. */
  lemma GridOfHolds(lines: seq<string>, p: Point)
    ensures p in GridOf(lines) <==> InText(lines, p)
    ensures p in GridOf(lines) ==> GridOf(lines)[p] == lines[p.1][p.0]
  {
    if InText(lines, p) {
      var x, y := p.0, p.1;
      assert (x, y) in GridOf(lines);
    }
  }

  /** The nested loops that copy the text into the grid dictionary. */
  method ReadGrid(lines: seq<string>) returns (grid: map<Point, char>)
    ensures grid == GridOf(lines)
  {
    grid := map[];
    for y := 0 to |lines|
      invariant forall p :: p in grid <==> InText(lines, p) && p.1 < y
      invariant forall p :: p in grid ==> InText(lines, p) && grid[p] == lines[p.1][p.0]
    {
      for x := 0 to |lines[y]|
        invariant forall p :: p in grid <==> InText(lines, p) && (p.1 < y || (p.1 == y && p.0 < x))
        invariant forall p :: p in grid ==> InText(lines, p) && grid[p] == lines[p.1][p.0]
      {
        grid := grid[(x, y) := lines[y][x]];
      }
    }
    forall p
      ensures (p in grid <==> p in GridOf(lines)) && (p in grid ==> grid[p] == GridOf(lines)[p])
    {
      GridOfHolds(lines, p);
    }
  }

  /** `grid[p]` on the defaultdict: "." where the text has no character. */
  function At(grid: map<Point, char>, p: Point): char {
    if p in grid then grid[p] else '.'
  }

  /** The width the loops scan: `max(len(line) for line in lines)`. */
  function MaxLen(lines: seq<string>): (r: nat)
    ensures forall i :: 0 <= i < |lines| ==> |lines[i]| <= r
    ensures lines != [] ==> exists i :: 0 <= i < |lines| && |lines[i]| == r
  {
    if lines == [] then 0
    else
      var init := lines[..|lines| - 1];
      var r := Max(MaxLen(init), |lines[|lines| - 1]|);
      assert forall i :: 0 <= i < |init| ==> lines[i] == init[i];
      r
  }

  /** Four reads from (x, y) in steps of (dx, dy). */
  function Line4(grid: map<Point, char>, x: int, y: int, dx: int, dy: int): string {
    [At(grid, (x, y)), At(grid, (x + dx, y + dy)), At(grid, (x + 2 * dx, y + 2 * dy)), At(grid, (x + 3 * dx, y + 3 * dy))]
  }

  /** `to_check`: the word and the word reversed. */
  predicate IsXmas(w: string) {
    w == "XMAS" || w == "SAMX"
  }

  /** What the four tests of part_1 add at (x, y): rightward, downward, down-right, down-left. */
  function Hits(grid: map<Point, char>, x: int, y: int): (n: nat)
    ensures n <= 4
  {
    Indicator(IsXmas(Line4(grid, x, y, 1, 0))) + Indicator(IsXmas(Line4(grid, x, y, 0, 1)))
    + Indicator(IsXmas(Line4(grid, x, y, 1, 1))) + Indicator(IsXmas(Line4(grid, x, y, -1, 1)))
  }

  /** The window part_2 reads at (x, y): top-left, top-right, centre, bottom-left, bottom-right. */
  function XWindow(grid: map<Point, char>, x: int, y: int): string {
    [At(grid, (x, y)), At(grid, (x + 2, y)), At(grid, (x + 1, y + 1)), At(grid, (x, y + 2)), At(grid, (x + 2, y + 2))]
  }

  /** part_2's `to_check`, as written: the third entry ends in a lower-case "s". */
  const XPatterns: seq<string> := ["MSAMS", "SMASM", "MSAMs", "SSAMM", "MMASS"]

  function XHit(grid: map<Point, char>, x: int, y: int): nat {
    Indicator(XWindow(grid, x, y) in XPatterns)
  }

  /** The sum of `f` over the first `n` cells of line y. */
  function RowSum(f: (int, int) -> nat, y: int, n: nat): nat {
    if n == 0 then 0 else RowSum(f, y, n - 1) + f(n - 1, y)
  }

  /** The sum of `f` over the first `m` lines, `width` cells each. */
  function GridSum(f: (int, int) -> nat, m: nat, width: nat): nat {
    if m == 0 then 0 else GridSum(f, m - 1, width) + RowSum(f, m - 1, width)
  }

  /** part_1's answer for the lines of the text. */
  function XmasCount(lines: seq<string>): nat {
    var grid := GridOf(lines);
    GridSum((x, y) => Hits(grid, x, y), |lines|, MaxLen(lines))
  }

  /** part_2's answer for the lines of the text. */
  function XMasCount(lines: seq<string>): nat {
    var grid := GridOf(lines);
    GridSum((x, y) => XHit(grid, x, y), |lines|, MaxLen(lines))
  }

  /** part_1: copy the text into the grid, then test every cell of the scanned rectangle. */
  method Part1(puzzle: string) returns (found: nat)
    ensures found == XmasCount(Split(puzzle))
  {
    var lines := Split(puzzle);
    var grid := ReadGrid(lines);
    found := ScanXmas(grid, |lines|, MaxLen(lines));
  }

  /** part_1's nested loops: four tests per cell, each adding one when it matches. */
  method ScanXmas(grid: map<Point, char>, yLength: nat, xLength: nat) returns (found: nat)
    ensures found == GridSum((x, y) => Hits(grid, x, y), yLength, xLength)
  {
    ghost var f := (x, y) => Hits(grid, x, y);
    found := 0;
    for y := 0 to yLength
      invariant found == GridSum(f, y, xLength)
    {
      for x := 0 to xLength
        invariant found == GridSum(f, y, xLength) + RowSum(f, y, x)
      {
        ghost var before := found;
        if IsXmas(Line4(grid, x, y, 1, 0)) {
          found := found + 1;
        }
        ghost var right := found;
        if IsXmas(Line4(grid, x, y, 0, 1)) {
          found := found + 1;
        }
        assert found == right + Indicator(IsXmas(Line4(grid, x, y, 0, 1)));
        ghost var down := found;
        if IsXmas(Line4(grid, x, y, 1, 1)) {
          found := found + 1;
        }
        assert found == down + Indicator(IsXmas(Line4(grid, x, y, 1, 1)));
        ghost var diagonal := found;
        if IsXmas(Line4(grid, x, y, -1, 1)) {
          found := found + 1;
        }
        assert found == diagonal + Indicator(IsXmas(Line4(grid, x, y, -1, 1)));
        assert found == before + Hits(grid, x, y);
        assert f(x, y) == Hits(grid, x, y);
      }
    }
  }

  /** part_2: copy the text into the grid, then test the window at every cell. */
  method Part2(puzzle: string) returns (found: nat)
    ensures found == XMasCount(Split(puzzle))
  {
    var lines := Split(puzzle);
    var grid := ReadGrid(lines);
    found := ScanXMas(grid, |lines|, MaxLen(lines));
  }

  /** part_2's nested loops: one window test per cell. */
  method ScanXMas(grid: map<Point, char>, yLength: nat, xLength: nat) returns (found: nat)
    ensures found == GridSum((x, y) => XHit(grid, x, y), yLength, xLength)
  {
    ghost var f := (x, y) => XHit(grid, x, y);
    found := 0;
    for y := 0 to yLength
      invariant found == GridSum(f, y, xLength)
    {
      for x := 0 to xLength
        invariant found == GridSum(f, y, xLength) + RowSum(f, y, x)
      {
        ghost var before := found;
        if XWindow(grid, x, y) in XPatterns {
          found := found + 1;
        }
        assert found == before + XHit(grid, x, y);
        assert f(x, y) == XHit(grid, x, y);
      }
    }
  }

  /** Reads off the grid give ".", which is in no pattern: a line leaving the grid never matches. */
  lemma OffGridNeverMatches(grid: map<Point, char>, x: int, y: int, dx: int, dy: int, p: Point)
    requires p in {(x, y), (x + dx, y + dy), (x + 2 * dx, y + 2 * dy), (x + 3 * dx, y + 3 * dy)}
    requires p !in grid
    ensures !IsXmas(Line4(grid, x, y, dx, dy))
  {
  }

  /** Likewise for part_2's window. */
  lemma OffGridNeverCrosses(grid: map<Point, char>, x: int, y: int, p: Point)
    requires p in {(x, y), (x + 2, y), (x + 1, y + 1), (x, y + 2), (x + 2, y + 2)} && p !in grid
    ensures XWindow(grid, x, y) !in XPatterns
  {
    var w := XWindow(grid, x, y);
    assert '.' in w by {
      if p == (x, y) {
        assert w[0] == '.';
      } else if p == (x + 2, y) {
        assert w[1] == '.';
      } else if p == (x + 1, y + 1) {
        assert w[2] == '.';
      } else if p == (x, y + 2) {
        assert w[3] == '.';
      } else {
        assert w[4] == '.';
      }
    }
    NoDotPattern(w);
  }

  lemma NoDotPattern(w: string)
    requires '.' in w
    ensures w !in XPatterns
  {
    forall i | 0 <= i < |XPatterns|
      ensures '.' !in XPatterns[i]
    {
    }
  }

  /** Each cell adds at most four, so part_1 is at most four per cell of the scanned rectangle. */
  lemma {:induction false} CountBound(f: (int, int) -> nat, m: nat, width: nat, k: nat)
    requires forall x, y :: f(x, y) <= k
    ensures GridSum(f, m, width) <= m * (k * width)
  {
    if m > 0 {
      CountBound(f, m - 1, width, k);
      RowBound(f, m - 1, width, k);
      var row := k * width;
      assert m * row == (m - 1) * row + row;
    }
  }

  lemma {:induction false} RowBound(f: (int, int) -> nat, y: int, n: nat, k: nat)
    requires forall x, y :: f(x, y) <= k
    ensures RowSum(f, y, n) <= k * n
  {
    if n > 0 {
      RowBound(f, y, n - 1, k);
    }
  }

  lemma XmasCountBound(lines: seq<string>)
    ensures XmasCount(lines) <= |lines| * (4 * MaxLen(lines))
  {
    var grid := GridOf(lines);
    CountBound((x, y) => Hits(grid, x, y), |lines|, MaxLen(lines), 4);
  }

  /** "MAS" along a diagonal, read either way. */
  predicate IsMas(a: char, b: char, c: char) {
    b == 'A' && ((a == 'M' && c == 'S') || (a == 'S' && c == 'M'))
  }

  /**
   * The listed windows are the X-shaped MAS (both diagonals read MAS one way or the other), plus
   * the entry with a lower-case "s", which only a lower-case letter in the text can match.
   */
  lemma XPatternsAreCrossedMas(w: string)
    requires |w| == 5
    ensures w in XPatterns <==> (IsMas(w[0], w[2], w[4]) && IsMas(w[1], w[2], w[3])) || w == "MSAMs"
  {
    assert w == [w[0], w[1], w[2], w[3], w[4]];
  }

  /** Hence on text without a lower-case "s", part_2 counts exactly the X-shaped MAS. */
  lemma UpperCaseCrossedMas(lines: seq<string>, x: int, y: int)
    requires forall j :: 0 <= j < |lines| ==> 's' !in lines[j]
    ensures var w := XWindow(GridOf(lines), x, y);
      w in XPatterns <==> IsMas(w[0], w[2], w[4]) && IsMas(w[1], w[2], w[3])
  {
    var w := XWindow(GridOf(lines), x, y);
    GridOfHolds(lines, (x + 2, y + 2));
    XPatternsAreCrossedMas(w);
    if InText(lines, (x + 2, y + 2)) {
      assert w[4] == lines[y + 2][x + 2];
    }
  }
}
