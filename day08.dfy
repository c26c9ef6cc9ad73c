/**
 * Resonant collinearity (src/day_08.py): antennas of one frequency pair up, and each pair (a, b)
 * has the antinodes a + (a - b) and b - (a - b); part_1 counts the distinct antinodes inside the
 * map's extents.
 */
module Day08 {
  import opened Common

  /** Why parse_input fails: with no character in the text, `x` (or `y`) is never bound. */
  datatype Failure = UnboundLocalError

  /** The antennas parse_input records: every non-'.' character, by frequency. */
  ghost predicate AntennasOf(lines: seq<string>, m: map<char, set<Point>>) {
    (forall c :: c in m <==> c != '.' && exists p :: InText(lines, p) && lines[p.1][p.0] == c)
    && (forall c, p :: c in m ==> (p in m[c] <==> InText(lines, p) && lines[p.1][p.0] == c))
  }

  /** The recorded antennas are determined by the text. */
  lemma AntennasUnique(lines: seq<string>, m: map<char, set<Point>>, n: map<char, set<Point>>)
    requires AntennasOf(lines, m) && AntennasOf(lines, n)
    ensures m == n
  {
    forall c
      ensures c in m.Keys <==> c in n.Keys
    {
      if c in m {
        var p :| InText(lines, p) && lines[p.1][p.0] == c;
      }
      if c in n {
        var p :| InText(lines, p) && lines[p.1][p.0] == c;
      }
    }
    assert m.Keys == n.Keys;
    forall c | c in m
      ensures m[c] == n[c]
    {
      assert c in n;
      forall p
        ensures p in m[c] <==> p in n[c]
      {
        assert p in m[c] <==> InText(lines, p) && lines[p.1][p.0] == c;
        assert p in n[c] <==> InText(lines, p) && lines[p.1][p.0] == c;
      }
    }
  }

  /** The last x bound by the loops: the width of the last non-empty line, less one. */
  function LastX(lines: seq<string>): Option<int> {
    if lines == [] then None
    else if lines[|lines| - 1] != [] then Some(|lines[|lines| - 1]| - 1)
    else LastX(lines[..|lines| - 1])
  }

  /** x stays unbound exactly when the text has no character; otherwise it ends on the last one read. */
  lemma {:induction false} LastXIs(lines: seq<string>)
    ensures LastX(lines).None? <==> forall p :: !InText(lines, p)
    ensures LastX(lines).Some? ==>
      exists y :: 0 <= y < |lines| && LastX(lines).value == |lines[y]| - 1 && lines[y] != [] && forall z :: y < z < |lines| ==> lines[z] == []
  {
    if lines != [] {
      var y := |lines| - 1;
      var init := lines[..y];
      assert forall i :: 0 <= i < y ==> init[i] == lines[i];
      if lines[y] == [] {
        LastXIs(init);
        if LastX(init).None? {
          forall p | InText(lines, p)
            ensures false
          {
            assert InText(init, p);
          }
        } else {
          var y' :| 0 <= y' < |init| && LastX(init).value == |init[y']| - 1 && init[y'] != [] && forall z :: y' < z < |init| ==> init[z] == [];
          assert forall z :: y' < z < |lines| ==> lines[z] == [];
          assert InText(lines, (0, y'));
        }
      } else {
        assert InText(lines, (0, y));
      }
    }
  }

  /** `complex(x, y)` after the loops: the last cell read, or the failure of an empty text. */
  function Extents(lines: seq<string>): Result<Point, Failure> {
    match LastX(lines)
    case None => Err(UnboundLocalError)
    case Some(x) => Ok((x, |lines| - 1))
  }

  /** `m` holds exactly the antennas among the cells read so far. */
  ghost predicate Recorded(lines: seq<string>, m: map<char, set<Point>>, row: int, col: int) {
    (forall c :: c in m <==> c != '.' && exists p :: InText(lines, p) && ReadBefore(p, row, col) && lines[p.1][p.0] == c)
    && (forall c, p :: c in m ==> (p in m[c] <==> InText(lines, p) && ReadBefore(p, row, col) && lines[p.1][p.0] == c))
  }

  /** `map[cell].add(complex(x, y))` on the defaultdict. */
  function Record(m: map<char, set<Point>>, cell: char, p: Point): map<char, set<Point>> {
    m[cell := (if cell in m then m[cell] else {}) + {p}]
  }

  lemma RecordStep(lines: seq<string>, m: map<char, set<Point>>, row: nat, col: nat)
    requires row < |lines| && col < |lines[row]| && Recorded(lines, m, row, col)
    ensures var cell := lines[row][col];
      Recorded(lines, if cell != '.' then Record(m, cell, (col, row)) else m, row, col + 1)
  {
    var cell := lines[row][col];
    assert InText(lines, (col, row));
    forall p | InText(lines, p)
      ensures ReadBefore(p, row, col + 1) <==> ReadBefore(p, row, col) || p == (col, row)
    {
    }
  }

  lemma RowDone(lines: seq<string>, m: map<char, set<Point>>, row: nat)
    requires row < |lines| && Recorded(lines, m, row, |lines[row]|)
    ensures Recorded(lines, m, row + 1, 0)
  {
    forall p | InText(lines, p)
      ensures ReadBefore(p, row + 1, 0) <==> ReadBefore(p, row, |lines[row]|)
    {
    }
  }

  lemma AllRead(lines: seq<string>, m: map<char, set<Point>>)
    requires Recorded(lines, m, |lines|, 0)
    ensures AntennasOf(lines, m)
  {
  }

  /** parse_input: the antennas by frequency, then the extents. */
  method ParseInput(puzzle: string) returns (m: map<char, set<Point>>, extents: Result<Point, Failure>)
    ensures AntennasOf(Lines(puzzle), m)
    ensures extents == Extents(Lines(puzzle))
  {
    var lines := Lines(puzzle);
    m := map[];
    var x: Option<int> := None;
    var y: Option<int> := None;
    for row := 0 to |lines|
      invariant Recorded(lines, m, row, 0)
      invariant x == LastX(lines[..row])
      invariant y == if row == 0 then None else Some(row - 1)
    {
      var line := lines[row];
      ghost var before := x;
      for col := 0 to |line|
        invariant Recorded(lines, m, row, col)
        invariant x == if col == 0 then before else Some(col - 1)
      {
        RecordStep(lines, m, row, col);
        var cell := line[col];
        if cell != '.' {
          m := Record(m, cell, (col, row));
        }
        x := Some(col);
      }
      RowDone(lines, m, row);
      y := Some(row);
      assert lines[..row + 1][..row] == lines[..row];
    }
    assert lines[..|lines|] == lines;
    AllRead(lines, m);
    if x.None? || y.None? {
      return m, Err(UnboundLocalError);
    }
    return m, Ok((x.value, y.value));
  }

  /** `a + (a - b)`: the antinode beyond a on the line from b. */
  function Anti(a: Point, b: Point): Point {
    (2 * a.0 - b.0, 2 * a.1 - b.1)
  }

  /** Every antinode of every pair of distinct antennas of one frequency. */
  ghost function AntinodeSet(m: map<char, set<Point>>): set<Point> {
    set c, a, b | c in m && a in m[c] && b in m[c] && a != b :: Anti(a, b)
  }

  /** `in_bounds`: inclusive on both axes, from 0 to the extents. */
  predicate InBounds(a: Point, extents: Point) {
    0 <= a.0 <= extents.0 && 0 <= a.1 <= extents.1
  }

  /** The pair (a, b): the antinode a + (a - b) is as far from a as b is, on the far side. */
  lemma AntinodeGeometry(a: Point, b: Point)
    ensures Anti(a, b) == (a.0 + (a.0 - b.0), a.1 + (a.1 - b.1))
    ensures Anti(b, a) == (b.0 - (a.0 - b.0), b.1 - (a.1 - b.1))
    ensures Anti(a, b).0 - b.0 == 2 * (a.0 - b.0) && Anti(a, b).1 - b.1 == 2 * (a.1 - b.1)
  {
  }

  /** Both antinodes of a same-frequency pair are recorded. */
  lemma PairAntinodes(m: map<char, set<Point>>, c: char, a: Point, b: Point)
    requires c in m && a in m[c] && b in m[c] && a != b
    ensures Anti(a, b) in AntinodeSet(m) && Anti(b, a) in AntinodeSet(m)
  {
  }

  /** Only same-frequency pairs count: one antenna per frequency gives no antinode at all. */
  lemma LoneAntennasNoAntinodes(m: map<char, set<Point>>)
    requires forall c :: c in m ==> |m[c]| <= 1
    ensures AntinodeSet(m) == {}
  {
    forall p | p in AntinodeSet(m)
      ensures false
    {
      var c, a, b :| c in m && a in m[c] && b in m[c] && a != b && p == Anti(a, b);
      AtMostOne(m[c], a, b);
    }
  }

  lemma AtMostOne(s: set<Point>, a: Point, b: Point)
    requires |s| <= 1 && a in s && b in s
    ensures a == b
  {
    var rest := s - {a};
    assert |rest| == |s| - 1;
    assert rest == {};
    assert b !in rest;
  }

  /** The pairs `combinations(positions, 2)` of one frequency yields, each adding both antinodes. */
  method AddPairs(positions: set<Point>, antinodes: set<Point>) returns (r: set<Point>)
    ensures r == antinodes + set a, b | a in positions && b in positions && a != b :: Anti(a, b)
  {
    r := antinodes;
    var rest := positions;
    while rest != {}
      invariant rest <= positions
      invariant forall p :: p in r <==>
        (p in antinodes || exists a, b :: a in positions && b in positions && a != b && (a !in rest || b !in rest) && p == Anti(a, b))
      decreases |rest|
    {
      var a :| a in rest;
      ghost var before := rest;
      rest := rest - {a};
      var others := rest;
      while others != {}
        invariant others <= rest
        invariant forall p :: p in r <==>
          (p in antinodes
           || (exists x, y :: x in positions && y in positions && x != y && (x !in before || y !in before) && p == Anti(x, y))
           || (exists b :: b in rest - others && (p == Anti(a, b) || p == Anti(b, a))))
        decreases |others|
      {
        var b :| b in others;
        r := r + {Anti(a, b), Anti(b, a)};
        others := others - {b};
      }
    }
  }

  /** part_1's loops over the frequencies: the union of the antinodes of every frequency. */
  method CollectAntinodes(m: map<char, set<Point>>) returns (antinodes: set<Point>)
    ensures antinodes == AntinodeSet(m)
  {
    antinodes := {};
    var todo := m.Keys;
    while todo != {}
      invariant todo <= m.Keys
      invariant antinodes == set c, a, b | c in m.Keys - todo && a in m[c] && b in m[c] && a != b :: Anti(a, b)
      decreases |todo|
    {
      var c :| c in todo;
      antinodes := AddPairs(m[c], antinodes);
      todo := todo - {c};
    }
  }

  /** part_1: the distinct antinodes within the extents. */
  method Part1(puzzle: string) returns (r: Result<nat, Failure>)
    ensures Extents(Lines(puzzle)).Err? ==> r == Err(UnboundLocalError)
    ensures Extents(Lines(puzzle)).Ok? ==>
      exists m :: AntennasOf(Lines(puzzle), m) && r == Ok(|set p | p in AntinodeSet(m) && InBounds(p, Extents(Lines(puzzle)).value)|)
  {
    var m, extents := ParseInput(puzzle);
    if extents.Err? {
      return Err(UnboundLocalError);
    }
    var antinodes := CollectAntinodes(m);
    var ext := extents.value;
    r := Ok(|set p | p in antinodes && InBounds(p, ext)|);
  }
}
