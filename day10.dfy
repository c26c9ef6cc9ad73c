/**
 * Hoof It (src/day_10.py): a topographic map of digit heights; a hiking trail climbs by exactly one
 * per 4-neighbour step from height 0, and a trailhead's score is the number of distinct height-9
 * cells its trails reach.
 */
module Day10 {
  import opened Common

  /** `walk_trail`'s direction list. */
  const Dirs: seq<Point> := [(1, 0), (0, 1), (-1, 0), (0, -1)]

  /** The heights parse_input reads are single digits. */
  predicate Heights(m: map<Point, int>) {
    forall p :: p in m ==> 0 <= m[p] <= 9
  }

  /** A read of the defaultdict: cells that are not digits read as 0. */
  function Height(m: map<Point, int>, p: Point): int {
    if p in m then m[p] else 0
  }

  /** The map parse_input builds: a key for every digit cell of the text, holding its value. */
  ghost predicate Parsed(lines: seq<string>, m: map<Point, int>) {
    (forall p :: p in m <==> InText(lines, p) && IsDigit(lines[p.1][p.0]))
    && (forall p :: p in m ==> m[p] == (lines[p.1][p.0] - '0') as int)
  }

  /** The digit cells among those read so far are in `m`. */
  ghost predicate Recorded(lines: seq<string>, m: map<Point, int>, row: int, col: int) {
    (forall p :: p in m <==> InText(lines, p) && ReadBefore(p, row, col) && IsDigit(lines[p.1][p.0]))
    && (forall p :: p in m ==> InText(lines, p) && m[p] == (lines[p.1][p.0] - '0') as int)
  }

  lemma RecordStep(lines: seq<string>, m: map<Point, int>, row: nat, col: nat)
    requires row < |lines| && col < |lines[row]| && Recorded(lines, m, row, col)
    ensures var c := lines[row][col];
      Recorded(lines, if IsDigit(c) then m[(col, row) := (c - '0') as int] else m, row, col + 1)
  {
    assert InText(lines, (col, row));
    forall p | InText(lines, p)
      ensures ReadBefore(p, row, col + 1) <==> ReadBefore(p, row, col) || p == (col, row)
    {
    }
  }

  lemma RowDone(lines: seq<string>, m: map<Point, int>, row: nat)
    requires row < |lines| && Recorded(lines, m, row, |lines[row]|)
    ensures Recorded(lines, m, row + 1, 0)
  {
    forall p | InText(lines, p)
      ensures ReadBefore(p, row + 1, 0) <==> ReadBefore(p, row, |lines[row]|)
    {
    }
  }

  /** parse_input: `int(value)` of every character, keeping those that do not raise. */
  method ParseInput(puzzle: string) returns (m: map<Point, int>)
    ensures Parsed(Lines(puzzle), m) && Heights(m)
  {
    var lines := Lines(puzzle);
    m := map[];
    for row := 0 to |lines|
      invariant Recorded(lines, m, row, 0)
    {
      var line := lines[row];
      for col := 0 to |line|
        invariant Recorded(lines, m, row, col)
      {
        RecordStep(lines, m, row, col);
        if IsDigit(line[col]) {
          m := m[(col, row) := (line[col] - '0') as int];
        }
      }
      RowDone(lines, m, row);
    }
  }

  /** The four positions next to p, in `walk_trail`'s direction order. */
  function Neighbours(p: Point): seq<Point> {
    [Add(p, Dirs[0]), Add(p, Dirs[1]), Add(p, Dirs[2]), Add(p, Dirs[3])]
  }

  /** One step of a trail: to a 4-neighbour exactly one higher. */
  predicate Climb(m: map<Point, int>, p: Point, q: Point) {
    q in Neighbours(p) && Height(m, q) - Height(m, p) == 1
  }

  /** The positions one step of a trail away from p. */
  function Next(m: map<Point, int>, p: Point): (r: set<Point>)
    ensures forall q :: q in r <==> Climb(m, p, q)
  {
    set q | q in Neighbours(p) && Climb(m, p, q)
  }

  /** The height-9 cells reached from p by climbing one per step (the search does not go past a 9). */
  ghost function Peaks(m: map<Point, int>, p: Point): set<Point>
    requires Heights(m)
    decreases 9 - Height(m, p)
  {
    if Height(m, p) == 9 then {p}
    else set q, r | q in Next(m, p) && r in Peaks(m, q) :: r
  }

  /** A hiking trail: consecutive 4-neighbours, each one higher than the last. */
  predicate IsTrail(m: map<Point, int>, t: seq<Point>) {
    |t| >= 1 && forall i :: 0 <= i < |t| - 1 ==> Climb(m, t[i], t[i + 1])
  }

  /** A trail from s to p. */
  predicate TrailTo(m: map<Point, int>, t: seq<Point>, s: Point, p: Point) {
    IsTrail(m, t) && t[0] == s && t[|t| - 1] == p
  }

  /** Below 9, the peaks of p are those of its successors. */
  lemma PeaksBelowNine(m: map<Point, int>, p: Point, r: Point)
    requires Heights(m) && Height(m, p) != 9
    ensures r in Peaks(m, p) <==> exists q :: q in Next(m, p) && r in Peaks(m, q)
  {
  }

  lemma Prepend(m: map<Point, int>, s: Point, t: seq<Point>)
    requires IsTrail(m, t) && t[0] in Next(m, s)
    ensures IsTrail(m, [s] + t)
  {
    var t' := [s] + t;
    forall i | 0 <= i < |t'| - 1
      ensures Climb(m, t'[i], t'[i + 1])
    {
      if i > 0 {
        assert t'[i] == t[i - 1] && t'[i + 1] == t[i];
      }
    }
  }

  lemma Behead(m: map<Point, int>, t: seq<Point>)
    requires IsTrail(m, t) && |t| > 1
    ensures IsTrail(m, t[1..]) && t[1] in Next(m, t[0])
  {
    var rest := t[1..];
    forall i | 0 <= i < |rest| - 1
      ensures Climb(m, rest[i], rest[i + 1])
    {
      assert rest[i] == t[i + 1] && rest[i + 1] == t[i + 2];
    }
  }

  /** The peaks of s are exactly the height-9 ends of the trails from s: the ends are peaks, ... */
  lemma {:induction false} TrailsReachPeaks(m: map<Point, int>, s: Point, t: seq<Point>)
    requires Heights(m) && IsTrail(m, t) && t[0] == s && Height(m, t[|t| - 1]) == 9
    ensures t[|t| - 1] in Peaks(m, s)
    decreases |t|
  {
    if |t| > 1 {
      Behead(m, t);
      TrailsReachPeaks(m, t[1], t[1..]);
      TrailClimbs(m, t);
      PeaksBelowNine(m, s, t[|t| - 1]);
    }
  }

  /** ... and every peak ends such a trail. */
  lemma {:induction false} PeaksEndTrails(m: map<Point, int>, s: Point, p: Point)
    requires Heights(m) && p in Peaks(m, s)
    ensures Height(m, p) == 9
    ensures exists t :: TrailTo(m, t, s, p)
    decreases 9 - Height(m, s)
  {
    if Height(m, s) == 9 {
      assert TrailTo(m, [s], s, p);
    } else {
      PeaksBelowNine(m, s, p);
      var q :| q in Next(m, s) && p in Peaks(m, q);
      PeaksEndTrails(m, q, p);
      var t :| TrailTo(m, t, q, p);
      Prepend(m, s, t);
      assert TrailTo(m, [s] + t, s, p);
    }
  }

  /** Every step of a trail is one higher, so a trail of n steps climbs exactly n. */
  lemma {:induction false} TrailClimbs(m: map<Point, int>, t: seq<Point>)
    requires IsTrail(m, t)
    ensures Height(m, t[|t| - 1]) == Height(m, t[0]) + |t| - 1
    decreases |t|
  {
    if |t| > 1 {
      var init := t[..|t| - 1];
      assert IsTrail(m, init) by {
        forall i | 0 <= i < |init| - 1
          ensures Climb(m, init[i], init[i + 1])
        {
          assert init[i] == t[i] && init[i + 1] == t[i + 1];
        }
      }
      TrailClimbs(m, init);
      assert Climb(m, t[|t| - 2], t[|t| - 1]);
    }
  }

  /** Termination measure of the search: 5^(10 - height) per queued position. */
  function Weight(m: map<Point, int>, steps: seq<Point>): nat
    requires Heights(m)
  {
    if steps == [] then 0 else Pow5(10 - Height(m, steps[0])) + Weight(m, steps[1..])
  }

  function Pow5(k: nat): (r: nat)
    ensures r >= 1
  {
    if k == 0 then 1 else 5 * Pow5(k - 1)
  }

  lemma {:induction false} WeightAppend(m: map<Point, int>, a: seq<Point>, b: seq<Point>)
    requires Heights(m)
    ensures Weight(m, a + b) == Weight(m, a) + Weight(m, b)
    decreases |a|
  {
    if a != [] {
      assert (a + b)[1..] == a[1..] + b;
      WeightAppend(m, a[1..], b);
    } else {
      assert a + b == b;
    }
  }

  /** Queued positions of one height h weigh 5^(10 - h) each. */
  lemma {:induction false} UniformWeight(m: map<Point, int>, s: seq<Point>, h: int)
    requires Heights(m) && 0 <= h <= 10
    requires forall i :: 0 <= i < |s| ==> Height(m, s[i]) == h
    ensures Weight(m, s) == |s| * Pow5(10 - h)
  {
    if s != [] {
      var rest := s[1..];
      UniformWeight(m, rest, h);
      WeightCons(m, s);
      assert Height(m, s[0]) == h;
      MulSucc(|s|, |rest|, Pow5(10 - h));
    }
  }

  /** Replacing a position below 9 by at most four positions one higher lowers the weight. */
  lemma Shrinks(m: map<Point, int>, steps: seq<Point>, added: seq<Point>)
    requires Heights(m) && steps != [] && Height(m, steps[0]) < 9 && |added| <= 4
    requires forall i :: 0 <= i < |added| ==> Height(m, added[i]) == Height(m, steps[0]) + 1
    ensures Weight(m, steps[1..] + added) < Weight(m, steps)
  {
    var h := Height(m, steps[0]);
    var rest := steps[1..];
    WeightCons(m, steps);
    WeightAppend(m, rest, added);
    UniformWeight(m, added, h + 1);
    Pow5Succ(9 - h);
    Lighter(|added|, Pow5(9 - h), Pow5(10 - h), Weight(m, rest));
  }

  lemma WeightCons(m: map<Point, int>, steps: seq<Point>)
    requires Heights(m) && steps != []
    ensures Weight(m, steps) == Pow5(10 - Height(m, steps[0])) + Weight(m, steps[1..])
  {
  }

  lemma Pow5Succ(k: nat)
    ensures Pow5(k + 1) == 5 * Pow5(k)
  {
  }

  /** At most four of weight p weigh less than five of them. */
  lemma Lighter(k: nat, p: nat, head: nat, w: nat)
    requires k <= 4 && p >= 1 && head == 5 * p
    ensures w + k * p < head + w
  {
    MulMono(k, 4, p);
  }

  lemma MulSucc(k: nat, n: nat, p: nat)
    requires k == n + 1
    ensures k * p == p + n * p
  {
  }

  lemma MulMono(a: nat, b: nat, p: nat)
    requires a <= b
    ensures a * p <= b * p
  {
  }

  /** The peaks still to be found: those of the queued positions. */
  ghost predicate Pending(m: map<Point, int>, start: Point, steps: seq<Point>, found: set<Point>)
    requires Heights(m)
  {
    (forall i :: 0 <= i < |steps| ==> Peaks(m, steps[i]) <= Peaks(m, start))
    && found <= Peaks(m, start)
    && (forall p :: p in Peaks(m, start) ==> p in found || exists i :: 0 <= i < |steps| && p in Peaks(m, steps[i]))
  }

  /** Expanding a position below 9 replaces it in the queue by its successors. */
  lemma Expand(m: map<Point, int>, start: Point, steps: seq<Point>, found: set<Point>, added: seq<Point>)
    requires Heights(m) && steps != [] && Height(m, steps[0]) != 9
    requires Pending(m, start, steps, found)
    requires forall q :: q in added <==> q in Next(m, steps[0])
    ensures Pending(m, start, steps[1..] + added, found)
  {
    ExpandWithin(m, start, steps, found, added);
    ExpandCovers(m, start, steps, found, added);
  }

  /** The successors of a queued position reach only peaks it reaches. */
  lemma ExpandWithin(m: map<Point, int>, start: Point, steps: seq<Point>, found: set<Point>, added: seq<Point>)
    requires Heights(m) && steps != [] && Height(m, steps[0]) != 9
    requires Pending(m, start, steps, found)
    requires forall q :: q in added <==> q in Next(m, steps[0])
    ensures var rest := steps[1..] + added;
      forall i :: 0 <= i < |rest| ==> Peaks(m, rest[i]) <= Peaks(m, start)
  {
    var position := steps[0];
    var rest := steps[1..] + added;
    forall i | 0 <= i < |rest|
      ensures Peaks(m, rest[i]) <= Peaks(m, start)
    {
      if i >= |steps| - 1 {
        assert rest[i] in Next(m, position);
      } else {
        assert rest[i] == steps[i + 1];
      }
    }
  }

  /** Every peak still to be found is reached from the queue once a position is replaced by its successors. */
  lemma ExpandCovers(m: map<Point, int>, start: Point, steps: seq<Point>, found: set<Point>, added: seq<Point>)
    requires Heights(m) && steps != [] && Height(m, steps[0]) != 9
    requires forall p :: p in Peaks(m, start) ==> p in found || exists i :: 0 <= i < |steps| && p in Peaks(m, steps[i])
    requires forall q :: q in added <==> q in Next(m, steps[0])
    ensures var rest := steps[1..] + added;
      forall p :: p in Peaks(m, start) ==> p in found || exists i :: 0 <= i < |rest| && p in Peaks(m, rest[i])
  {
    var rest := steps[1..] + added;
    forall p | p in Peaks(m, start) && p !in found
      ensures exists i :: 0 <= i < |rest| && p in Peaks(m, rest[i])
    {
      var i :| 0 <= i < |steps| && p in Peaks(m, steps[i]);
      var j := CoverOne(m, steps, added, p, i);
    }
  }

  /** A peak of a queued position is a peak of a position queued after the first is expanded. */
  lemma CoverOne(m: map<Point, int>, steps: seq<Point>, added: seq<Point>, p: Point, i: int) returns (j: int)
    requires Heights(m) && steps != [] && Height(m, steps[0]) != 9
    requires forall q :: q in added <==> q in Next(m, steps[0])
    requires 0 <= i < |steps| && p in Peaks(m, steps[i])
    ensures 0 <= j < |steps[1..] + added| && p in Peaks(m, (steps[1..] + added)[j])
  {
    var rest := steps[1..] + added;
    if i == 0 {
      var k := Successor(m, steps[0], p, added);
      j := |steps| - 1 + k;
      AppendedAt(steps[1..], added, j);
      assert rest[j] == added[k];
    } else {
      j := i - 1;
      AppendedAt(steps[1..], added, j);
      assert rest[j] == steps[i];
    }
  }

  /** A peak of a position below 9 is a peak of one of its listed successors. */
  lemma Successor(m: map<Point, int>, position: Point, p: Point, added: seq<Point>) returns (k: nat)
    requires Heights(m) && Height(m, position) != 9 && p in Peaks(m, position)
    requires forall q :: q in added <==> q in Next(m, position)
    ensures k < |added| && p in Peaks(m, added[k])
  {
    PeaksBelowNine(m, position, p);
    var q :| q in Next(m, position) && p in Peaks(m, q);
    k :| k < |added| && added[k] == q;
  }

  /** Indexing into a concatenation. */
  lemma AppendedAt<T>(a: seq<T>, b: seq<T>, k: int)
    requires 0 <= k < |a| + |b|
    ensures (a + b)[k] == if k < |a| then a[k] else b[k - |a|]
  {
  }

  /** A position of height 9 is itself found. */
  lemma Reach(m: map<Point, int>, start: Point, steps: seq<Point>, found: set<Point>)
    requires Heights(m) && steps != [] && Height(m, steps[0]) == 9
    requires Pending(m, start, steps, found)
    ensures Pending(m, start, steps[1..], found + {steps[0]})
  {
    var rest := steps[1..];
    forall i | 0 <= i < |rest|
      ensures Peaks(m, rest[i]) <= Peaks(m, start)
    {
      assert rest[i] == steps[i + 1];
    }
    forall p | p in Peaks(m, start) && p !in found + {steps[0]}
      ensures exists i :: 0 <= i < |rest| && p in Peaks(m, rest[i])
    {
      var i :| 0 <= i < |steps| && p in Peaks(m, steps[i]);
      assert i != 0;
      assert rest[i - 1] == steps[i];
    }
  }

  /** One trailhead's search in `walk_trail`: a queue, expanding every step one higher. */
  method Explore(m: map<Point, int>, start: Point) returns (found: set<Point>)
    requires Heights(m)
    ensures found == Peaks(m, start)
  {
    var steps := [start];
    found := {};
    while steps != []
      invariant Pending(m, start, steps, found)
      decreases Weight(m, steps)
    {
      var position := steps[0];
      if Height(m, position) == 9 {
        Reach(m, start, steps, found);
        steps := steps[1..];
        found := found + {position};
      } else {
        var added := [];
        for k := 0 to |Dirs|
          invariant forall q :: q in added <==> q in Neighbours(position)[..k] && Climb(m, position, q)
          invariant |added| <= k
          invariant forall i :: 0 <= i < |added| ==> Height(m, added[i]) == Height(m, position) + 1
        {
          var newPosition := Add(position, Dirs[k]);
          assert Neighbours(position)[..k + 1] == Neighbours(position)[..k] + [newPosition];
          if Height(m, newPosition) - Height(m, position) == 1 {
            added := added + [newPosition];
          }
        }
        assert Neighbours(position)[..|Dirs|] == Neighbours(position);
        Expand(m, start, steps, found, added);
        Shrinks(m, steps, added);
        steps := steps[1..] + added;
      }
    }
  }

  /** walk_trail's score: the sum of the trailheads' peak counts. */
  ghost function Score(m: map<Point, int>, starts: seq<Point>): nat
    requires Heights(m)
  {
    if starts == [] then 0 else Score(m, starts[..|starts| - 1]) + |Peaks(m, starts[|starts| - 1])|
  }

  method WalkTrail(m: map<Point, int>, starts: seq<Point>) returns (score: nat)
    requires Heights(m)
    ensures score == Score(m, starts)
  {
    score := 0;
    for i := 0 to |starts|
      invariant score == Score(m, starts[..i])
    {
      assert starts[..i + 1][..i] == starts[..i];
      var found := Explore(m, starts[i]);
      score := score + |found|;
    }
    assert starts[..|starts|] == starts;
  }

  /** part_1's trailheads: every cell of height 0, once each. */
  ghost predicate Trailheads(m: map<Point, int>, starts: seq<Point>) {
    (forall p :: p in starts <==> p in m && m[p] == 0)
    && forall i, j :: 0 <= i < j < |starts| ==> starts[i] != starts[j]
  }

  method FindStarts(m: map<Point, int>) returns (starts: seq<Point>)
    ensures Trailheads(m, starts)
  {
    starts := [];
    var todo := m.Keys;
    while todo != {}
      invariant todo <= m.Keys
      invariant forall p :: p in starts <==> p in m.Keys - todo && m[p] == 0
      invariant forall i, j :: 0 <= i < j < |starts| ==> starts[i] != starts[j]
      decreases |todo|
    {
      var position :| position in todo;
      if m[position] == 0 {
        starts := starts + [position];
      }
      todo := todo - {position};
    }
  }

  /** part_1: the total score of the trailheads of the map. */
  method Part1(puzzle: string) returns (r: nat)
    ensures exists m, starts :: Parsed(Lines(puzzle), m) && Heights(m) && Trailheads(m, starts) && r == Score(m, starts)
  {
    var m := ParseInput(puzzle);
    var starts := FindStarts(m);
    r := WalkTrail(m, starts);
  }
}
