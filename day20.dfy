/**
 * Race condition (src/day_20.py): the racetrack is read off a grid, the single path from S to E
 * is followed greedily, and every pair of path cells at most two apart (a two-picosecond cheat
 * through a wall) is tallied by the time it saves.
 */
module Day20 {
  import opened Common

  // ---------------------------------------------------------------------------------------------
  // parse_input: the grid scan

  /** The track cells read before (col, row): every character that is not a wall. */
  function TrackBefore(lines: seq<string>, row: int, col: int): set<Point> {
    set y, x | 0 <= y < |lines| && 0 <= x < |lines[y]| && ReadBefore((x, y), row, col) && lines[y][x] != '#' :: (x, y)
  }

  /** The whole track. */
  function Track(lines: seq<string>): set<Point> {
    TrackBefore(lines, |lines|, 0)
  }

  /** A cell of the text holding c. */
  predicate Holds(lines: seq<string>, p: Point, c: char) {
    InText(lines, p) && lines[p.1][p.0] == c
  }

  /**
   * `found` is the last cell holding c among those read before (col, row), or None when there is
   * none yet: the assignment `start = complex(x, y)` keeps only the latest one.
   */
  ghost predicate Latest(lines: seq<string>, c: char, row: int, col: int, found: Option<Point>) {
    match found
    case None => forall p :: Holds(lines, p, c) ==> !ReadBefore(p, row, col)
    case Some(s) =>
      Holds(lines, s, c) && ReadBefore(s, row, col) &&
      forall p :: Holds(lines, p, c) && ReadBefore(p, row, col) ==> p == s || ReadBefore(p, s.1, s.0)
  }

  /** The rightmost position of c on a line. */
  function LastInRow(line: string, c: char): (r: Option<nat>)
    ensures r.Some? ==> r.value < |line| && line[r.value] == c && forall x :: r.value < x < |line| ==> line[x] != c
    ensures r.None? ==> forall x :: 0 <= x < |line| ==> line[x] != c
  {
    if line == [] then None
    else if line[|line| - 1] == c then Some(|line| - 1)
    else LastInRow(line[..|line| - 1], c)
  }

  /** The last cell holding c in reading order. */
  function LastIn(lines: seq<string>, c: char): (r: Option<Point>)
    ensures Latest(lines, c, |lines|, 0, r)
  {
    if lines == [] then None
    else
      var y := |lines| - 1;
      match LastInRow(lines[y], c)
      case Some(x) => Some((x, y))
      case None =>
        var r := LastIn(lines[..y], c);
        assert forall p :: Holds(lines, p, c) && p.1 < y ==> Holds(lines[..y], p, c);
        r
  }

  /** S's and E's position, or 0 when the grid has none. */
  function Marker(lines: seq<string>, c: char): Point {
    match LastIn(lines, c)
    case Some(p) => p
    case None => (0, 0)
  }

  /** The last-occurrence property pins the cell down. */
  lemma LatestUnique(lines: seq<string>, c: char, row: int, col: int, a: Option<Point>, b: Option<Point>)
    requires Latest(lines, c, row, col, a) && Latest(lines, c, row, col, b)
    ensures a == b
  {
  }

  lemma TrackStep(lines: seq<string>, row: int, col: int)
    requires 0 <= row < |lines| && 0 <= col < |lines[row]|
    ensures TrackBefore(lines, row, col + 1)
         == TrackBefore(lines, row, col) + (if lines[row][col] != '#' then {(col, row)} else {})
  {
  }

  lemma TrackRow(lines: seq<string>, row: int)
    requires 0 <= row < |lines|
    ensures TrackBefore(lines, row, |lines[row]|) == TrackBefore(lines, row + 1, 0)
  {
  }

  /** The nested loops of `parse_input` that collect the track and remember the last S and E. */
  method ScanGrid(lines: seq<string>) returns (track: set<Point>, start: Point, end: Point)
    ensures track == Track(lines)
    ensures start == Marker(lines, 'S') && end == Marker(lines, 'E')
  {
    track := {};
    var s: Option<Point> := None;
    var e: Option<Point> := None;
    for y := 0 to |lines|
      invariant track == TrackBefore(lines, y, 0)
      invariant Latest(lines, 'S', y, 0, s) && Latest(lines, 'E', y, 0, e)
    {
      var line := lines[y];
      for x := 0 to |line|
        invariant track == TrackBefore(lines, y, x)
        invariant Latest(lines, 'S', y, x, s) && Latest(lines, 'E', y, x, e)
      {
        TrackStep(lines, y, x);
        if line[x] != '#' {
          track := track + {(x, y)};
        }
        if line[x] == 'S' {
          s := Some((x, y));
        }
        if line[x] == 'E' {
          e := Some((x, y));
        }
      }
      TrackRow(lines, y);
    }
    LatestUnique(lines, 'S', |lines|, 0, s, LastIn(lines, 'S'));
    LatestUnique(lines, 'E', |lines|, 0, e, LastIn(lines, 'E'));
    start := if s.Some? then s.value else (0, 0);
    end := if e.Some? then e.value else (0, 0);
  }

  // ---------------------------------------------------------------------------------------------
  // parse_input: following the path

  /** The candidate order of the walk: +1j, -1j, +1, -1. */
  const Steps: seq<Point> := [(0, 1), (0, -1), (1, 0), (-1, 0)]

  /** `abs(a.real - b.real) + abs(a.imag - b.imag)`. */
  function Manhattan(a: Point, b: Point): int {
    Abs(a.0 - b.0) + Abs(a.1 - b.1)
  }

  /** The distance is a metric's: non-negative, symmetric, and zero only between equal cells. */
  lemma ManhattanMetric(a: Point, b: Point)
    ensures Manhattan(a, b) >= 0
    ensures Manhattan(a, b) == Manhattan(b, a)
    ensures Manhattan(a, b) == 0 <==> a == b
  {
  }

  /** The distance obeys the triangle inequality. */
  lemma ManhattanTriangle(a: Point, b: Point, c: Point)
    ensures Manhattan(a, c) <= Manhattan(a, b) + Manhattan(b, c)
  {
  }

  predicate Open(track: set<Point>, path: seq<Point>, q: Point) {
    q in track && q !in path
  }

  /** The first of the candidates from Steps[k] on that is on the track and not yet on the path. */
  function NextFrom(track: set<Point>, path: seq<Point>, p: Point, k: nat): (r: Option<Point>)
    requires k <= |Steps|
    ensures r.Some? ==> exists j :: k <= j < |Steps| && r.value == Add(p, Steps[j]) && Open(track, path, r.value)
    ensures r.None? ==> forall j :: k <= j < |Steps| ==> !Open(track, path, Add(p, Steps[j]))
    decreases |Steps| - k
  {
    if k == |Steps| then None
    else if Open(track, path, Add(p, Steps[k])) then Some(Add(p, Steps[k]))
    else NextFrom(track, path, p, k + 1)
  }

  /** The step the inner `for` loop takes from the end of the path, if any. */
  function Next(track: set<Point>, path: seq<Point>): (r: Option<Point>)
    requires path != []
    ensures r.Some? ==> r.value in track && r.value !in path && Manhattan(path[|path| - 1], r.value) == 1
    ensures r.None? ==> forall q :: Manhattan(path[|path| - 1], q) == 1 ==> !Open(track, path, q)
  {
    var p := path[|path| - 1];
    var r := NextFrom(track, path, p, 0);
    if r.None? then
      forall q | Manhattan(p, q) == 1
        ensures !Open(track, path, q)
      {
        var d := (q.0 - p.0, q.1 - p.1);
        assert d in Steps && q == Add(p, d);
      }
      r
    else r
  }

  /** The walk ends at E, or gets stuck where `parse_input`'s `while` loop would spin forever. */
  datatype Walk = Reached(path: seq<Point>) | Stuck(path: seq<Point>)

  function Elems(path: seq<Point>): set<Point> {
    set p | p in path
  }

  lemma Fewer(track: set<Point>, path: seq<Point>, q: Point)
    requires q in track && q !in path
    ensures |track - Elems(path + [q])| < |track - Elems(path)|
  {
    assert track - Elems(path + [q]) == (track - Elems(path)) - {q};
  }

  /** The walk `parse_input` makes, continuing from `path`. */
  function Follow(track: set<Point>, end: Point, path: seq<Point>): Walk
    requires path != []
    decreases |track - Elems(path)|
  {
    if path[|path| - 1] == end then Reached(path)
    else
      match Next(track, path)
      case None => Stuck(path)
      case Some(q) =>
        Fewer(track, path, q);
        Follow(track, end, path + [q])
  }

  predicate Distinct(s: seq<Point>) {
    forall i, j :: 0 <= i < j < |s| ==> s[i] != s[j]
  }

  /** Every step after the first is the one `Next` picks. */
  ghost predicate Greedy(track: set<Point>, path: seq<Point>) {
    forall i :: 1 <= i < |path| ==> Next(track, path[..i]) == Some(path[i])
  }

  /** A path from `start`: 4-adjacent steps onto track cells, never revisiting one. */
  ghost predicate Trail(track: set<Point>, start: Point, path: seq<Point>) {
    |path| >= 1 && path[0] == start && Distinct(path) &&
    forall i :: 1 <= i < |path| ==> path[i] in track && Manhattan(path[i - 1], path[i]) == 1
  }

  /** A greedy step keeps a trail a trail. */
  lemma Extend(track: set<Point>, start: Point, path: seq<Point>, q: Point)
    requires Trail(track, start, path) && Greedy(track, path) && Next(track, path) == Some(q)
    ensures Trail(track, start, path + [q]) && Greedy(track, path + [q])
  {
    ExtendTrail(track, start, path, q);
    ExtendGreedy(track, path, q);
  }

  lemma ExtendTrail(track: set<Point>, start: Point, path: seq<Point>, q: Point)
    requires Trail(track, start, path) && q in track && q !in path && Manhattan(path[|path| - 1], q) == 1
    ensures Trail(track, start, path + [q])
  {
    var p' := path + [q];
    forall i, j | 0 <= i < j < |p'|
      ensures p'[i] != p'[j]
    {
      if j == |path| {
        assert p'[i] in path;
      }
    }
  }

  lemma ExtendGreedy(track: set<Point>, path: seq<Point>, q: Point)
    requires path != [] && Greedy(track, path) && Next(track, path) == Some(q)
    ensures Greedy(track, path + [q])
  {
    var p' := path + [q];
    forall i | 1 <= i < |p'|
      ensures Next(track, p'[..i]) == Some(p'[i])
    {
      assert p'[..i] == path[..i];
    }
  }

  /** `parse_input`'s `while` loop, which appends the first open neighbour of the path's end. */
  method FollowTrack(track: set<Point>, start: Point, end: Point) returns (w: Walk)
    ensures w == Follow(track, end, [start])
    ensures Trail(track, start, w.path) && Greedy(track, w.path)
    ensures w.Reached? ==> w.path[|w.path| - 1] == end
    ensures w.Stuck? ==> w.path[|w.path| - 1] != end && Next(track, w.path).None?
  {
    var path := [start];
    while path[|path| - 1] != end
      invariant Trail(track, start, path) && Greedy(track, path)
      invariant Follow(track, end, path) == Follow(track, end, [start])
      decreases |track - Elems(path)|
    {
      match Next(track, path)
      case None =>
        return Stuck(path);
      case Some(q) =>
        Extend(track, start, path, q);
        Fewer(track, path, q);
        path := path + [q];
    }
    w := Reached(path);
  }

  /** The path `parse_input` returns, read as a walk over the grid text. */
  function Path(puzzle: string): Walk {
    var lines := Split(puzzle);
    Follow(Track(lines), Marker(lines, 'E'), [Marker(lines, 'S')])
  }

  /** `parse_input`: scan the grid, then follow the path from S until E. */
  method ParseInput(puzzle: string) returns (w: Walk)
    ensures w == Path(puzzle)
    ensures Trail(Track(Split(puzzle)), Marker(Split(puzzle), 'S'), w.path)
    ensures w.Reached? <==> w.path[|w.path| - 1] == Marker(Split(puzzle), 'E')
  {
    var lines := Split(puzzle);
    var track, start, end := ScanGrid(lines);
    w := FollowTrack(track, start, end);
  }

  // ---------------------------------------------------------------------------------------------
  // count_cheets

  /** `path.index(p)`: the first position holding p. */
  function Index(path: seq<Point>, p: Point): (i: nat)
    requires p in path
    ensures i < |path| && path[i] == p && forall t :: 0 <= t < i ==> path[t] != p
  {
    IndexFrom(path, p, 0)
  }

  /** The first position from k on holding p. */
  function IndexFrom(path: seq<Point>, p: Point, k: nat): (i: nat)
    requires k <= |path| && exists t :: k <= t < |path| && path[t] == p
    ensures k <= i < |path| && path[i] == p && forall t :: k <= t < i ==> path[t] != p
    decreases |path| - k
  {
    if path[k] == p then k else IndexFrom(path, p, k + 1)
  }

  /** On a path without repeats, `index` gives back the position. */
  lemma IndexDistinct(path: seq<Point>, i: int)
    requires Distinct(path) && 0 <= i < |path|
    ensures Index(path, path[i]) == i
  {
  }

  /** What the pair (path[i], path[j]) adds to the tally: the index gap less the cheat's 2 steps. */
  function Cheat(path: seq<Point>, i: int, j: int): Option<int>
    requires 0 <= i < j < |path|
  {
    if Manhattan(path[i], path[j]) <= 2 then
      var diff := (Index(path, path[j]) - Index(path, path[i])) - 2;
      if diff > 0 then Some(diff) else None
    else None
  }

  /** On a trail a pair counts exactly when it is at most 2 apart and more than 2 steps along. */
  lemma CheatOnTrail(path: seq<Point>, i: int, j: int)
    requires Distinct(path) && 0 <= i < j < |path|
    ensures Cheat(path, i, j) == if Manhattan(path[i], path[j]) <= 2 && j - i > 2 then Some(j - i - 2) else None
  {
    IndexDistinct(path, i);
    IndexDistinct(path, j);
  }

  function Tally(c: Option<int>): seq<int> {
    match c
    case Some(d) => [d]
    case None => []
  }

  /** The savings of the pairs (i, j) with i < j < k, in `combinations` order. */
  function Row(path: seq<Point>, i: int, k: int): seq<int>
    requires 0 <= i < |path| && k <= |path|
    decreases k
  {
    if k <= i + 1 then [] else Row(path, i, k - 1) + Tally(Cheat(path, i, k - 1))
  }

  /** The savings of every pair whose first cell is among the first n, in `combinations` order. */
  function Savings(path: seq<Point>, n: int): seq<int>
    requires 0 <= n <= |path|
  {
    if n == 0 then [] else Savings(path, n - 1) + Row(path, n - 1, |path|)
  }

  lemma {:induction false} RowAre(path: seq<Point>, i: int, k: int, d: int)
    requires 0 <= i < |path| && k <= |path|
    ensures d in Row(path, i, k) <==> exists j :: i < j < k && Cheat(path, i, j) == Some(d)
    decreases k
  {
    if k > i + 1 {
      RowAre(path, i, k - 1, d);
    }
  }

  /** A pair among the first n rows records d. */
  ghost predicate RecordedBy(path: seq<Point>, n: int, d: int) {
    exists i, j :: 0 <= i < n && i < j < |path| && Cheat(path, i, j) == Some(d)
  }

  /** The savings recorded for the pairs whose first cell is among the first n. */
  lemma {:induction false} SavingsAre(path: seq<Point>, n: int, d: int)
    requires 0 <= n <= |path|
    ensures d in Savings(path, n) <==> RecordedBy(path, n, d)
  {
    if n > 0 {
      var m := n - 1;
      SavingsAre(path, m, d);
      RowAre(path, m, |path|, d);
      assert Savings(path, n) == Savings(path, m) + Row(path, m, |path|);
      if d in Savings(path, n) {
        if d in Savings(path, m) {
          var i, j :| 0 <= i < m && i < j < |path| && Cheat(path, i, j) == Some(d);
          assert 0 <= i < n;
        } else {
          var j :| m < j < |path| && Cheat(path, m, j) == Some(d);
          assert 0 <= m < n;
        }
      }
      if RecordedBy(path, n, d) {
        var i, j :| 0 <= i < n && i < j < |path| && Cheat(path, i, j) == Some(d);
        if i < m {
          assert RecordedBy(path, m, d);
        } else {
          assert i == m;
        }
      }
    }
  }

  /** Every saving in the tally is positive and comes from two cells at most 2 apart. */
  lemma SavingsPositive(path: seq<Point>, d: int)
    requires d in Savings(path, |path|)
    ensures d > 0
    ensures exists i, j :: 0 <= i < j < |path| && Manhattan(path[i], path[j]) <= 2
  {
    SavingsAre(path, |path|, d);
  }

  /** `cheats` is the histogram of the savings: saving ↦ how often it occurs. */
  ghost predicate Histogram(cheats: map<int, nat>, xs: seq<int>) {
    Counts(cheats, multiset(xs))
  }

  ghost predicate Counts(cheats: map<int, nat>, bag: multiset<int>) {
    forall d {:trigger bag[d]} :: (d in cheats <==> d in bag) && (d in cheats ==> cheats[d] == bag[d])
  }

  /** `cheats[diff] += 1` on a defaultdict. */
  function Bump(cheats: map<int, nat>, d: int): map<int, nat> {
    cheats[d := if d in cheats then cheats[d] + 1 else 1]
  }

  lemma BumpHistogram(cheats: map<int, nat>, xs: seq<int>, c: Option<int>)
    requires Histogram(cheats, xs)
    ensures Histogram(if c.Some? then Bump(cheats, c.value) else cheats, xs + Tally(c))
  {
    assert multiset(xs + Tally(c)) == multiset(xs) + multiset(Tally(c));
    if c.Some? {
      assert multiset(Tally(c)) == multiset{c.value};
    }
  }

  /** One pair of `count_cheets`: the tally grows by the pair's saving, if any. */
  lemma CountStep(path: seq<Point>, i: int, j: int, cheats: map<int, nat>)
    requires 0 <= i < j < |path|
    requires Histogram(cheats, Savings(path, i) + Row(path, i, j))
    ensures Histogram(if Cheat(path, i, j).Some? then Bump(cheats, Cheat(path, i, j).value) else cheats,
                      Savings(path, i) + Row(path, i, j + 1))
  {
    var c := Cheat(path, i, j);
    var done := Savings(path, i) + Row(path, i, j);
    assert Row(path, i, j + 1) == Row(path, i, j) + Tally(c);
    assert done + Tally(c) == Savings(path, i) + Row(path, i, j + 1);
    BumpHistogram(cheats, done, c);
  }

  /** Row i of the pairs starts empty. */
  lemma RowStart(path: seq<Point>, i: int, cheats: map<int, nat>)
    requires 0 <= i < |path| && Histogram(cheats, Savings(path, i))
    ensures Histogram(cheats, Savings(path, i) + Row(path, i, i + 1))
  {
    assert Savings(path, i) + Row(path, i, i + 1) == Savings(path, i);
  }

  /** Row i, once finished, completes the savings of the first i + 1 rows. */
  lemma RowEnd(path: seq<Point>, i: int, cheats: map<int, nat>)
    requires 0 <= i < |path| && Histogram(cheats, Savings(path, i) + Row(path, i, |path|))
    ensures Histogram(cheats, Savings(path, i + 1))
  {
  }

  /** `count_cheets`: every pair of `combinations(path, 2)` at most 2 apart adds its saving. */
  method CountCheats(path: seq<Point>) returns (cheats: map<int, nat>)
    ensures Histogram(cheats, Savings(path, |path|))
  {
    cheats := map[];
    for i := 0 to |path|
      invariant Histogram(cheats, Savings(path, i))
    {
      cheats := CountFrom(path, i, cheats);
    }
  }

  /** The pairs of `combinations(path, 2)` whose first cell is path[i]. */
  method CountFrom(path: seq<Point>, i: int, cheats: map<int, nat>) returns (cheats': map<int, nat>)
    requires 0 <= i < |path| && Histogram(cheats, Savings(path, i))
    ensures Histogram(cheats', Savings(path, i + 1))
  {
    cheats' := cheats;
    RowStart(path, i, cheats');
    for j := i + 1 to |path|
      invariant Histogram(cheats', Savings(path, i) + Row(path, i, j))
    {
      CountStep(path, i, j, cheats');
      var saving := Cheat(path, i, j);
      if saving.Some? {
        cheats' := Bump(cheats', saving.value);
      }
    }
    RowEnd(path, i, cheats');
  }

  // ---------------------------------------------------------------------------------------------
  // part_1

  /** The least saving `part_1` counts. */
  const Threshold: int := 100

  /** How many of the savings reach the threshold. */
  function Big(xs: seq<int>): nat {
    if xs == [] then 0 else Big(xs[..|xs| - 1]) + (if xs[|xs| - 1] >= Threshold then 1 else 0)
  }

  /** How many of the savings reach the threshold and are among `keys`. */
  function BigIn(xs: seq<int>, keys: set<int>): nat {
    if xs == [] then 0
    else BigIn(xs[..|xs| - 1], keys) + (if xs[|xs| - 1] >= Threshold && xs[|xs| - 1] in keys then 1 else 0)
  }

  lemma {:induction false} BigInAdd(xs: seq<int>, keys: set<int>, d: int)
    requires d !in keys
    ensures BigIn(xs, keys + {d}) == BigIn(xs, keys) + (if d >= Threshold then multiset(xs)[d] else 0)
  {
    if xs != [] {
      var n := |xs| - 1;
      BigInAdd(xs[..n], keys, d);
      assert xs == xs[..n] + [xs[n]];
      assert multiset(xs) == multiset(xs[..n]) + multiset{xs[n]};
    }
  }

  lemma {:induction false} BigInAll(xs: seq<int>, keys: set<int>)
    requires forall d :: d in xs ==> d in keys
    ensures BigIn(xs, keys) == Big(xs)
  {
    if xs != [] {
      var n := |xs| - 1;
      assert forall d :: d in xs[..n] ==> d in xs;
      BigInAll(xs[..n], keys);
    }
  }

  lemma {:induction false} BigInNone(xs: seq<int>)
    ensures BigIn(xs, {}) == 0
  {
    if xs != [] {
      BigInNone(xs[..|xs| - 1]);
    }
  }

  /** The number of pairs on the path whose cheat saves at least 100. */
  function Part1Of(path: seq<Point>): nat {
    Big(Savings(path, |path|))
  }

  /** Summing the histogram's counts over the savings that reach 100 gives the number of such pairs. */
  method SumBig(cheats: map<int, nat>, ghost xs: seq<int>) returns (total: nat)
    requires Histogram(cheats, xs)
    ensures total == Big(xs)
  {
    total := 0;
    var left := cheats.Keys;
    BigInNone(xs);
    assert cheats.Keys - left == {};
    while exists d :: d in left
      invariant left <= cheats.Keys
      invariant total == BigIn(xs, cheats.Keys - left)
      decreases |left|
    {
      var d :| d in left;
      assert cheats[d] == multiset(xs)[d];
      BigInAdd(xs, cheats.Keys - left, d);
      assert cheats.Keys - (left - {d}) == (cheats.Keys - left) + {d};
      if d >= Threshold {
        total := total + cheats[d];
      }
      left := left - {d};
    }
    assert left == {};
    assert cheats.Keys - left == cheats.Keys;
    forall d | d in xs
      ensures d in cheats.Keys
    {
      assert multiset(xs)[d] > 0;
    }
    BigInAll(xs, cheats.Keys);
  }

  /**
   * `part_1`: the number of cheats saving at least 100 along the parsed path, or None when the path
   * walk gets stuck (the source's loop never ends there).
   */
  method Part1(puzzle: string) returns (r: Option<nat>)
    ensures r == match Path(puzzle) case Stuck(_) => None case Reached(path) => Some(Part1Of(path))
  {
    var w := ParseInput(puzzle);
    if w.Stuck? {
      return None;
    }
    var cheats := CountCheats(w.path);
    var total := SumBig(cheats, Savings(w.path, |w.path|));
    r := Some(total);
  }
}
