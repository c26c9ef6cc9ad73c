/**
 * Guard patrol (src/day_06.py): the guard walks the map from '^', turning right before every '#',
 * until it steps off the map; coming back to a cell facing a direction it already faced there is a
 * loop. part_2 counts the visited cells where one extra obstruction makes the guard loop.
 */
module Day06 {
  import opened Common

  /** The `directions` deque as a rotation index: up, right, down, left. */
  const Dirs: seq<Point> := [(0, -1), (1, 0), (0, 1), (-1, 0)]

  type Dir = d: int | 0 <= d < 4

  /** The guard's position and the index of the direction at the front of the deque. */
  type State = (Point, Dir)

  /** The guard's own cell is stored as floor. */
  function Cleared(c: char): char {
    if c == '^' then '.' else c
  }

  /** The map `puzzle_to_map` builds: every character at its (x, y), with '^' read as '.'. */
  function MapOf(lines: seq<string>): map<Point, char> {
    map y, x | 0 <= y < |lines| && 0 <= x < |lines[y]| :: (x, y) := Cleared(lines[y][x])
  }

  lemma MapOfHolds(lines: seq<string>, p: Point)
    ensures p in MapOf(lines) <==> InText(lines, p)
    ensures p in MapOf(lines) ==> MapOf(lines)[p] == Cleared(lines[p.1][p.0])
  {
    if InText(lines, p) {
      var (x, y) := p;
      assert 0 <= y < |lines| && 0 <= x < |lines[y]|;
    }
  }

  /** Index of the last '^' of a line, or -1. */
  function LastCaret(line: string): (r: int)
    ensures -1 <= r < |line|
    ensures r >= 0 ==> line[r] == '^'
    ensures forall x :: r < x < |line| ==> line[x] != '^'
  {
    if line == [] then -1
    else if line[|line| - 1] == '^' then |line| - 1
    else LastCaret(line[..|line| - 1])
  }

  /** The start `puzzle_to_map` reports: the last '^' in reading order, or (-1, -1). */
  function StartOf(lines: seq<string>): (r: Point)
    ensures r == (-1, -1) ==> forall p :: InText(lines, p) ==> lines[p.1][p.0] != '^'
    ensures r != (-1, -1) ==> InText(lines, r) && lines[r.1][r.0] == '^'
    ensures r != (-1, -1) ==> forall p :: InText(lines, p) && (p.1 > r.1 || (p.1 == r.1 && p.0 > r.0)) ==> lines[p.1][p.0] != '^'
  {
    if lines == [] then (-1, -1)
    else
      var y := |lines| - 1;
      var init := lines[..y];
      assert forall i :: 0 <= i < y ==> init[i] == lines[i];
      if LastCaret(lines[y]) >= 0 then (LastCaret(lines[y]), y) else StartOf(init)
  }

  /** puzzle_to_map: one pass over the lines and their characters. */
  method PuzzleToMap(puzzle: string) returns (grid: map<Point, char>, start: Point)
    ensures grid == MapOf(Lines(puzzle))
    ensures start == StartOf(Lines(puzzle))
  {
    var lines := Lines(puzzle);
    grid, start := ReadMap(lines);
    MapOfIs(lines, grid);
  }

  /** The outer loop of puzzle_to_map, over the lines. */
  method ReadMap(lines: seq<string>) returns (grid: map<Point, char>, start: Point)
    ensures forall p :: p in grid <==> InText(lines, p)
    ensures forall p :: p in grid ==> InText(lines, p) && grid[p] == Cleared(lines[p.1][p.0])
    ensures start == StartOf(lines)
  {
    grid := map[];
    start := (-1, -1);
    for y := 0 to |lines|
      invariant forall p :: p in grid <==> InText(lines, p) && p.1 < y
      invariant forall p :: p in grid ==> InText(lines, p) && grid[p] == Cleared(lines[p.1][p.0])
      invariant start == StartOf(lines[..y])
    {
      assert lines[..y + 1][..y] == lines[..y];
      grid, start := ReadRow(lines, y, grid, start);
    }
    assert lines[..|lines|] == lines;
  }

  /** The inner loop of puzzle_to_map, over the characters of line y. */
  method ReadRow(lines: seq<string>, y: int, grid0: map<Point, char>, start0: Point)
    returns (grid: map<Point, char>, start: Point)
    requires 0 <= y < |lines|
    requires forall p :: p in grid0 <==> InText(lines, p) && p.1 < y
    requires forall p :: p in grid0 ==> InText(lines, p) && grid0[p] == Cleared(lines[p.1][p.0])
    ensures forall p :: p in grid <==> InText(lines, p) && p.1 <= y
    ensures forall p :: p in grid ==> InText(lines, p) && grid[p] == Cleared(lines[p.1][p.0])
    ensures start == if LastCaret(lines[y]) >= 0 then (LastCaret(lines[y]), y) else start0
  {
    grid, start := grid0, start0;
    var line := lines[y];
    for x := 0 to |line|
      invariant forall p :: p in grid <==> InText(lines, p) && (p.1 < y || (p.1 == y && p.0 < x))
      invariant forall p :: p in grid ==> InText(lines, p) && grid[p] == Cleared(lines[p.1][p.0])
      invariant start == if LastCaret(line[..x]) >= 0 then (LastCaret(line[..x]), y) else start0
    {
      assert line[..x + 1][..x] == line[..x];
      var cell := line[x];
      if cell == '^' {
        start := (x, y);
      }
      grid := grid[(x, y) := Cleared(cell)];
    }
    assert line[..|line|] == line;
  }

  lemma MapOfIs(lines: seq<string>, grid: map<Point, char>)
    requires forall p :: p in grid <==> InText(lines, p)
    requires forall p :: p in grid ==> InText(lines, p) && grid[p] == Cleared(lines[p.1][p.0])
    ensures grid == MapOf(lines)
  {
    forall p
      ensures (p in grid <==> p in MapOf(lines)) && (p in grid ==> grid[p] == MapOf(lines)[p])
    {
      MapOfHolds(lines, p);
    }
  }

  /**
   * One turn of the `while True` loop: off the map ends the walk, a '#' ahead rotates the deque,
   * anything else is stepped onto.
   */
  function Step(grid: map<Point, char>, s: State): Option<State> {
    var ahead := Add(s.0, Dirs[s.1]);
    if ahead !in grid then None
    else if grid[ahead] == '#' then Some((s.0, (s.1 + 1) % 4))
    else Some((ahead, s.1))
  }

  /** The state after n turns from `start` facing up, or None once the guard has left. */
  function Trace(grid: map<Point, char>, start: Point, n: nat): Option<State> {
    if n == 0 then Some((start, 0))
    else match Trace(grid, start, n - 1)
      case None => None
      case Some(s) => Step(grid, s)
  }

  /** The guard never leaves: the walk `walk_path` ends with LoopingError. */
  ghost predicate Loops(grid: map<Point, char>, start: Point) {
    forall n: nat :: Trace(grid, start, n).Some?
  }

  /** The cells of the first n states: what `seen` holds after n turns. */
  function Visited(grid: map<Point, char>, start: Point, n: nat): set<Point> {
    if n == 0 then {}
    else Visited(grid, start, n - 1) + match Trace(grid, start, n - 1) case Some(s) => {s.0} case None => {}
  }

  /** The first n states: what `seen_directions` holds after n turns. */
  function States(grid: map<Point, char>, start: Point, n: nat): set<State> {
    if n == 0 then {}
    else States(grid, start, n - 1) + match Trace(grid, start, n - 1) case Some(s) => {s} case None => {}
  }

  datatype Walk = Exited(seen: set<Point>) | Looping

  /** The deque's rotate(-1) is a right turn: (dx, dy) becomes (-dy, dx) with y growing downwards. */
  lemma TurnIsClockwise(d: Dir)
    ensures Dirs[(d + 1) % 4] == (-Dirs[d].1, Dirs[d].0)
    ensures (d + 4) % 4 == d
  {
  }

  /** A turn keeps the cell and only rotates; a move goes one cell in the current direction onto a non-wall. */
  lemma StepRule(grid: map<Point, char>, s: State)
    ensures Step(grid, s) == None <==> Add(s.0, Dirs[s.1]) !in grid
    ensures Step(grid, s).Some? && Step(grid, s).value.0 == s.0 ==> Step(grid, s).value.1 == (s.1 + 1) % 4
    ensures Step(grid, s).Some? && Step(grid, s).value.0 != s.0 ==>
      Step(grid, s).value == (Add(s.0, Dirs[s.1]), s.1) && grid[Step(grid, s).value.0] != '#'
  {
  }

  /** After the first turn the guard stands only on cells of the map that are not '#'. */
  lemma {:induction false} NeverOnWall(grid: map<Point, char>, start: Point, n: nat)
    requires Trace(grid, start, n).Some?
    ensures var s := Trace(grid, start, n).value;
      s.0 == start || (s.0 in grid && grid[s.0] != '#')
  {
    if n > 0 {
      NeverOnWall(grid, start, n - 1);
    }
  }

  /** Once off the map, the guard stays off. */
  lemma {:induction false} GoneStaysGone(grid: map<Point, char>, start: Point, i: nat, n: nat)
    requires i <= n && Trace(grid, start, i).None?
    ensures Trace(grid, start, n).None?
    decreases n
  {
    if i < n {
      GoneStaysGone(grid, start, i, n - 1);
    }
  }

  lemma {:induction false} InStates(grid: map<Point, char>, start: Point, n: nat, s: State)
    requires s in States(grid, start, n)
    ensures exists i :: 0 <= i < n && Trace(grid, start, i) == Some(s)
  {
    if s !in States(grid, start, n - 1) {
      assert Trace(grid, start, n - 1) == Some(s);
    } else {
      InStates(grid, start, n - 1, s);
    }
  }

  /** Two equal states k turns apart stay equal: the walk is deterministic. */
  lemma {:induction false} Shift(grid: map<Point, char>, start: Point, i: nat, j: nat, k: nat)
    requires Trace(grid, start, i) == Trace(grid, start, j)
    ensures Trace(grid, start, i + k) == Trace(grid, start, j + k)
  {
    if k > 0 {
      Shift(grid, start, i, j, k - 1);
    }
  }

  /** A state seen twice means the guard never leaves. */
  lemma RepeatLoops(grid: map<Point, char>, start: Point, i: nat, j: nat)
    requires i < j && Trace(grid, start, i) == Trace(grid, start, j) && Trace(grid, start, j).Some?
    ensures Loops(grid, start)
  {
    forall n: nat
      ensures Trace(grid, start, n).Some?
    {
      AlwaysThere(grid, start, i, j, n);
    }
  }

  lemma {:induction false} AlwaysThere(grid: map<Point, char>, start: Point, i: nat, j: nat, n: nat)
    requires i < j && Trace(grid, start, i) == Trace(grid, start, j) && Trace(grid, start, j).Some?
    ensures Trace(grid, start, n).Some?
    decreases n
  {
    if n <= j {
      if Trace(grid, start, n).None? {
        GoneStaysGone(grid, start, n, j);
      }
    } else {
      Shift(grid, start, i, j, n - j);
      AlwaysThere(grid, start, i, j, n - (j - i));
    }
  }

  /**
   * walk_path: records the cell and the (cell, direction) pair before each turn, and raises
   * LoopingError on a pair seen before; a KeyError for the cell ahead ends the walk.
   */
  method WalkPath(grid: map<Point, char>, start: Point) returns (r: Walk)
    ensures r.Looping? <==> Loops(grid, start)
    ensures r.Exited? ==> exists m: nat ::
      0 < m && Trace(grid, start, m - 1).Some? && Trace(grid, start, m).None? && r.seen == Visited(grid, start, m)
  {
    ghost var cells := grid.Keys + {start};
    ghost var universe := set p, d: Dir | p in cells && 0 <= d < 4 :: (p, d);
    var position := start;
    var dir: Dir := 0;
    var seen: set<Point> := {};
    var seenDirections: set<State> := {};
    ghost var n: nat := 0;
    while true
      invariant Trace(grid, start, n) == Some((position, dir))
      invariant seen == Visited(grid, start, n) && seenDirections == States(grid, start, n)
      invariant position in cells && seenDirections <= universe
      decreases universe - seenDirections
    {
      seen := seen + {position};
      if (position, dir) in seenDirections {
        InStates(grid, start, n, (position, dir));
        ghost var i :| 0 <= i < n && Trace(grid, start, i) == Some((position, dir));
        RepeatLoops(grid, start, i, n);
        return Looping;
      }
      seenDirections := seenDirections + {(position, dir)};
      var ahead := Add(position, Dirs[dir]);
      if ahead !in grid {
        assert Trace(grid, start, n + 1).None?;
        if Loops(grid, start) {
          assert Trace(grid, start, n + 1).Some?;
        }
        return Exited(seen);
      }
      ghost var now := (position, dir);
      if grid[ahead] == '#' {
        dir := (dir + 1) % 4;
      } else {
        position := ahead;
      }
      assert Step(grid, now) == Some((position, dir));
      assert Trace(grid, start, n + 1) == Some((position, dir));
      assert Visited(grid, start, n + 1) == seen && States(grid, start, n + 1) == seenDirections;
      n := n + 1;
    }
  }

  /** part_1: the number of distinct cells visited, or the LoopingError of a looping map. */
  method Part1(puzzle: string) returns (r: Result<nat, Walk>)
    ensures var grid, start := MapOf(Lines(puzzle)), StartOf(Lines(puzzle));
      (r.Err? <==> Loops(grid, start))
      && (r.Ok? ==> exists m: nat :: Trace(grid, start, m).None? && r.value == |Visited(grid, start, m)|)
  {
    var grid, start := PuzzleToMap(puzzle);
    var walk := WalkPath(grid, start);
    if walk.Looping? {
      return Err(walk);
    }
    return Ok(|walk.seen|);
  }

  /** The walk looks only at which cells exist and which are '#'. */
  predicate SameWalls(a: map<Point, char>, b: map<Point, char>) {
    a.Keys == b.Keys && forall p :: p in a ==> (a[p] == '#' <==> b[p] == '#')
  }

  lemma {:induction false} SameWallsSameTrace(a: map<Point, char>, b: map<Point, char>, start: Point, n: nat)
    requires SameWalls(a, b)
    ensures Trace(a, start, n) == Trace(b, start, n)
  {
    if n > 0 {
      SameWallsSameTrace(a, b, start, n - 1);
    }
  }

  lemma SameWallsSameLoops(a: map<Point, char>, b: map<Point, char>, start: Point)
    requires SameWalls(a, b)
    ensures Loops(a, start) <==> Loops(b, start)
  {
    forall n: nat
      ensures Trace(a, start, n) == Trace(b, start, n)
    {
      SameWallsSameTrace(a, b, start, n);
    }
  }

  /** One trial of part_2: '#' at p, walk, then '.' at p whatever was there before. */
  method Trial(grid: map<Point, char>, start: Point, p: Point) returns (looped: bool, restored: map<Point, char>)
    ensures looped <==> Loops(grid[p := '#'], start)
    ensures restored == grid[p := '.']
  {
    var trial := grid[p := '#'];
    var walk := WalkPath(trial, start);
    looped := walk.Looping?;
    restored := trial[p := '.'];
  }

  /** The obstruction cells of part_2 among `cells` that make the guard loop. */
  ghost function Obstructions(grid: map<Point, char>, start: Point, cells: set<Point>): set<Point> {
    set p | p in cells && Loops(grid[p := '#'], start)
  }

  /** part_2 on the parsed map. */
  method Part2(puzzle: string) returns (r: Result<nat, Walk>)
    ensures var grid, start := MapOf(Lines(puzzle)), StartOf(Lines(puzzle));
      (r.Err? <==> Loops(grid, start))
      && (r.Ok? ==> exists m: nat ::
            Trace(grid, start, m).None? && r.value == |Obstructions(grid, start, Visited(grid, start, m))|)
  {
    var grid, start := PuzzleToMap(puzzle);
    ParsedStartOnFloor(Lines(puzzle));
    r := Obstruct(grid, start);
  }

  /** The guard does not start on a '#', and a start off the map has the map's edge ahead. */
  ghost predicate StartOnFloor(grid: map<Point, char>, start: Point) {
    (start in grid ==> grid[start] != '#') && (start !in grid ==> Add(start, Dirs[0]) !in grid)
  }

  /** The start of a parsed map is floor, or (-1, -1) with nothing above it. */
  lemma ParsedStartOnFloor(lines: seq<string>)
    ensures StartOnFloor(MapOf(lines), StartOf(lines))
  {
    var start := StartOf(lines);
    MapOfHolds(lines, start);
    MapOfHolds(lines, Add(start, Dirs[0]));
  }

  /** part_2's body: the first walk (a loop raises), then one trial per visited cell. */
  method Obstruct(grid: map<Point, char>, start: Point) returns (r: Result<nat, Walk>)
    requires StartOnFloor(grid, start)
    ensures r.Err? <==> Loops(grid, start)
    ensures r.Ok? ==> exists m: nat ::
      Trace(grid, start, m).None? && r.value == |Obstructions(grid, start, Visited(grid, start, m))|
  {
    var walk := WalkPath(grid, start);
    if walk.Looping? {
      return Err(walk);
    }
    ExitedOnFloor(grid, start, walk.seen);
    var loops := CountLoops(grid, start, walk.seen);
    return Ok(loops);
  }

  /** The cells of a walk that leaves the map are the ones CountLoops may set to '#'. */
  lemma ExitedOnFloor(grid: map<Point, char>, start: Point, seen: set<Point>)
    requires StartOnFloor(grid, start)
    requires exists m: nat :: 0 < m && Trace(grid, start, m - 1).Some? && Trace(grid, start, m).None? && seen == Visited(grid, start, m)
    ensures (forall q :: q in seen && q in grid ==> grid[q] != '#') && (forall q :: q in seen && q !in grid ==> seen == {q})
    ensures exists m: nat :: Trace(grid, start, m).None? && seen == Visited(grid, start, m)
  {
    var m: nat :| 0 < m && Trace(grid, start, m - 1).Some? && Trace(grid, start, m).None? && seen == Visited(grid, start, m);
    SeenOnFloor(grid, start, m);
  }

  /** The visited cells are never '#', and only a walk that leaves at once visits a cell off the map. */
  lemma SeenOnFloor(grid: map<Point, char>, start: Point, m: nat)
    requires StartOnFloor(grid, start)
    requires 0 < m && Trace(grid, start, m - 1).Some? && Trace(grid, start, m).None?
    ensures var seen := Visited(grid, start, m);
      (forall q :: q in seen && q in grid ==> grid[q] != '#') && (forall q :: q in seen && q !in grid ==> seen == {q})
  {
    VisitedNotWalls(grid, start, m);
    if start !in grid {
      assert Trace(grid, start, 1).None?;
      if m > 1 {
        GoneStaysGone(grid, start, 1, m - 1);
      }
      assert Visited(grid, start, 1) == {start};
    }
  }

  /** `current` is the original map with the cells of `done` set back to '.'. */
  ghost predicate Restored(grid: map<Point, char>, current: map<Point, char>, done: set<Point>) {
    (forall q :: q in current <==> q in grid || q in done)
    && (forall q :: q in current && q !in done ==> current[q] == grid[q])
    && (forall q :: q in done ==> q in current && current[q] == '.')
  }

  /**
   * The trials of part_2. Restoring '.' can change the map, but never which cells are '#' (a
   * visited cell never is), so every trial sees the original walls plus one.
   */
  method CountLoops(grid: map<Point, char>, start: Point, seen: set<Point>) returns (loops: nat)
    requires forall q :: q in seen && q in grid ==> grid[q] != '#'
    requires forall q :: q in seen && q !in grid ==> seen == {q}
    ensures loops == |Obstructions(grid, start, seen)|
  {
    var current := grid;
    loops := 0;
    var todo := seen;
    ghost var done: set<Point> := {};
    while todo != {}
      invariant todo + done == seen && todo !! done
      invariant Restored(grid, current, done)
      invariant loops == |Obstructions(grid, start, done)|
      decreases |todo|
    {
      var p :| p in todo;
      TrialSeesOriginal(grid, current, start, seen, done, p);
      var looped;
      looped, current := Trial(current, start, p);
      ObstructionsAdd(grid, start, done, p);
      if looped {
        loops := loops + 1;
      }
      todo := todo - {p};
      done := done + {p};
    }
  }

  lemma ObstructionsAdd(grid: map<Point, char>, start: Point, done: set<Point>, p: Point)
    requires p !in done
    ensures |Obstructions(grid, start, done + {p})| == |Obstructions(grid, start, done)| + Indicator(Loops(grid[p := '#'], start))
  {
    assert Obstructions(grid, start, done + {p})
      == Obstructions(grid, start, done) + if Loops(grid[p := '#'], start) then {p} else {};
  }

  lemma TrialSeesOriginal(grid: map<Point, char>, current: map<Point, char>, start: Point, seen: set<Point>, done: set<Point>, p: Point)
    requires forall q :: q in seen && q in grid ==> grid[q] != '#'
    requires forall q :: q in seen && q !in grid ==> seen == {q}
    requires done <= seen && p in seen && p !in done
    requires Restored(grid, current, done)
    ensures Loops(current[p := '#'], start) <==> Loops(grid[p := '#'], start)
    ensures Restored(grid, current[p := '.'], done + {p})
  {
    if exists q :: q in seen && q !in grid {
      assert done == {};
      assert current == grid;
    } else {
      assert SameWalls(current[p := '#'], grid[p := '#']);
      SameWallsSameLoops(current[p := '#'], grid[p := '#'], start);
    }
  }

  /** Every visited cell is the start or a cell of the map that is not '#'. */
  lemma {:induction false} VisitedNotWalls(grid: map<Point, char>, start: Point, n: nat)
    ensures forall p :: p in Visited(grid, start, n) ==> p == start || (p in grid && grid[p] != '#')
  {
    if n > 0 {
      VisitedNotWalls(grid, start, n - 1);
      if Trace(grid, start, n - 1).Some? {
        NeverOnWall(grid, start, n - 1);
      }
    }
  }

  /** The start is always among the visited cells. */
  lemma {:induction false} StartVisited(grid: map<Point, char>, start: Point, n: nat)
    requires n >= 1
    ensures start in Visited(grid, start, n)
  {
    if n > 1 {
      StartVisited(grid, start, n - 1);
    }
  }
}
