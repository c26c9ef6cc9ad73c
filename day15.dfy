/**
 * Warehouse woes (src/day_15.py): a robot walks a warehouse of walls and boxes; a move into a wall
 * fails, and a move into a box pushes the whole row of boxes in front of it if the cell past the
 * row is not a wall. The score sums 100 · y + x over the boxes.
 */
module Day15 {
  import opened Common

  /** The four moves of `move_map`. */
  datatype Dir = Left | Right | Up | Down

  function Delta(d: Dir): Point {
    match d
    case Left => (-1, 0)
    case Right => (1, 0)
    case Up => (0, -1)
    case Down => (0, 1)
  }

  /** `move_map`: the move a character stands for, if any. */
  function MoveOf(c: char): Option<Dir> {
    if c == '<' then Some(Left)
    else if c == '>' then Some(Right)
    else if c == '^' then Some(Up)
    else if c == 'v' then Some(Down)
    else None
  }

  function Step(p: Point, d: Dir): Point {
    Add(p, Delta(d))
  }

  // ---------------------------------------------------------------------------------------------
  // Pushing a row of boxes

  /** How far along d a cell lies; one step along d adds one. */
  function Rank(p: Point, d: Dir): int {
    match d
    case Left => -p.0
    case Right => p.0
    case Up => -p.1
    case Down => p.1
  }

  /** The number of boxes further along d than rank r: the recursion of `move_box` follows them. */
  function Beyond(boxes: seq<Point>, r: int, d: Dir): nat {
    if boxes == [] then 0
    else Beyond(boxes[..|boxes| - 1], r, d) + Indicator(Rank(boxes[|boxes| - 1], d) > r)
  }

  lemma {:induction false} BeyondMono(boxes: seq<Point>, r: int, d: Dir)
    ensures Beyond(boxes, r + 1, d) <= Beyond(boxes, r, d)
    ensures (exists p :: p in boxes && Rank(p, d) == r + 1) ==> Beyond(boxes, r + 1, d) < Beyond(boxes, r, d)
  {
    if boxes != [] {
      var n := |boxes| - 1;
      BeyondMono(boxes[..n], r, d);
      if exists p :: p in boxes && Rank(p, d) == r + 1 {
        var p :| p in boxes && Rank(p, d) == r + 1;
        if p != boxes[n] {
          assert p in boxes[..n];
        }
      }
    }
  }

  /** The box in front of `box` has fewer boxes beyond it. */
  lemma Shrinks(boxes: seq<Point>, box: Point, d: Dir)
    requires Step(box, d) in boxes
    ensures Beyond(boxes, Rank(Step(box, d), d), d) < Beyond(boxes, Rank(box, d), d)
  {
    assert Rank(Step(box, d), d) == Rank(box, d) + 1;
    BeyondMono(boxes, Rank(box, d), d);
  }

  /** `move_box` succeeds: the next cell is no wall, and a box there can itself be pushed. */
  predicate Pushable(boxes: seq<Point>, walls: seq<Point>, box: Point, d: Dir)
    decreases Beyond(boxes, Rank(box, d), d)
  {
    var next := Step(box, d);
    if next in walls then false
    else if next in boxes then Shrinks(boxes, box, d); Pushable(boxes, walls, next, d)
    else true
  }

  /** The first cell along d after `box` that holds no box: where the pushed row ends. */
  function End(boxes: seq<Point>, box: Point, d: Dir): (r: Point)
    ensures r !in boxes
    decreases Beyond(boxes, Rank(box, d), d)
  {
    var next := Step(box, d);
    if next in boxes then Shrinks(boxes, box, d); End(boxes, next, d) else next
  }

  /** A pushable row ends on a free cell: neither a box nor a wall. */
  lemma {:induction false} EndIsFree(boxes: seq<Point>, walls: seq<Point>, box: Point, d: Dir)
    requires Pushable(boxes, walls, box, d)
    ensures End(boxes, box, d) !in walls
    decreases Beyond(boxes, Rank(box, d), d)
  {
    var next := Step(box, d);
    if next in boxes {
      Shrinks(boxes, box, d);
      EndIsFree(boxes, walls, next, d);
    }
  }

  /** `list.remove`: drops the first occurrence. */
  function Remove(s: seq<Point>, x: Point): (r: seq<Point>)
    ensures multiset(r) == multiset(s) - multiset{x}
    ensures |r| == if x in s then |s| - 1 else |s|
  {
    if s == [] then []
    else
      assert s == [s[0]] + s[1..];
      if s[0] == x then s[1..] else [s[0]] + Remove(s[1..], x)
  }

  /**
   * The boxes after a successful `move_box`: the boxes in front are pushed first, then `box` is
   * removed and its new position appended.
   */
  function Pushed(boxes: seq<Point>, walls: seq<Point>, box: Point, d: Dir): seq<Point>
    requires Pushable(boxes, walls, box, d)
    decreases Beyond(boxes, Rank(box, d), d)
  {
    var next := Step(box, d);
    var inner := if next in boxes then Shrinks(boxes, box, d); Pushed(boxes, walls, next, d) else boxes;
    Remove(inner, box) + [next]
  }

  /** As a multiset, a push only takes `box` away and puts a box where the row ends. */
  lemma {:induction false} PushedBoxes(boxes: seq<Point>, walls: seq<Point>, box: Point, d: Dir)
    requires Pushable(boxes, walls, box, d) && box in boxes
    ensures multiset(Pushed(boxes, walls, box, d)) == multiset(boxes) - multiset{box} + multiset{End(boxes, box, d)}
    decreases Beyond(boxes, Rank(box, d), d)
  {
    var next := Step(box, d);
    var r := Pushed(boxes, walls, box, d);
    if next in boxes {
      Shrinks(boxes, box, d);
      var inner := Pushed(boxes, walls, next, d);
      PushedBoxes(boxes, walls, next, d);
      assert r == Remove(inner, box) + [next];
      assert End(boxes, box, d) == End(boxes, next, d);
      Relabel(multiset(boxes), multiset(inner), box, next, End(boxes, next, d));
    } else {
      assert r == Remove(boxes, box) + [next];
      Relabel(multiset(boxes), multiset(boxes), box, next, next);
    }
  }

  /** A push keeps the number of boxes. */
  lemma PushedLength(boxes: seq<Point>, walls: seq<Point>, box: Point, d: Dir)
    requires Pushable(boxes, walls, box, d) && box in boxes
    ensures |Pushed(boxes, walls, box, d)| == |boxes|
  {
    PushedBoxes(boxes, walls, box, d);
    Exchanged(multiset(boxes), box, End(boxes, box, d));
  }

  /** Taking one element out of a multiset and putting another in keeps its size. */
  lemma Exchanged(m: multiset<Point>, out: Point, into: Point)
    requires out in m
    ensures |m - multiset{out} + multiset{into}| == |m|
  {
    assert m == (m - multiset{out}) + multiset{out};
  }

  /** Multiset bookkeeping for one push: the row in front moved, then `box` takes `next`'s place. */
  lemma Relabel(m: multiset<Point>, inner: multiset<Point>, box: Point, next: Point, end: Point)
    requires box in m && box != next
    requires inner == (if next in m then m - multiset{next} + multiset{end} else m)
    requires next in m ==> end !in m
    ensures inner - multiset{box} + multiset{next} == m - multiset{box} + multiset{if next in m then end else next}
  {
    var lhs := inner - multiset{box} + multiset{next};
    var rhs := m - multiset{box} + multiset{if next in m then end else next};
    assert forall p :: lhs[p] == rhs[p];
  }

  // ---------------------------------------------------------------------------------------------
  // The warehouse

  /** The warehouse as a value: robot, boxes and walls. */
  datatype State = State(robot: Point, boxes: seq<Point>, walls: seq<Point>)

  /** A move is blocked by a wall in front, or by a row of boxes that cannot be pushed. */
  predicate Blocked(s: State, d: Dir) {
    var next := Step(s.robot, d);
    next in s.walls || (next in s.boxes && !Pushable(s.boxes, s.walls, next, d))
  }

  /** The warehouse after `move`. */
  function Next(s: State, d: Dir): State {
    var next := Step(s.robot, d);
    if Blocked(s, d) then s
    else if next in s.boxes then State(next, Pushed(s.boxes, s.walls, next, d), s.walls)
    else State(next, s.boxes, s.walls)
  }

  /** No two boxes share a cell, no box is on a wall, and the robot is on neither. */
  ghost predicate Consistent(s: State) {
    (forall p :: multiset(s.boxes)[p] <= 1)
    && (forall p :: p in s.boxes ==> p !in s.walls)
    && s.robot !in s.boxes && s.robot !in s.walls
  }

  /** A move keeps the warehouse consistent. */
  lemma NextConsistent(s: State, d: Dir)
    requires Consistent(s)
    ensures Consistent(Next(s, d))
  {
    var next := Step(s.robot, d);
    if !Blocked(s, d) && next in s.boxes {
      EndIsFree(s.boxes, s.walls, next, d);
      PushedBoxes(s.boxes, s.walls, next, d);
      var after := Pushed(s.boxes, s.walls, next, d);
      RowMoved(multiset(s.boxes), multiset(after), s.walls, next, End(s.boxes, next, d));
      assert Next(s, d) == State(next, after, s.walls);
    }
  }

  /** Pushing a row into a free cell keeps the boxes apart and off the walls, and frees `next`. */
  lemma RowMoved(m: multiset<Point>, after: multiset<Point>, walls: seq<Point>, next: Point, end: Point)
    requires forall p :: m[p] <= 1
    requires forall p :: p in m ==> p !in walls
    requires next in m && end !in m && end !in walls
    requires after == m - multiset{next} + multiset{end}
    ensures forall p :: after[p] <= 1
    ensures forall p :: p in after ==> p !in walls
    ensures next !in after
  {
  }

  /**
   * A move changes no wall, keeps the number of boxes, and either leaves everything as it was or
   * puts the robot one step along d.
   */
  lemma NextMoves(s: State, d: Dir)
    ensures Next(s, d).walls == s.walls && |Next(s, d).boxes| == |s.boxes|
    ensures Blocked(s, d) <==> Next(s, d) == s
    ensures !Blocked(s, d) ==> Next(s, d).robot == Step(s.robot, d) && Next(s, d).robot !in s.walls
  {
    var next := Step(s.robot, d);
    assert next != s.robot;
    if !Blocked(s, d) && next in s.boxes {
      PushedLength(s.boxes, s.walls, next, d);
    }
  }

  /** `Warehouse`: the robot and the lists of boxes and walls, changed in place by moves. */
  class Warehouse {
    var robot: Point
    var boxes: seq<Point>
    var walls: seq<Point>

    constructor (robot: Point, boxes: seq<Point>, walls: seq<Point>)
      ensures Snapshot() == State(robot, boxes, walls)
    {
      this.robot, this.boxes, this.walls := robot, boxes, walls;
    }

    function Snapshot(): State
      reads this
    {
      State(robot, boxes, walls)
    }

    /** `move_box`: push `box` one step along d, pushing the boxes in front of it first. */
    method MoveBox(d: Dir, box: Point) returns (ok: bool)
      requires box in boxes
      modifies this
      ensures ok == Pushable(old(boxes), walls, box, d)
      ensures boxes == if ok then Pushed(old(boxes), walls, box, d) else old(boxes)
      ensures robot == old(robot) && walls == old(walls)
      decreases Beyond(boxes, Rank(box, d), d)
    {
      var newBox := Step(box, d);
      if newBox in walls {
        return false;
      }
      if newBox in boxes {
        Shrinks(boxes, box, d);
        ok := MoveBox(d, newBox);
        if !ok {
          return false;
        }
      }
      boxes := Remove(boxes, box);
      boxes := boxes + [newBox];
      return true;
    }

    /** `move`: step the robot along d unless a wall or an unpushable row of boxes is in the way. */
    method Move(d: Dir) returns (ok: bool)
      modifies this
      ensures ok == !Blocked(old(Snapshot()), d)
      ensures Snapshot() == Next(old(Snapshot()), d)
    {
      var newRobot := Step(robot, d);
      if newRobot in walls {
        return false;
      }
      if newRobot in boxes {
        ok := MoveBox(d, newRobot);
        if !ok {
          return false;
        }
      }
      robot := newRobot;
      return true;
    }

    /** `score`: Σ 100 · y + x over the boxes. */
    method Score() returns (score: int)
      ensures score == Gps(boxes)
    {
      score := 0;
      for i := 0 to |boxes|
        invariant score == Gps(boxes[..i])
      {
        assert boxes[..i + 1] == boxes[..i] + [boxes[i]];
        GpsAppend(boxes[..i], [boxes[i]]);
        score := score + 100 * boxes[i].1 + boxes[i].0;
      }
      assert boxes[..|boxes|] == boxes;
    }
  }

  /** A box's coordinate for the score. */
  function Coordinate(p: Point): int {
    100 * p.1 + p.0
  }

  function Gps(boxes: seq<Point>): int {
    if boxes == [] then 0 else Coordinate(boxes[0]) + Gps(boxes[1..])
  }

  lemma {:induction false} GpsAppend(s: seq<Point>, t: seq<Point>)
    ensures Gps(s + t) == Gps(s) + Gps(t)
  {
    if s == [] {
      assert s + t == t;
    } else {
      assert (s + t)[1..] == s[1..] + t;
      GpsAppend(s[1..], t);
    }
  }

  lemma {:induction false} GpsRemove(s: seq<Point>, x: Point)
    requires x in s
    ensures Gps(Remove(s, x)) == Gps(s) - Coordinate(x)
  {
    if s[0] != x {
      GpsRemove(s[1..], x);
      assert Gps([s[0]] + Remove(s[1..], x)) == Coordinate(s[0]) + Gps(Remove(s[1..], x)) by {
        GpsAppend([s[0]], Remove(s[1..], x));
      }
    }
  }

  /** A push moves the score by the first box leaving and a box arriving where the row ends. */
  lemma {:induction false} GpsPushed(boxes: seq<Point>, walls: seq<Point>, box: Point, d: Dir)
    requires Pushable(boxes, walls, box, d) && box in boxes
    ensures Gps(Pushed(boxes, walls, box, d)) == Gps(boxes) - Coordinate(box) + Coordinate(End(boxes, box, d))
    decreases Beyond(boxes, Rank(box, d), d)
  {
    var next := Step(box, d);
    if next in boxes {
      Shrinks(boxes, box, d);
      var inner := Pushed(boxes, walls, next, d);
      GpsPushed(boxes, walls, next, d);
      PushedBoxes(boxes, walls, next, d);
      assert box in multiset(inner);
      GpsReplace(inner, box, next);
    } else {
      GpsReplace(boxes, box, next);
    }
  }

  /** Removing a box and appending another changes the score by their difference. */
  lemma GpsReplace(s: seq<Point>, x: Point, y: Point)
    requires x in s
    ensures Gps(Remove(s, x) + [y]) == Gps(s) - Coordinate(x) + Coordinate(y)
  {
    GpsRemove(s, x);
    GpsAppend(Remove(s, x), [y]);
    assert [y][1..] == [];
  }

  // ---------------------------------------------------------------------------------------------
  // Running the moves

  /** The warehouse after the moves, in order. */
  function Run(s: State, moves: seq<Dir>): State {
    if moves == [] then s else Next(Run(s, moves[..|moves| - 1]), moves[|moves| - 1])
  }

  /** Every prefix of the run keeps the walls, the number of boxes and a consistent warehouse. */
  lemma {:induction false} RunKeeps(s: State, moves: seq<Dir>)
    ensures Run(s, moves).walls == s.walls && |Run(s, moves).boxes| == |s.boxes|
    ensures Consistent(s) ==> Consistent(Run(s, moves))
  {
    if moves != [] {
      var n := |moves| - 1;
      RunKeeps(s, moves[..n]);
      NextMoves(Run(s, moves[..n]), moves[n]);
      if Consistent(s) {
        NextConsistent(Run(s, moves[..n]), moves[n]);
      }
    }
  }

  // ---------------------------------------------------------------------------------------------
  // parse_input

  /** Unpacking `puzzle.split("\n\n")` into two names fails unless there are exactly two sections. */
  datatype Failure = ValueError

  /** The cells of one line holding c, left to right, at row y. */
  function RowCells(line: string, y: int, c: char): seq<Point> {
    if line == [] then []
    else
      var x := |line| - 1;
      RowCells(line[..x], y, c) + (if line[x] == c then [(x, y)] else [])
  }

  /** The cells of the text holding c, in reading order. */
  function Cells(lines: seq<string>, c: char): seq<Point> {
    if lines == [] then []
    else
      var y := |lines| - 1;
      Cells(lines[..y], c) + RowCells(lines[y], y, c)
  }

  /** A row's cells are exactly the positions of c on that row, left to right without repeats. */
  lemma {:induction false} RowCellsAre(line: string, y: int, c: char)
    ensures forall p :: p in RowCells(line, y, c) <==> p.1 == y && 0 <= p.0 < |line| && line[p.0] == c
    ensures forall i, j :: 0 <= i < j < |RowCells(line, y, c)| ==> RowCells(line, y, c)[i].0 < RowCells(line, y, c)[j].0
  {
    if line != [] {
      var x := |line| - 1;
      RowCellsAre(line[..x], y, c);
    }
  }

  /** The text's cells are exactly the positions of c, in reading order without repeats. */
  lemma {:induction false} CellsAre(lines: seq<string>, c: char)
    ensures forall p :: p in Cells(lines, c) <==> InText(lines, p) && lines[p.1][p.0] == c
    ensures forall i, j :: 0 <= i < j < |Cells(lines, c)| ==> Cells(lines, c)[i] != Cells(lines, c)[j]
    ensures forall p :: p in Cells(lines, c) ==> p.1 < |lines|
  {
    if lines != [] {
      var y := |lines| - 1;
      var init := lines[..y];
      CellsAre(init, c);
      RowCellsAre(lines[y], y, c);
      assert forall i :: 0 <= i < y ==> init[i] == lines[i];
      var a, b := Cells(init, c), RowCells(lines[y], y, c);
      assert Cells(lines, c) == a + b;
      forall i, j | 0 <= i < j < |a + b|
        ensures (a + b)[i] != (a + b)[j]
      {
        if j >= |a| && i < |a| {
          assert (a + b)[i] in a && (a + b)[j] in b;
        }
      }
    }
  }

  /** Distinct entries occur once each. */
  lemma {:induction false} DistinctOnce(s: seq<Point>)
    requires forall i, j :: 0 <= i < j < |s| ==> s[i] != s[j]
    ensures forall p :: multiset(s)[p] <= 1
  {
    if s != [] {
      var n := |s| - 1;
      DistinctOnce(s[..n]);
      assert s == s[..n] + [s[n]];
      assert s[n] !in s[..n];
    }
  }

  /** The robot `parse_input` keeps: the last '@' in reading order, or (0, 0) when there is none. */
  function RobotOf(lines: seq<string>): Point {
    var at := Cells(lines, '@');
    if at == [] then (0, 0) else at[|at| - 1]
  }

  /** The moves of the text: its characters in `move_map`, in order; others are skipped. */
  function Moves(s: string): seq<Dir> {
    if s == [] then []
    else
      var n := |s| - 1;
      Moves(s[..n]) + (match MoveOf(s[n]) case Some(d) => [d] case None => [])
  }

  /** A move is listed exactly when some character of the text maps to it. */
  lemma {:induction false} MovesAre(s: string, d: Dir)
    ensures d in Moves(s) <==> exists i :: 0 <= i < |s| && MoveOf(s[i]) == Some(d)
  {
    if s != [] {
      var n := |s| - 1;
      MovesAre(s[..n], d);
      if exists i :: 0 <= i < |s| && MoveOf(s[i]) == Some(d) {
        var i :| 0 <= i < |s| && MoveOf(s[i]) == Some(d);
        if i < n {
          assert s[..n][i] == s[i];
        }
      } else {
        assert forall i :: 0 <= i < n ==> s[..n][i] == s[i];
      }
    }
  }

  /** `parse_input`: the warehouse of the first section and the moves of the second. */
  function Parse(puzzle: string): Result<(State, seq<Dir>), Failure> {
    var parts := Sections(puzzle);
    if |parts| != 2 then Err(ValueError)
    else
      var lines := Lines(parts[0]);
      Ok((State(RobotOf(lines), Cells(lines, 'O'), Cells(lines, '#')), Moves(parts[1])))
  }

  /** A parsed warehouse with a robot on it is consistent. */
  lemma ParsedConsistent(puzzle: string)
    requires Parse(puzzle).Ok?
    requires '@' in Sections(puzzle)[0]
    ensures Consistent(Parse(puzzle).value.0)
  {
    var lines := Lines(Sections(puzzle)[0]);
    CellsAre(lines, 'O');
    CellsAre(lines, '#');
    CellsAre(lines, '@');
    DistinctOnce(Cells(lines, 'O'));
    var k :| 0 <= k < |Sections(puzzle)[0]| && Sections(puzzle)[0][k] == '@';
    var p := LinesCover(Sections(puzzle)[0], k);
    assert p in Cells(lines, '@');
    var r := RobotOf(lines);
    assert r in Cells(lines, '@');
  }

  /** Each character of a text other than a line break lies on one of its lines, at p. */
  lemma {:induction false} LinesCover(s: string, k: nat) returns (p: Point)
    requires k < |s| && !LineBreak(s[k])
    ensures InText(Lines(s), p) && Lines(s)[p.1][p.0] == s[k]
    decreases |s|
  {
    var e := BreakAt(s, 0);
    if k < e {
      OnFirstLine(s, k);
      p := (k, 0);
    } else {
      var w := BreakWidth(s, e);
      BeyondBreak(s, e, k);
      var t := s[e + w..];
      assert t[k - e - w] == s[k];
      var q := LinesCover(t, k - e - w);
      OnLaterLine(s, q);
      p := (q.0, q.1 + 1);
    }
  }

  /** A character that is no line break, at or after a break, lies past the whole break. */
  lemma BeyondBreak(s: string, e: nat, k: nat)
    requires e <= k < |s| && LineBreak(s[e]) && !LineBreak(s[k])
    ensures k >= e + BreakWidth(s, e)
  {
  }

  /** A character before the first break is on the first line. */
  lemma OnFirstLine(s: string, k: nat)
    requires k < BreakAt(s, 0)
    ensures InText(Lines(s), (k, 0)) && Lines(s)[0][k] == s[k]
  {
  }

  /** A character of the lines after the first break is on the next line of the whole text. */
  lemma OnLaterLine(s: string, p: Point)
    requires s != [] && BreakAt(s, 0) < |s|
    requires var e := BreakAt(s, 0); InText(Lines(s[e + BreakWidth(s, e)..]), p)
    ensures var e := BreakAt(s, 0); var q := (p.0, p.1 + 1);
      InText(Lines(s), q) && Lines(s)[q.1][q.0] == Lines(s[e + BreakWidth(s, e)..])[p.1][p.0]
  {
    LinesCons(s);
  }

  /** The robot after scanning a row: the row's last '@', or the robot found before it. */
  function LastAt(robot: Point, at: seq<Point>): Point {
    if at == [] then robot else at[|at| - 1]
  }

  /** The outer loop of `parse_input` over the warehouse lines. */
  method ReadWarehouse(lines: seq<string>) returns (robot: Point, boxes: seq<Point>, walls: seq<Point>)
    ensures robot == RobotOf(lines) && boxes == Cells(lines, 'O') && walls == Cells(lines, '#')
  {
    robot, boxes, walls := (0, 0), [], [];
    for y := 0 to |lines|
      invariant robot == RobotOf(lines[..y])
      invariant boxes == Cells(lines[..y], 'O') && walls == Cells(lines[..y], '#')
    {
      assert lines[..y + 1][..y] == lines[..y];
      var rowBoxes, rowWalls;
      robot, rowBoxes, rowWalls := ReadRow(lines[y], y, robot);
      boxes := boxes + rowBoxes;
      walls := walls + rowWalls;
    }
    assert lines[..|lines|] == lines;
  }

  /** The inner loop of `parse_input` over the cells of row y. */
  method ReadRow(line: string, y: int, robot0: Point) returns (robot: Point, boxes: seq<Point>, walls: seq<Point>)
    ensures robot == LastAt(robot0, RowCells(line, y, '@'))
    ensures boxes == RowCells(line, y, 'O') && walls == RowCells(line, y, '#')
  {
    robot, boxes, walls := robot0, [], [];
    for x := 0 to |line|
      invariant robot == LastAt(robot0, RowCells(line[..x], y, '@'))
      invariant boxes == RowCells(line[..x], y, 'O') && walls == RowCells(line[..x], y, '#')
    {
      assert line[..x + 1][..x] == line[..x];
      var cell := line[x];
      if cell == '@' {
        robot := (x, y);
      } else if cell == 'O' {
        boxes := boxes + [(x, y)];
      } else if cell == '#' {
        walls := walls + [(x, y)];
      }
    }
    assert line[..|line|] == line;
  }

  /** `parse_input`, step by step. */
  method ParseInput(puzzle: string) returns (r: Result<(State, seq<Dir>), Failure>)
    ensures r == Parse(puzzle)
  {
    var parts := Sections(puzzle);
    if |parts| != 2 {
      return Err(ValueError);
    }
    var robot, boxes, walls := ReadWarehouse(Lines(parts[0]));
    return Ok((State(robot, boxes, walls), Moves(parts[1])));
  }

  /** `part_1`: parse, make every move on the warehouse in place, then score it. */
  method Part1(puzzle: string) returns (r: Result<int, Failure>)
    ensures Parse(puzzle).Err? ==> r == Err(ValueError)
    ensures Parse(puzzle).Ok? ==> r == Ok(Gps(Run(Parse(puzzle).value.0, Parse(puzzle).value.1).boxes))
  {
    var parsed := ParseInput(puzzle);
    if parsed.Err? {
      return Err(parsed.error);
    }
    var (start, moves) := parsed.value;
    var warehouse := new Warehouse(start.robot, start.boxes, start.walls);
    for i := 0 to |moves|
      invariant warehouse.Snapshot() == Run(start, moves[..i])
    {
      assert moves[..i + 1][..i] == moves[..i];
      var _ := warehouse.Move(moves[i]);
    }
    assert moves[..|moves|] == moves;
    var score := warehouse.Score();
    return Ok(score);
  }
}
