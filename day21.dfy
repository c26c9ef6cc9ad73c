/**
 * Keypad chains (src/day_21.py).
 *
 * A code is typed on a numeric keypad by a robot that is steered from a directional keypad, which is
 * itself steered from a directional keypad, and so on. `PathBetweenCost` is the number of key presses
 * the outermost operator makes so that the robot `count` levels down moves from `start` to `end` and
 * presses it; `PathCost` sums it over a whole code. Every simple path between two keys is tried, not
 * just the shortest ones.
 */
module Day21 {
  import opened Common

  datatype Keypad = Numeric | Directional

  datatype Failure = KeyError | NoSolutionError | ValueError

  /** The keypad tables, key by key: (key, (x, y)) with y growing downwards. */
  function Layout(kp: Keypad): seq<(char, Point)> {
    match kp
    case Numeric =>
      [('7', (0, 0)), ('8', (1, 0)), ('9', (2, 0)),
       ('4', (0, 1)), ('5', (1, 1)), ('6', (2, 1)),
       ('1', (0, 2)), ('2', (1, 2)), ('3', (2, 2)),
       ('0', (1, 3)), ('A', (2, 3))]
    case Directional =>
      [('^', (1, 0)), ('A', (2, 0)),
       ('<', (0, 1)), ('v', (1, 1)), ('>', (2, 1))]
  }

  function Lookup(entries: seq<(char, Point)>, c: char): Option<Point> {
    if entries == [] then None
    else if entries[0].0 == c then Some(entries[0].1)
    else Lookup(entries[1..], c)
  }

  /** keypad[key]: the cell of a key, or None where the lookup raises KeyError. */
  function KeyCell(kp: Keypad, c: char): Option<Point> {
    Lookup(Layout(kp), c)
  }

  /** The cells that hold a key: `keypad_values = set(keypad.values())`. */
  function Cells(kp: Keypad): set<Point> {
    set e | e in Layout(kp) :: e.1
  }

  /** The key cells written out: the numeric pad lacks (0, 3), the directional pad lacks (0, 0). */
  lemma CellsListed(kp: Keypad)
    ensures Cells(kp) == match kp
      case Numeric => {(0, 0), (1, 0), (2, 0), (0, 1), (1, 1), (2, 1), (0, 2), (1, 2), (2, 2), (1, 3), (2, 3)}
      case Directional => {(1, 0), (2, 0), (0, 1), (1, 1), (2, 1)}
  {
  }

  /** The cells are exactly the cells of the keys. */
  lemma CellsAreKeyCells(kp: Keypad, p: Point)
    ensures p in Cells(kp) <==> exists c :: KeyCell(kp, c) == Some(p)
  {
    if p !in Cells(kp) {
      if c :| KeyCell(kp, c) == Some(p) {
        LookupFound(Layout(kp), c);
      }
    } else {
      CellHasKey(kp, p);
    }
  }

  /** No key appears twice in a table. */
  lemma KeysDistinct(kp: Keypad)
    ensures forall j, k :: 0 <= j < k < |Layout(kp)| ==> Layout(kp)[j].0 != Layout(kp)[k].0
  {
  }

  lemma CellHasKey(kp: Keypad, p: Point)
    requires p in Cells(kp)
    ensures exists c :: KeyCell(kp, c) == Some(p)
  {
    var entries := Layout(kp);
    var e :| e in entries && e.1 == p;
    var i :| 0 <= i < |entries| && entries[i] == e;
    KeysDistinct(kp);
    LookupAt(entries, i, e.0);
    assert KeyCell(kp, e.0) == Some(p);
  }

  /** A key is found at its first occurrence. */
  lemma {:induction false} LookupAt(entries: seq<(char, Point)>, i: nat, c: char)
    requires i < |entries| && entries[i].0 == c
    requires forall j :: 0 <= j < i ==> entries[j].0 != c
    ensures Lookup(entries, c) == Some(entries[i].1)
  {
    if i > 0 {
      LookupAt(entries[1..], i - 1, c);
    }
  }

  lemma {:induction false} LookupFound(entries: seq<(char, Point)>, c: char)
    ensures Lookup(entries, c).Some? ==>
              exists i :: 0 <= i < |entries| && entries[i].1 == Lookup(entries, c).value
  {
    if entries != [] && entries[0].0 != c {
      LookupFound(entries[1..], c);
      if Lookup(entries, c).Some? {
        var i :| 0 <= i < |entries| - 1 && entries[1..][i].1 == Lookup(entries, c).value;
        assert entries[i + 1].1 == Lookup(entries, c).value;
      }
    }
  }

  /** The moves in the order the search tries them: (dx, dy, key). */
  const Directions: seq<(int, int, char)> := [(-1, 0, '<'), (0, -1, '^'), (0, 1, 'v'), (1, 0, '>')]

  predicate IsMove(c: char) {
    c == '<' || c == '^' || c == 'v' || c == '>'
  }

  predicate IsDirectionalKey(c: char) {
    IsMove(c) || c == 'A'
  }

  /** Index in `Directions` of a move key. */
  function MoveIndex(c: char): (i: nat)
    requires IsMove(c)
    ensures i < 4 && Directions[i].2 == c
  {
    if c == '<' then 0 else if c == '^' then 1 else if c == 'v' then 2 else 3
  }

  function Step(pos: Point, i: nat): Point
    requires i < 4
  {
    (pos.0 + Directions[i].0, pos.1 + Directions[i].1)
  }

  // ---------------------------------------------------------------------------------------------
  // Path enumeration (find_paths)

  /** One queue entry of the search: the current cell, the moves so far, the cells already used. */
  datatype Entry = Entry(pos: Point, path: string, visited: set<Point>)

  function Start(start: Point): Entry {
    Entry(start, "", {start})
  }

  /** The search may take move `i` from `e`: the next cell holds a key and is not yet on the path. */
  predicate Open(cells: set<Point>, e: Entry, i: nat)
    requires i < 4
  {
    Step(e.pos, i) in cells && Step(e.pos, i) !in e.visited
  }

  function Extend(e: Entry, i: nat): Entry
    requires i < 4
  {
    var n := Step(e.pos, i);
    Entry(n, e.path + [Directions[i].2], e.visited + {n})
  }

  /** What the search yields when it pops `e`. */
  function Yield(end: Point, e: Entry): seq<string> {
    if e.pos == end then [e.path + "A"] else []
  }

  /** The entries pushed after popping `e`, in the order of `Directions`. */
  function Children(cells: set<Point>, e: Entry): seq<Entry> {
    ChildrenUpTo(cells, e, 4)
  }

  function ChildrenUpTo(cells: set<Point>, e: Entry, k: nat): seq<Entry>
    requires k <= 4
  {
    if k == 0 then []
    else ChildrenUpTo(cells, e, k - 1) + (if Open(cells, e, k - 1) then [Extend(e, k - 1)] else [])
  }

  /**
   * Every path the search yields from entry `e`, depth first: the entry's own yield, then the paths
   * through each open neighbour in the order of `Directions`.
   */
  function PathsFrom(cells: set<Point>, end: Point, e: Entry): (r: seq<string>)
    decreases cells - e.visited, 1
  {
    Yield(end, e) + Via(cells, end, e, 0) + Via(cells, end, e, 1) + Via(cells, end, e, 2) + Via(cells, end, e, 3)
  }

  function Via(cells: set<Point>, end: Point, e: Entry, i: nat): seq<string>
    requires i < 4
    decreases cells - e.visited, 0
  {
    if Open(cells, e, i) then PathsFrom(cells, end, Extend(e, i)) else []
  }

  /** The paths yielded from a list of pending entries, first entry first. */
  function FlatPaths(cells: set<Point>, end: Point, es: seq<Entry>): seq<string> {
    if es == [] then [] else PathsFrom(cells, end, es[0]) + FlatPaths(cells, end, es[1..])
  }

  /** The number of entries the search pops below and including `e`; it bounds the loop. */
  function Nodes(cells: set<Point>, e: Entry): nat
    decreases cells - e.visited, 1
  {
    1 + NodesVia(cells, e, 0) + NodesVia(cells, e, 1) + NodesVia(cells, e, 2) + NodesVia(cells, e, 3)
  }

  function NodesVia(cells: set<Point>, e: Entry, i: nat): nat
    requires i < 4
    decreases cells - e.visited, 0
  {
    if Open(cells, e, i) then Nodes(cells, Extend(e, i)) else 0
  }

  function TotalNodes(cells: set<Point>, es: seq<Entry>): nat {
    if es == [] then 0 else Nodes(cells, es[0]) + TotalNodes(cells, es[1..])
  }

  /** The sequence `find_paths(start, end, keypad)` yields. */
  function FindPathsSpec(start: Point, end: Point, kp: Keypad): seq<string> {
    PathsFrom(Cells(kp), end, Start(start))
  }

  lemma FlatPathsAppend(cells: set<Point>, end: Point, a: seq<Entry>, b: seq<Entry>)
    ensures FlatPaths(cells, end, a + b) == FlatPaths(cells, end, a) + FlatPaths(cells, end, b)
  {
    if a == [] {
      assert a + b == b;
    } else {
      assert (a + b)[1..] == a[1..] + b;
      FlatPathsAppend(cells, end, a[1..], b);
    }
  }

  lemma TotalNodesAppend(cells: set<Point>, a: seq<Entry>, b: seq<Entry>)
    ensures TotalNodes(cells, a + b) == TotalNodes(cells, a) + TotalNodes(cells, b)
  {
    if a == [] {
      assert a + b == b;
    } else {
      assert (a + b)[1..] == a[1..] + b;
      TotalNodesAppend(cells, a[1..], b);
    }
  }

  /** Adding the `k`-th candidate move to the children adds the paths through it. */
  lemma ChildrenStep(cells: set<Point>, end: Point, e: Entry, k: nat)
    requires 0 < k <= 4
    ensures FlatPaths(cells, end, ChildrenUpTo(cells, e, k))
         == FlatPaths(cells, end, ChildrenUpTo(cells, e, k - 1)) + Via(cells, end, e, k - 1)
    ensures TotalNodes(cells, ChildrenUpTo(cells, e, k))
         == TotalNodes(cells, ChildrenUpTo(cells, e, k - 1)) + NodesVia(cells, e, k - 1)
  {
    var last := if Open(cells, e, k - 1) then [Extend(e, k - 1)] else [];
    assert ChildrenUpTo(cells, e, k) == ChildrenUpTo(cells, e, k - 1) + last;
    FlatPathsAppend(cells, end, ChildrenUpTo(cells, e, k - 1), last);
    TotalNodesAppend(cells, ChildrenUpTo(cells, e, k - 1), last);
    if Open(cells, e, k - 1) {
      assert FlatPaths(cells, end, last) == PathsFrom(cells, end, Extend(e, k - 1)) + FlatPaths(cells, end, []);
      assert TotalNodes(cells, last) == Nodes(cells, Extend(e, k - 1)) + TotalNodes(cells, []);
    }
  }

  /** Popping `e` yields its own path and replaces it by its children. */
  lemma PopEntry(cells: set<Point>, end: Point, e: Entry)
    ensures PathsFrom(cells, end, e) == Yield(end, e) + FlatPaths(cells, end, Children(cells, e))
    ensures Nodes(cells, e) == 1 + TotalNodes(cells, Children(cells, e))
  {
    var v0, v1, v2, v3 := Via(cells, end, e, 0), Via(cells, end, e, 1), Via(cells, end, e, 2), Via(cells, end, e, 3);
    var c1, c2, c3 := ChildrenUpTo(cells, e, 1), ChildrenUpTo(cells, e, 2), ChildrenUpTo(cells, e, 3);
    assert FlatPaths(cells, end, c1) == v0 by {
      ChildrenStep(cells, end, e, 1);
      assert ChildrenUpTo(cells, e, 0) == [];
    }
    assert FlatPaths(cells, end, c2) == v0 + v1 by {
      ChildrenStep(cells, end, e, 2);
    }
    assert FlatPaths(cells, end, c3) == v0 + v1 + v2 by {
      ChildrenStep(cells, end, e, 3);
    }
    assert FlatPaths(cells, end, Children(cells, e)) == v0 + v1 + v2 + v3 by {
      ChildrenStep(cells, end, e, 4);
    }
    assert Nodes(cells, e) == 1 + TotalNodes(cells, Children(cells, e)) by {
      assert ChildrenUpTo(cells, e, 0) == [];
      ChildrenStep(cells, end, e, 1);
      ChildrenStep(cells, end, e, 2);
      ChildrenStep(cells, end, e, 3);
      ChildrenStep(cells, end, e, 4);
    }
  }

  /** One iteration of the search keeps "yielded so far + still to come" equal and shrinks the work. */
  lemma PopQueue(cells: set<Point>, end: Point, queue: seq<Entry>)
    requires queue != []
    ensures Yield(end, queue[0]) + FlatPaths(cells, end, Children(cells, queue[0]) + queue[1..])
         == FlatPaths(cells, end, queue)
    ensures TotalNodes(cells, Children(cells, queue[0]) + queue[1..]) < TotalNodes(cells, queue)
  {
    var e, rest := queue[0], queue[1..];
    var y, c := Yield(end, e), Children(cells, e);
    var fc, fr := FlatPaths(cells, end, c), FlatPaths(cells, end, rest);
    assert FlatPaths(cells, end, queue) == PathsFrom(cells, end, e) + fr;
    assert PathsFrom(cells, end, e) == y + fc by {
      PopEntry(cells, end, e);
    }
    assert FlatPaths(cells, end, c + rest) == fc + fr by {
      FlatPathsAppend(cells, end, c, rest);
    }
    assert y + (fc + fr) == (y + fc) + fr;
    assert TotalNodes(cells, c + rest) < TotalNodes(cells, queue) by {
      PopEntry(cells, end, e);
      TotalNodesAppend(cells, c, rest);
    }
  }

  /**
   * find_paths: a work list of entries; popping one yields its path when it stands on `end`, then
   * pushes every extension by one move onto a key cell not yet visited. The source orders the list as
   * a heap by a turn penalty; this model pops in depth-first order, which yields the same paths.
   */
  method FindPaths(start: Point, end: Point, kp: Keypad) returns (paths: seq<string>)
    ensures paths == FindPathsSpec(start, end, kp)
  {
    paths := Search(Cells(kp), start, end);
  }

  /** The search loop of find_paths over the key cells `cells`. */
  method Search(cells: set<Point>, start: Point, end: Point) returns (paths: seq<string>)
    ensures paths == PathsFrom(cells, end, Start(start))
  {
    var queue := [Start(start)];
    paths := [];
    assert FlatPaths(cells, end, queue) == PathsFrom(cells, end, Start(start)) + FlatPaths(cells, end, []);
    while queue != []
      invariant paths + FlatPaths(cells, end, queue) == PathsFrom(cells, end, Start(start))
      decreases TotalNodes(cells, queue)
    {
      var e := queue[0];
      var pushed := PushChildren(cells, e);
      PopQueue(cells, end, queue);
      if e.pos == end {
        paths := paths + [e.path + "A"];
      }
      queue := pushed + queue[1..];
    }
  }

  /** The inner loop of find_paths: one entry per direction whose next cell is open. */
  method PushChildren(cells: set<Point>, e: Entry) returns (pushed: seq<Entry>)
    ensures pushed == Children(cells, e)
  {
    pushed := [];
    for i := 0 to 4
      invariant pushed == ChildrenUpTo(cells, e, i)
    {
      var next := Step(e.pos, i);
      if next in cells && next !in e.visited {
        pushed := pushed + [Entry(next, e.path + [Directions[i].2], e.visited + {next})];
      }
    }
  }

  // ---------------------------------------------------------------------------------------------
  // What a yielded path is, independently of the search

  predicate AllMoves(s: string) {
    forall i :: 0 <= i < |s| ==> IsMove(s[i])
  }

  predicate Distinct(s: seq<Point>) {
    forall i, j :: 0 <= i < j < |s| ==> s[i] != s[j]
  }

  /** The cells a robot arm passes when the moves are replayed from `pos`, `pos` included. */
  function Trace(pos: Point, moves: string): (t: seq<Point>)
    requires AllMoves(moves)
    ensures |t| == |moves| + 1 && t[0] == pos
    decreases |moves|
  {
    if moves == [] then [pos] else [pos] + Trace(Step(pos, MoveIndex(moves[0])), moves[1..])
  }

  /**
   * `t` is some moves followed by "A" whose replay from `pos` steps only on key cells outside
   * `visited`, never enters a cell twice, and stops on `end`.
   */
  predicate Reaches(cells: set<Point>, end: Point, pos: Point, visited: set<Point>, t: string) {
    && |t| >= 1 && t[|t| - 1] == 'A' && AllMoves(t[..|t| - 1])
    && var tr := Trace(pos, t[..|t| - 1]);
       && tr[|tr| - 1] == end
       && Distinct(tr)
       && forall i :: 1 <= i < |tr| ==> tr[i] in cells && tr[i] !in visited
  }

  lemma MoveIndexOf(i: nat)
    requires i < 4
    ensures IsMove(Directions[i].2) && MoveIndex(Directions[i].2) == i
  {
  }

  /** A path that starts with move `i` is that move followed by a path from the next cell. */
  lemma ReachesStep(cells: set<Point>, end: Point, pos: Point, visited: set<Point>, i: nat, t: string)
    requires i < 4 && pos in visited
    requires Step(pos, i) in cells && Step(pos, i) !in visited
    ensures Reaches(cells, end, Step(pos, i), visited + {Step(pos, i)}, t)
        <==> Reaches(cells, end, pos, visited, [Directions[i].2] + t)
  {
    var n, m := Step(pos, i), Directions[i].2;
    MoveIndexOf(i);
    var u := [m] + t;
    if |t| >= 1 {
      assert u[..|u| - 1] == [m] + t[..|t| - 1];
      assert u[|u| - 1] == t[|t| - 1];
      if AllMoves(t[..|t| - 1]) {
        assert AllMoves(u[..|u| - 1]);
        var tr', tr := Trace(n, t[..|t| - 1]), Trace(pos, u[..|u| - 1]);
        assert tr == [pos] + tr' by {
          assert u[..|u| - 1][1..] == t[..|t| - 1];
        }
        if Reaches(cells, end, n, visited + {n}, t) {
          forall a, b | 0 <= a < b < |tr| ensures tr[a] != tr[b] {
            if a > 0 {
              assert tr[a] == tr'[a - 1] && tr[b] == tr'[b - 1];
            } else {
              assert tr[b] == tr'[b - 1];
              assert b - 1 == 0 || tr'[b - 1] !in visited + {n};
            }
          }
          assert Reaches(cells, end, pos, visited, u);
        }
        if Reaches(cells, end, pos, visited, u) {
          forall j | 1 <= j < |tr'| ensures tr'[j] in cells && tr'[j] !in visited + {n} {
            assert tr'[j] == tr[j + 1] && tr'[0] == tr[1];
          }
          forall a, b | 0 <= a < b < |tr'| ensures tr'[a] != tr'[b] {
            assert tr'[a] == tr[a + 1] && tr'[b] == tr[b + 1];
          }
          assert Reaches(cells, end, n, visited + {n}, t);
        }
      } else {
        var k :| 0 <= k < |t| - 1 && !IsMove(t[..|t| - 1][k]);
        assert u[..|u| - 1][k + 1] == t[..|t| - 1][k];
      }
    }
  }

  /** Everything the search yields from `e` is its path so far followed by a path that `Reaches`. */
  lemma {:induction false} PathsFromSound(cells: set<Point>, end: Point, e: Entry, s: string)
    requires e.pos in e.visited
    requires s in PathsFrom(cells, end, e)
    ensures e.path <= s && Reaches(cells, end, e.pos, e.visited, s[|e.path|..])
    decreases cells - e.visited
  {
    if s in Yield(end, e) {
      assert s == e.path + "A" && s[|e.path|..] == "A";
      assert Trace(e.pos, "A"[..0]) == [e.pos];
    } else {
      var i :| 0 <= i < 4 && s in Via(cells, end, e, i);
      var c := Extend(e, i);
      PathsFromSound(cells, end, c, s);
      ReachesStep(cells, end, e.pos, e.visited, i, s[|c.path|..]);
      assert s[|e.path|..] == [Directions[i].2] + s[|c.path|..];
    }
  }

  /** ...and every such path is yielded. */
  lemma {:induction false} PathsFromComplete(cells: set<Point>, end: Point, e: Entry, s: string)
    requires e.pos in e.visited
    requires e.path <= s && Reaches(cells, end, e.pos, e.visited, s[|e.path|..])
    ensures s in PathsFrom(cells, end, e)
    decreases cells - e.visited
  {
    var t := s[|e.path|..];
    if |t| == 1 {
      assert t[..0] == [] && Trace(e.pos, t[..0]) == [e.pos];
      assert s == e.path + t && t == "A";
      assert s in Yield(end, e);
    } else {
      assert IsMove(t[..|t| - 1][0]);
      var i := MoveIndex(t[0]);
      var tr := Trace(e.pos, t[..|t| - 1]);
      assert tr[1] == Step(e.pos, i);
      assert Open(cells, e, i);
      var c := Extend(e, i);
      assert t == [Directions[i].2] + t[1..];
      ReachesStep(cells, end, e.pos, e.visited, i, t[1..]);
      assert c.path <= s && s[|c.path|..] == t[1..];
      PathsFromComplete(cells, end, c, s);
      assert s in Via(cells, end, e, i);
    }
  }

  /**
   * A string is yielded by find_paths exactly when it is a simple path of moves over key cells from
   * `start` to `end`, followed by "A".
   */
  lemma FindPathsIff(start: Point, end: Point, kp: Keypad, p: string)
    ensures p in FindPathsSpec(start, end, kp) <==> Reaches(Cells(kp), end, start, {start}, p)
  {
    var e := Start(start);
    assert p[|e.path|..] == p;
    if p in FindPathsSpec(start, end, kp) {
      PathsFromSound(Cells(kp), end, e, p);
    }
    if Reaches(Cells(kp), end, start, {start}, p) {
      PathsFromComplete(Cells(kp), end, e, p);
    }
  }

  /** Every yielded string is typed on the directional keypad: zero or more moves, then "A". */
  lemma YieldedKeystrokes(start: Point, end: Point, kp: Keypad, p: string)
    requires p in FindPathsSpec(start, end, kp)
    ensures |p| >= 1 && p[|p| - 1] == 'A' && AllMoves(p[..|p| - 1])
    ensures forall i :: 0 <= i < |p| ==> IsDirectionalKey(p[i])
  {
    FindPathsIff(start, end, kp, p);
    forall i | 0 <= i < |p| - 1 ensures IsMove(p[i]) {
      assert p[i] == p[..|p| - 1][i];
    }
  }

  lemma YieldedNonEmpty(start: Point, end: Point, kp: Keypad)
    ensures var paths := FindPathsSpec(start, end, kp);
            forall i :: 0 <= i < |paths| ==> |paths[i]| >= 1
  {
    var paths := FindPathsSpec(start, end, kp);
    forall i | 0 <= i < |paths| ensures |paths[i]| >= 1 {
      YieldedKeystrokes(start, end, kp, paths[i]);
    }
  }

  /** The cell of each keypad that holds no key. */
  function Gap(kp: Keypad): Point {
    match kp
    case Numeric => (0, 3)
    case Directional => (0, 0)
  }

  lemma GapIsNoKey(kp: Keypad)
    ensures Gap(kp) !in Cells(kp)
  {
    CellsListed(kp);
  }

  /** Replaying a yielded path from a key cell stays on key cells, so it never crosses the gap. */
  lemma ReplayAvoidsGap(start: Point, end: Point, kp: Keypad, p: string)
    requires start in Cells(kp) && p in FindPathsSpec(start, end, kp)
    ensures |p| >= 1 && AllMoves(p[..|p| - 1])
    ensures var tr := Trace(start, p[..|p| - 1]);
            tr[|tr| - 1] == end && forall i :: 0 <= i < |tr| ==> tr[i] in Cells(kp) && tr[i] != Gap(kp)
  {
    var cells := Cells(kp);
    YieldedKeystrokes(start, end, kp, p);
    FindPathsIff(start, end, kp, p);
    var tr := Trace(start, p[..|p| - 1]);
    GapIsNoKey(kp);
    forall i | 0 <= i < |tr| ensures tr[i] in cells && tr[i] != Gap(kp) {
      if i > 0 {
        assert tr[i] in cells;
      }
    }
  }

  /** A sequence of distinct cells drawn from `cells` is no longer than `cells` has members. */
  lemma {:induction false} DistinctBound(s: seq<Point>, cells: set<Point>)
    requires Distinct(s) && forall i :: 0 <= i < |s| ==> s[i] in cells
    ensures |s| <= |cells|
    decreases |s|
  {
    if s != [] {
      var x, rest := s[|s| - 1], s[..|s| - 1];
      forall i | 0 <= i < |rest| ensures rest[i] in cells - {x} {
        assert rest[i] == s[i];
      }
      DistinctBound(rest, cells - {x});
    }
  }

  /** A yielded path never revisits a cell, so it has at most one keystroke per key of the pad. */
  lemma YieldedLengthBound(start: Point, end: Point, kp: Keypad, p: string)
    requires start in Cells(kp) && p in FindPathsSpec(start, end, kp)
    ensures |p| <= |Cells(kp)|
  {
    FindPathsIff(start, end, kp, p);
    DistinctBound(Trace(start, p[..|p| - 1]), Cells(kp));
  }

  /** The numeric pad has eleven key cells and the directional pad five. */
  lemma CellCounts()
    ensures |Cells(Numeric)| == 11 && |Cells(Directional)| == 5
  {
    CellsCounted(Numeric);
    CellsCounted(Directional);
  }

  /** Distinct keys sit on distinct cells, so there are as many cells as keys. */
  lemma CellsCounted(kp: Keypad)
    ensures |Cells(kp)| == |Layout(kp)|
  {
    var entries := Layout(kp);
    assert forall j, k :: 0 <= j < k < |entries| ==> entries[j].1 != entries[k].1;
    ImageCount(entries);
  }

  lemma {:induction false} ImageCount(entries: seq<(char, Point)>)
    requires forall j, k :: 0 <= j < k < |entries| ==> entries[j].1 != entries[k].1
    ensures |set e | e in entries :: e.1| == |entries|
  {
    if entries != [] {
      var rest := entries[1..];
      ImageCount(rest);
      var image := set e | e in rest :: e.1;
      forall e | e in rest
        ensures e.1 != entries[0].1
      {
        var k :| 0 <= k < |rest| && rest[k] == e;
        assert entries[k + 1] == e;
      }
      ImageCons(entries);
      AddFresh(image, entries[0].1);
    }
  }

  lemma ImageCons(entries: seq<(char, Point)>)
    requires entries != []
    ensures (set e | e in entries :: e.1) == {entries[0].1} + (set e | e in entries[1..] :: e.1)
  {
    assert forall e :: e in entries <==> e == entries[0] || e in entries[1..];
  }

  /** A new element adds one to the size of a set. */
  lemma AddFresh(s: set<Point>, x: Point)
    requires x !in s
    ensures |{x} + s| == |s| + 1
  {
    assert {x} + s == s + {x};
  }

  /** Once the target is behind the search, nothing more is yielded. */
  lemma {:induction false} NoReturn(cells: set<Point>, end: Point, e: Entry)
    requires end in e.visited && e.pos != end
    ensures PathsFrom(cells, end, e) == []
    decreases cells - e.visited
  {
    forall i | 0 <= i < 4 ensures Via(cells, end, e, i) == [] {
      if Open(cells, e, i) {
        NoReturn(cells, end, Extend(e, i));
      }
    }
  }

  /** From a key to itself the only path is pressing "A". */
  lemma SameKeyOnlyPress(pos: Point, kp: Keypad)
    ensures FindPathsSpec(pos, pos, kp) == ["A"]
  {
    var e := Start(pos);
    forall i | 0 <= i < 4 ensures Via(Cells(kp), pos, e, i) == [] {
      if Open(Cells(kp), e, i) {
        NoReturn(Cells(kp), pos, Extend(e, i));
      }
    }
    assert e.path + "A" == "A";
    assert FindPathsSpec(pos, pos, kp) == Yield(pos, e) + Via(Cells(kp), pos, e, 0) + Via(Cells(kp), pos, e, 1)
      + Via(Cells(kp), pos, e, 2) + Via(Cells(kp), pos, e, 3);
  }

  // ---------------------------------------------------------------------------------------------
  // Costs (get_path_between, get_path)

  type Cost = Result<nat, Failure>

  /** Sum of two costs; the first failure is the one raised. */
  function Add(a: Cost, b: Cost): Cost {
    if a.Err? then a else if b.Err? then b else Ok(a.value + b.value)
  }

  /** The key pressed before the last key of `code`: the arm starts on "A". */
  function Prev(code: string): char
    requires code != []
  {
    ("A" + code)[|code| - 1]
  }

  /**
   * get_path_between: one key press at depth zero; otherwise the cheapest way, over every path the
   * search yields between the two keys, of typing that path one directional keypad further out.
   */
  function PathBetweenCost(start: char, end: char, kp: Keypad, count: nat): Cost
    decreases count, 0, 0
  {
    if count == 0 then Ok(1)
    else if KeyCell(kp, start).None? || KeyCell(kp, end).None? then Err(KeyError)
    else Cheapest(KeyCell(kp, start).value, KeyCell(kp, end).value, kp, count - 1)
  }

  /** The cheapest way of typing, `count` keypads out, one of the paths between two cells. */
  function Cheapest(from: Point, to: Point, kp: Keypad, count: nat): Cost
    decreases count, 3, 0
  {
    Shortest(FindPathsSpec(from, to, kp), count)
  }

  /** get_path: the costs of the consecutive key pairs of "A" + code, added up. */
  function PathCost(kp: Keypad, code: string, count: nat): Cost
    decreases count, 1, |code|
  {
    if code == [] then Ok(0)
    else Add(PathCost(kp, code[..|code| - 1], count), PathBetweenCost(Prev(code), code[|code| - 1], kp, count))
  }

  /**
   * The cheapest cost of typing one of `paths` on the directional keypad, minimum taken left to right;
   * a failure while costing a path is raised at that path.
   */
  function Shortest(paths: seq<string>, count: nat): Cost
    decreases count, 2, |paths|
  {
    if |paths| == 0 then Err(NoSolutionError)
    else
      var last := PathCost(Directional, paths[|paths| - 1], count);
      if |paths| == 1 then last
      else
        var best := Shortest(paths[..|paths| - 1], count);
        if best.Err? then best
        else if last.Err? then last
        else Ok(Min(best.value, last.value))
  }

  /**
   * `Shortest` is the minimum over the paths: no paths is a NoSolutionError, and once every path
   * can be costed the result is the cost of one of them and no larger than any.
   */
  lemma {:induction false} ShortestIsMinimum(paths: seq<string>, count: nat)
    ensures paths == [] ==> Shortest(paths, count) == Err(NoSolutionError)
    ensures paths != [] && (forall i :: 0 <= i < |paths| ==> PathCost(Directional, paths[i], count).Ok?)
            ==> Shortest(paths, count).Ok?
    ensures Shortest(paths, count).Ok? ==> forall i :: 0 <= i < |paths| ==>
              PathCost(Directional, paths[i], count).Ok?
              && Shortest(paths, count).value <= PathCost(Directional, paths[i], count).value
    ensures Shortest(paths, count).Ok? ==>
              exists i :: 0 <= i < |paths| && PathCost(Directional, paths[i], count) == Shortest(paths, count)
    decreases |paths|
  {
    if |paths| > 1 {
      var init := paths[..|paths| - 1];
      ShortestIsMinimum(init, count);
      assert forall i :: 0 <= i < |init| ==> init[i] == paths[i];
      if Shortest(init, count).Ok? && Shortest(paths, count).Ok? {
        var r := Shortest(paths, count).value;
        if r == Shortest(init, count).value {
          var j :| 0 <= j < |init| && PathCost(Directional, init[j], count) == Shortest(init, count);
          assert PathCost(Directional, paths[j], count) == Shortest(paths, count);
        } else {
          assert PathCost(Directional, paths[|paths| - 1], count) == Shortest(paths, count);
        }
      }
    }
  }

  /** Every key transition costs at least one press. */
  lemma {:induction false} PathBetweenCostPositive(start: char, end: char, kp: Keypad, count: nat)
    ensures PathBetweenCost(start, end, kp, count).Ok? ==> PathBetweenCost(start, end, kp, count).value >= 1
    decreases count, 0, 0
  {
    if count > 0 && KeyCell(kp, start).Some? && KeyCell(kp, end).Some? {
      CheapestPositive(KeyCell(kp, start).value, KeyCell(kp, end).value, kp, count - 1);
    }
  }

  lemma {:induction false} CheapestPositive(from: Point, to: Point, kp: Keypad, count: nat)
    ensures Cheapest(from, to, kp, count).Ok? ==> Cheapest(from, to, kp, count).value >= 1
    decreases count, 3, 0
  {
    YieldedNonEmpty(from, to, kp);
    ShortestPositive(FindPathsSpec(from, to, kp), count);
  }

  lemma {:induction false} ShortestPositive(paths: seq<string>, count: nat)
    requires forall i :: 0 <= i < |paths| ==> |paths[i]| >= 1
    ensures Shortest(paths, count).Ok? ==> Shortest(paths, count).value >= 1
    decreases count, 2, |paths|
  {
    ShortestIsMinimum(paths, count);
    if Shortest(paths, count).Ok? {
      var i :| 0 <= i < |paths| && PathCost(Directional, paths[i], count) == Shortest(paths, count);
      PathCostAtLeastLength(Directional, paths[i], count);
    }
  }

  /** A code costs at least one press per key: get_path(k, code, n) >= |code|. */
  lemma {:induction false} PathCostAtLeastLength(kp: Keypad, code: string, count: nat)
    ensures PathCost(kp, code, count).Ok? ==> PathCost(kp, code, count).value >= |code|
    decreases count, 1, |code|
  {
    if code != [] {
      PathCostAtLeastLength(kp, code[..|code| - 1], count);
      PathBetweenCostPositive(Prev(code), code[|code| - 1], kp, count);
    }
  }

  /** With no robot in between, every key press costs one: a code costs its length. */
  lemma {:induction false} DepthZeroCostsLength(kp: Keypad, code: string)
    ensures PathCost(kp, code, 0) == Ok(|code|)
    decreases |code|
  {
    if code != [] {
      DepthZeroCostsLength(kp, code[..|code| - 1]);
    }
  }

  /** Pressing the key the arm already rests on costs one press at every depth. */
  lemma SameKeyCostsOne(k: char, kp: Keypad, count: nat)
    requires KeyCell(kp, k).Some?
    ensures PathBetweenCost(k, k, kp, count) == Ok(1)
  {
    if count > 0 {
      SameKeyStep(k, kp, count);
      ActivateCostsOne(count - 1);
    }
  }

  /** Typing "A" on the directional keypad costs one press at every depth. */
  lemma {:induction false} ActivateCostsOne(count: nat)
    ensures PathCost(Directional, "A", count) == Ok(1)
    decreases count
  {
    if count > 0 {
      ActivateStep(count);
      ActivateCostsOne(count - 1);
    } else {
      DepthZeroCostsLength(Directional, "A");
    }
  }

  /** Typing "A" is pressing "A" again, which is typing "A" one keypad further out. */
  lemma ActivateStep(count: nat)
    requires count > 0
    ensures PathCost(Directional, "A", count) == PathCost(Directional, "A", count - 1)
  {
    assert PathCost(Directional, "A", count) == PathBetweenCost('A', 'A', Directional, count) by {
      PressOnce('A', Directional, count);
    }
    assert PathBetweenCost('A', 'A', Directional, count) == PathCost(Directional, "A", count - 1) by {
      assert KeyCell(Directional, 'A').Some?;
      SameKeyStep('A', Directional, count);
    }
  }

  /** Above depth zero, staying on a key means typing "A" one keypad further out. */
  lemma SameKeyStep(k: char, kp: Keypad, count: nat)
    requires KeyCell(kp, k).Some? && count > 0
    ensures PathBetweenCost(k, k, kp, count) == PathCost(Directional, "A", count - 1)
  {
    var pos := KeyCell(kp, k).value;
    assert PathBetweenCost(k, k, kp, count) == Cheapest(pos, pos, kp, count - 1) by {
      BetweenKeys(k, k, kp, count);
    }
    assert Cheapest(pos, pos, kp, count - 1) == PathCost(Directional, "A", count - 1) by {
      SameCellCheapest(pos, kp, count - 1);
    }
  }

  /** Above depth zero, a transition between two keys of the pad is the cheapest path between their cells. */
  lemma BetweenKeys(start: char, end: char, kp: Keypad, count: nat)
    requires KeyCell(kp, start).Some? && KeyCell(kp, end).Some? && count > 0
    ensures PathBetweenCost(start, end, kp, count)
         == Cheapest(KeyCell(kp, start).value, KeyCell(kp, end).value, kp, count - 1)
  {
  }

  /** Staying on a cell means typing "A" one keypad further out. */
  lemma SameCellCheapest(pos: Point, kp: Keypad, count: nat)
    ensures Cheapest(pos, pos, kp, count) == PathCost(Directional, "A", count)
  {
    assert Cheapest(pos, pos, kp, count) == Shortest(["A"], count) by {
      SameKeyOnlyPress(pos, kp);
    }
    ShortestOfOne("A", count);
  }

  /** The cheapest of a single path is that path's cost. */
  lemma ShortestOfOne(p: string, count: nat)
    ensures Shortest([p], count) == PathCost(Directional, p, count)
  {
  }

  /** A one-key code is one transition, from "A" where the arm starts. */
  lemma PressOnce(c: char, kp: Keypad, count: nat)
    ensures PathCost(kp, [c], count) == PathBetweenCost('A', c, kp, count)
  {
    assert [c][..0] == [] && Prev([c]) == 'A';
    assert PathCost(kp, [c], count) == Add(Ok(0), PathBetweenCost('A', c, kp, count));
    AddZero(PathBetweenCost('A', c, kp, count));
  }

  lemma AddZero(x: Cost)
    ensures Add(Ok(0), x) == x
  {
  }

  /**
   * One level above the keypad a transition costs the length of the shortest yielded path, since
   * each of its keys is then pressed directly.
   */
  lemma DepthOneIsShortestPath(start: char, end: char, kp: Keypad)
    requires KeyCell(kp, start).Some? && KeyCell(kp, end).Some?
    ensures var paths := FindPathsSpec(KeyCell(kp, start).value, KeyCell(kp, end).value, kp);
            var r := PathBetweenCost(start, end, kp, 1);
            && (paths != [] <==> r.Ok?)
            && (r.Ok? ==> (forall p :: p in paths ==> r.value <= |p|) && exists p :: p in paths && |p| == r.value)
  {
    var paths := FindPathsSpec(KeyCell(kp, start).value, KeyCell(kp, end).value, kp);
    var r := PathBetweenCost(start, end, kp, 1);
    assert r == Shortest(paths, 0);
    forall i | 0 <= i < |paths| ensures PathCost(Directional, paths[i], 0) == Ok(|paths[i]|) {
      DepthZeroCostsLength(Directional, paths[i]);
    }
    ShortestIsMinimum(paths, 0);
    if r.Ok? {
      forall p | p in paths ensures r.value <= |p| {
        var i :| 0 <= i < |paths| && paths[i] == p;
      }
      var i :| 0 <= i < |paths| && PathCost(Directional, paths[i], 0) == r;
      assert paths[i] in paths && |paths[i]| == r.value;
    }
  }

  /** Paths end in "A", so typing one path after another costs the sum of typing each. */
  lemma {:induction false} PathCostAppend(kp: Keypad, u: string, v: string, count: nat)
    requires u == [] || u[|u| - 1] == 'A'
    ensures PathCost(kp, u + v, count) == Add(PathCost(kp, u, count), PathCost(kp, v, count))
    decreases |v|
  {
    if v == [] {
      assert u + v == u;
    } else {
      var v' := v[..|v| - 1];
      var step := PathBetweenCost(Prev(v), v[|v| - 1], kp, count);
      PathCostAppend(kp, u, v', count);
      AppendLast(kp, u, v, count);
      AddAssociative(PathCost(kp, u, count), PathCost(kp, v', count), step);
    }
  }

  /** The last key pair of u + v is the last key pair of v, as u ends on "A". */
  lemma AppendLast(kp: Keypad, u: string, v: string, count: nat)
    requires u == [] || u[|u| - 1] == 'A'
    requires v != []
    ensures var v', step := v[..|v| - 1], PathBetweenCost(Prev(v), v[|v| - 1], kp, count);
            && PathCost(kp, v, count) == Add(PathCost(kp, v', count), step)
            && PathCost(kp, u + v, count) == Add(PathCost(kp, u + v', count), step)
  {
    assert (u + v)[..|u + v| - 1] == u + v[..|v| - 1];
    assert (u + v)[|u + v| - 1] == v[|v| - 1];
    assert Prev(u + v) == Prev(v);
  }

  lemma AddAssociative(a: Cost, b: Cost, c: Cost)
    ensures Add(Add(a, b), c) == Add(a, Add(b, c))
  {
  }

  /** A key the keypad lacks makes get_path raise, once a robot has to move to it. */
  lemma UnknownKeyFails(kp: Keypad, code: string, count: nat, j: nat)
    requires count >= 1 && j < |code| && KeyCell(kp, code[j]).None?
    ensures PathCost(kp, code, count).Err?
  {
    PathCostStep(kp, code, j, count);
    PathCostErrPersists(kp, code, j + 1, count);
  }

  /** A failure at some prefix of the paths is the failure of the whole minimum. */
  lemma {:induction false} ShortestErrPersists(paths: seq<string>, k: nat, count: nat)
    requires 1 <= k <= |paths| && Shortest(paths[..k], count).Err?
    ensures Shortest(paths, count) == Shortest(paths[..k], count)
    decreases |paths|
  {
    if k < |paths| {
      var init := paths[..|paths| - 1];
      assert init[..k] == paths[..k];
      ShortestErrPersists(init, k, count);
    } else {
      assert paths[..k] == paths;
    }
  }

  /** A failure while costing a prefix of the code is the failure of the whole code. */
  lemma {:induction false} PathCostErrPersists(kp: Keypad, code: string, k: nat, count: nat)
    requires k <= |code| && PathCost(kp, code[..k], count).Err?
    ensures PathCost(kp, code, count) == PathCost(kp, code[..k], count)
    decreases |code|
  {
    if k < |code| {
      var init := code[..|code| - 1];
      assert init[..k] == code[..k];
      PathCostErrPersists(kp, init, k, count);
    } else {
      assert code[..k] == code;
    }
  }

  /** The minimum over one more path, as the loop of get_path_between takes it. */
  lemma ShortestStep(paths: seq<string>, i: nat, count: nat)
    requires i < |paths|
    ensures var got := PathCost(Directional, paths[i], count);
            var best := Shortest(paths[..i], count);
            Shortest(paths[..i + 1], count)
            == if i == 0 then got
               else if best.Err? then best
               else if got.Err? then got
               else Ok(Min(best.value, got.value))
  {
    assert paths[..i + 1][..i] == paths[..i];
  }

  /** The cost of one more key pair, as the loop of get_path takes it. */
  lemma PathCostStep(kp: Keypad, code: string, i: nat, count: nat)
    requires i < |code|
    ensures PathCost(kp, code[..i + 1], count)
         == Add(PathCost(kp, code[..i], count), PathBetweenCost(("A" + code)[i], code[i], kp, count))
  {
    assert code[..i + 1][..i] == code[..i];
    assert Prev(code[..i + 1]) == ("A" + code)[i];
  }

  /** A successful step adds the cost of moving to the next key to the cost so far. */
  lemma PathCostGrows(kp: Keypad, code: string, i: nat, count: nat, total: nat)
    requires i < |code| && PathCost(kp, code[..i], count) == Ok(total)
    requires PathBetweenCost(("A" + code)[i], code[i], kp, count).Ok?
    ensures PathCost(kp, code[..i + 1], count) == Ok(total + PathBetweenCost(("A" + code)[i], code[i], kp, count).value)
  {
    PathCostStep(kp, code, i, count);
  }

  // ---------------------------------------------------------------------------------------------
  // The memo tables (@cache on get_path_between and get_path)

  /**
   * The results get_path_between and get_path have returned, keyed by their arguments. A call that
   * raises stores nothing.
   */
  class PathCache {
    var between: map<(char, char, Keypad, nat), nat>
    var codes: map<(Keypad, string, nat), nat>

    /** Every stored entry is the value of the pure definition at its key. */
    ghost predicate Valid()
      reads this
    {
      && (forall k :: k in between ==> PathBetweenCost(k.0, k.1, k.2, k.3) == Ok(between[k]))
      && (forall k :: k in codes ==> PathCost(k.0, k.1, k.2) == Ok(codes[k]))
    }

    /** Only grows: entries once stored stay. */
    ghost predicate Grown(oldBetween: map<(char, char, Keypad, nat), nat>, oldCodes: map<(Keypad, string, nat), nat>)
      reads this
    {
      oldBetween.Keys <= between.Keys && oldCodes.Keys <= codes.Keys
    }

    constructor ()
      ensures Valid() && between == map[] && codes == map[]
    {
      between := map[];
      codes := map[];
    }

    method GetPathBetween(start: char, end: char, kp: Keypad, count: nat) returns (r: Cost)
      requires Valid()
      modifies this
      ensures Valid() && Grown(old(between), old(codes))
      ensures r == PathBetweenCost(start, end, kp, count)
      decreases count, 0, 0
    {
      var key := (start, end, kp, count);
      if key in between {
        return Ok(between[key]);
      }
      if count == 0 {
        r := Ok(1);
      } else if KeyCell(kp, start).None? || KeyCell(kp, end).None? {
        return Err(KeyError);
      } else {
        r := CheapestPath(KeyCell(kp, start).value, KeyCell(kp, end).value, kp, count - 1);
        if r.Err? {
          return;
        }
      }
      assert PathBetweenCost(key.0, key.1, key.2, key.3) == Ok(r.value);
      between := between[key := r.value];
    }

    /** The paths between two cells, and the cheapest of them one keypad further out. */
    method CheapestPath(from: Point, to: Point, kp: Keypad, count: nat) returns (r: Cost)
      requires Valid()
      modifies this
      ensures Valid() && Grown(old(between), old(codes))
      ensures r == Cheapest(from, to, kp, count)
      decreases count, 3, 0
    {
      var paths := FindPaths(from, to, kp);
      r := MinPathCost(paths, count);
    }

    /** The loop of get_path_between over the yielded paths, keeping the cheapest so far. */
    method MinPathCost(paths: seq<string>, count: nat) returns (r: Cost)
      requires Valid()
      modifies this
      ensures Valid() && Grown(old(between), old(codes))
      ensures r == Shortest(paths, count)
      decreases count, 2, |paths|
    {
      var shortest: Option<nat> := None;
      for i := 0 to |paths|
        invariant Valid() && Grown(old(between), old(codes))
        invariant i == 0 <==> shortest.None?
        invariant i > 0 ==> Shortest(paths[..i], count) == Ok(shortest.value)
      {
        var got := GetPath(Directional, paths[i], count);
        ShortestStep(paths, i, count);
        if got.Err? {
          ShortestErrPersists(paths, i + 1, count);
          return got;
        }
        if shortest.None? || got.value < shortest.value {
          shortest := Some(got.value);
        }
      }
      if shortest.None? {
        return Err(NoSolutionError);
      }
      assert paths[..|paths|] == paths;
      r := Ok(shortest.value);
    }

    method GetPath(kp: Keypad, code: string, count: nat) returns (r: Cost)
      requires Valid()
      modifies this
      ensures Valid() && Grown(old(between), old(codes))
      ensures r == PathCost(kp, code, count)
      decreases count, 1, |code|
    {
      var key := (kp, code, count);
      if key in codes {
        return Ok(codes[key]);
      }
      r := SumPath(kp, code, count);
      if r.Ok? {
        codes := codes[key := r.value];
      }
    }

    /** The loop of get_path: the costs of moving between each two consecutive keys, added up. */
    method SumPath(kp: Keypad, code: string, count: nat) returns (r: Cost)
      requires Valid()
      modifies this
      ensures Valid() && Grown(old(between), old(codes))
      ensures r == PathCost(kp, code, count)
      decreases count, 1, |code|, 0
    {
      var total: nat := 0;
      for i := 0 to |code|
        invariant Valid() && Grown(old(between), old(codes))
        invariant PathCost(kp, code[..i], count) == Ok(total)
      {
        var got := GetPathBetween(("A" + code)[i], code[i], kp, count);
        if got.Err? {
          PathCostStep(kp, code, i, count);
          PathCostErrPersists(kp, code, i + 1, count);
          return got;
        }
        PathCostGrows(kp, code, i, count, total);
        total := total + got.value;
        assert PathCost(kp, code[..i + 1], count) == Ok(total);
      }
      assert code[..|code|] == code;
      r := Ok(total);
    }
  }

  // ---------------------------------------------------------------------------------------------
  // Complexity sums (part_1, part_2)

  /** int(code[:-1]): the decimal number in front of the final key; anything else is a ValueError. */
  function NumericPart(code: string): Result<nat, Failure> {
    if |code| >= 2 && AllDigits(code[..|code| - 1]) then Ok(DigitsValue(code[..|code| - 1]))
    else Err(ValueError)
  }

  /** The complexity of one code: its cost on the numeric keypad times its numeric part. */
  function Complexity(code: string, count: nat): Cost {
    var moves := PathCost(Numeric, code, count);
    if moves.Err? then moves
    else
      var n := NumericPart(code);
      if n.Err? then n else Ok(moves.value * n.value)
  }

  function TotalComplexity(codes: seq<string>, count: nat): Cost {
    if codes == [] then Ok(0)
    else Add(TotalComplexity(codes[..|codes| - 1], count), Complexity(codes[|codes| - 1], count))
  }

  /** The loop of part_1 and part_2 over the codes, with `count` keypads in the chain. */
  method SumComplexity(codes: seq<string>, count: nat, cache: PathCache) returns (r: Cost)
    requires cache.Valid()
    modifies cache
    ensures cache.Valid()
    ensures r == TotalComplexity(codes, count)
  {
    var total: nat := 0;
    for i := 0 to |codes|
      invariant cache.Valid()
      invariant TotalComplexity(codes[..i], count) == Ok(total)
    {
      var code := codes[i];
      var moves := cache.GetPath(Numeric, code, count);
      if moves.Err? {
        TotalComplexityStep(codes, i, count);
        assert Complexity(code, count) == moves;
        TotalComplexityErrPersists(codes, i + 1, count);
        return moves;
      }
      var n := NumericPart(code);
      if n.Err? {
        TotalComplexityStep(codes, i, count);
        assert Complexity(code, count) == n;
        TotalComplexityErrPersists(codes, i + 1, count);
        return n;
      }
      ComplexityOf(code, count, moves.value, n.value);
      TotalComplexityGrows(codes, i, count, total, moves.value * n.value);
      total := total + moves.value * n.value;
      assert TotalComplexity(codes[..i + 1], count) == Ok(total);
    }
    assert codes[..|codes|] == codes;
    r := Ok(total);
  }

  lemma ComplexityOf(code: string, count: nat, moves: nat, n: nat)
    requires PathCost(Numeric, code, count) == Ok(moves) && NumericPart(code) == Ok(n)
    ensures Complexity(code, count) == Ok(moves * n)
  {
  }

  /** A code that succeeds adds its complexity to the total so far. */
  lemma TotalComplexityGrows(codes: seq<string>, i: nat, count: nat, total: nat, c: nat)
    requires i < |codes| && TotalComplexity(codes[..i], count) == Ok(total) && Complexity(codes[i], count) == Ok(c)
    ensures TotalComplexity(codes[..i + 1], count) == Ok(total + c)
  {
    TotalComplexityStep(codes, i, count);
  }

  lemma TotalComplexityStep(codes: seq<string>, i: nat, count: nat)
    requires i < |codes|
    ensures TotalComplexity(codes[..i + 1], count) == Add(TotalComplexity(codes[..i], count), Complexity(codes[i], count))
  {
    assert codes[..i + 1][..i] == codes[..i];
  }

  lemma {:induction false} TotalComplexityErrPersists(codes: seq<string>, k: nat, count: nat)
    requires k <= |codes| && TotalComplexity(codes[..k], count).Err?
    ensures TotalComplexity(codes, count) == TotalComplexity(codes[..k], count)
    decreases |codes|
  {
    if k < |codes| {
      var init := codes[..|codes| - 1];
      assert init[..k] == codes[..k];
      TotalComplexityErrPersists(init, k, count);
    } else {
      assert codes[..k] == codes;
    }
  }

  /** part_1: three keypads between the operator and the door. */
  method Part1(puzzle: string, cache: PathCache) returns (r: Cost)
    requires cache.Valid()
    modifies cache
    ensures cache.Valid() && r == TotalComplexity(Lines(puzzle), 3)
  {
    r := SumComplexity(Lines(puzzle), 3, cache);
  }

  /** part_2: twenty-six keypads. */
  method Part2(puzzle: string, cache: PathCache) returns (r: Cost)
    requires cache.Valid()
    modifies cache
    ensures cache.Valid() && r == TotalComplexity(Lines(puzzle), 26)
  {
    r := SumComplexity(Lines(puzzle), 26, cache);
  }
}
