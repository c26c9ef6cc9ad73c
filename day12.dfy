/**
 * Garden groups (src/day_12.py): the garden is split into patches, the 4-connected regions of one
 * plant; fencing a patch costs its area times its perimeter, the number of cell sides that face
 * out of the patch.
 */
module Day12 {
  import opened Common

  /** `get_directions` */
  const Dirs: seq<Point> := [(1, 0), (-1, 0), (0, 1), (0, -1)]

  /** The neighbour of p in direction k. */
  function Beside(p: Point, k: int): Point
    requires 0 <= k < 4
  {
    Add(p, Dirs[k])
  }

  // ---------------------------------------------------------------------------------------------
  // parse_input

  /** The garden of a text split on "\n": every character, by position. */
  ghost predicate Planted(lines: seq<string>, g: map<Point, char>) {
    (forall p :: p in g <==> InText(lines, p))
    && (forall p :: p in g ==> InText(lines, p) && g[p] == lines[p.1][p.0])
  }

  ghost predicate Recorded(lines: seq<string>, g: map<Point, char>, row: int, col: int) {
    (forall p :: p in g <==> InText(lines, p) && ReadBefore(p, row, col))
    && (forall p :: p in g ==> InText(lines, p) && g[p] == lines[p.1][p.0])
  }

  lemma RecordStep(lines: seq<string>, g: map<Point, char>, row: nat, col: nat)
    requires row < |lines| && col < |lines[row]| && Recorded(lines, g, row, col)
    ensures Recorded(lines, g[(col, row) := lines[row][col]], row, col + 1)
  {
    assert InText(lines, (col, row));
    forall p | InText(lines, p)
      ensures ReadBefore(p, row, col + 1) <==> ReadBefore(p, row, col) || p == (col, row)
    {
    }
  }

  lemma RowDone(lines: seq<string>, g: map<Point, char>, row: nat)
    requires row < |lines| && Recorded(lines, g, row, |lines[row]|)
    ensures Recorded(lines, g, row + 1, 0)
  {
    forall p | InText(lines, p)
      ensures ReadBefore(p, row + 1, 0) <==> ReadBefore(p, row, |lines[row]|)
    {
    }
  }

  /** parse_input: every cell of `puzzle.split("\n")`. */
  method ParseInput(puzzle: string) returns (g: map<Point, char>)
    ensures Planted(Split(puzzle), g)
  {
    var lines := Split(puzzle);
    g := map[];
    for row := 0 to |lines|
      invariant Recorded(lines, g, row, 0)
    {
      var line := lines[row];
      for col := 0 to |line|
        invariant Recorded(lines, g, row, col)
      {
        RecordStep(lines, g, row, col);
        g := g[(col, row) := line[col]];
      }
      RowDone(lines, g, row);
    }
  }

  // ---------------------------------------------------------------------------------------------
  // Patches

  /** The neighbour q of p is in the garden with the same plant: the flood fill may step there. */
  predicate SamePlant(g: map<Point, char>, p: Point, q: Point) {
    p in g && q in g && g[q] == g[p]
  }

  /** `get_neighbors` */
  function Neighbours(p: Point): seq<Point> {
    [Beside(p, 0), Beside(p, 1), Beside(p, 2), Beside(p, 3)]
  }

  /** One step of the flood fill: to a 4-neighbour with the same plant. */
  predicate Step(g: map<Point, char>, p: Point, q: Point) {
    q in Neighbours(p) && SamePlant(g, p, q)
  }

  /** A walk through the garden between 4-neighbours of one plant. */
  ghost predicate Walk(g: map<Point, char>, t: seq<Point>) {
    |t| >= 1 && t[0] in g && forall i :: 0 <= i < |t| - 1 ==> Step(g, t[i], t[i + 1])
  }

  ghost predicate WalkTo(g: map<Point, char>, t: seq<Point>, p: Point, q: Point) {
    Walk(g, t) && t[0] == p && t[|t| - 1] == q
  }

  /** The patch of p: every cell a walk from p reaches. */
  ghost function Component(g: map<Point, char>, p: Point): set<Point> {
    set q | q in g.Keys && exists t :: WalkTo(g, t, p, q)
  }

  /** Every same-plant neighbour of a cell of S is in S. */
  ghost predicate Closed(g: map<Point, char>, s: set<Point>) {
    forall q, r :: q in s && Step(g, q, r) ==> r in s
  }

  lemma ComponentHasSeed(g: map<Point, char>, p: Point)
    requires p in g
    ensures p in Component(g, p)
  {
    assert WalkTo(g, [p], p, p);
  }

  /** A patch grows by same-plant neighbours. */
  lemma ComponentStep(g: map<Point, char>, p: Point, q: Point, r: Point)
    requires q in Component(g, p) && Step(g, q, r)
    ensures r in Component(g, p)
  {
    var t :| WalkTo(g, t, p, q);
    var t' := t + [r];
    forall i | 0 <= i < |t'| - 1
      ensures Step(g, t'[i], t'[i + 1])
    {
      if i < |t| - 1 {
        assert t'[i] == t[i] && t'[i + 1] == t[i + 1];
      }
    }
    assert WalkTo(g, t', p, r);
  }

  /** Steps can be taken backwards. */
  lemma StepBack(g: map<Point, char>, p: Point, q: Point)
    requires Step(g, p, q)
    ensures Step(g, q, p)
  {
  }

  /** A closed set holding the end of a walk holds its start: walks can be taken backwards. */
  lemma {:induction false} ClosedBackwards(g: map<Point, char>, s: set<Point>, t: seq<Point>)
    requires Closed(g, s) && Walk(g, t) && t[|t| - 1] in s
    ensures t[0] in s
    decreases |t|
  {
    if |t| > 1 {
      var n := |t| - 1;
      StepBack(g, t[n - 1], t[n]);
      var init := t[..n];
      assert forall i :: 0 <= i < n ==> init[i] == t[i];
      assert Walk(g, init);
      ClosedBackwards(g, s, init);
    }
  }

  /** A closed set holding p holds p's whole patch. */
  lemma {:induction false} ClosedForwards(g: map<Point, char>, s: set<Point>, t: seq<Point>)
    requires Closed(g, s) && Walk(g, t) && t[0] in s
    ensures t[|t| - 1] in s
    decreases |t|
  {
    if |t| > 1 {
      var n := |t| - 1;
      var init := t[..n];
      assert forall i :: 0 <= i < n ==> init[i] == t[i];
      assert Walk(g, init);
      ClosedForwards(g, s, init);
      assert Step(g, t[n - 1], t[n]);
    }
  }

  lemma ClosedHasComponent(g: map<Point, char>, s: set<Point>, p: Point)
    requires Closed(g, s) && p in s
    ensures Component(g, p) <= s
  {
    forall q | q in Component(g, p)
      ensures q in s
    {
      var t :| WalkTo(g, t, p, q);
      ClosedForwards(g, s, t);
    }
  }

  /** A patch misses every closed set that misses its seed. */
  lemma ComponentAvoids(g: map<Point, char>, s: set<Point>, p: Point)
    requires Closed(g, s) && p !in s
    ensures Component(g, p) * s == {}
  {
    forall q | q in Component(g, p) && q in s
      ensures false
    {
      var t :| WalkTo(g, t, p, q);
      ClosedBackwards(g, s, t);
    }
  }

  /** Every cell of a patch has the seed's plant. */
  lemma {:induction false} WalkSamePlant(g: map<Point, char>, t: seq<Point>)
    requires Walk(g, t)
    ensures t[|t| - 1] in g && g[t[|t| - 1]] == g[t[0]]
    decreases |t|
  {
    if |t| > 1 {
      var n := |t| - 1;
      var init := t[..n];
      assert forall i :: 0 <= i < n ==> init[i] == t[i];
      assert Walk(g, init);
      WalkSamePlant(g, init);
      assert Step(g, t[n - 1], t[n]);
    }
  }

  lemma ComponentSamePlant(g: map<Point, char>, p: Point, q: Point)
    requires q in Component(g, p)
    ensures p in g && q in g && g[q] == g[p]
  {
    var t :| WalkTo(g, t, p, q);
    WalkSamePlant(g, t);
  }

  /** The patches a closed set is made of: the patch of each of its cells is inside it. */
  lemma ComponentsClosed(g: map<Point, char>, p: Point)
    ensures Closed(g, Component(g, p))
  {
    forall q, r | q in Component(g, p) && Step(g, q, r)
      ensures r in Component(g, p)
    {
      ComponentStep(g, p, q, r);
    }
  }

  // ---------------------------------------------------------------------------------------------
  // The flood fill of part_1

  /** Closed, except for the cells still queued. */
  ghost predicate ClosedBut(g: map<Point, char>, patch: set<Point>, queue: seq<Point>) {
    forall q, r :: q in patch && q !in queue && Step(g, q, r) ==> r in patch
  }

  /** The state of one patch's search. */
  ghost predicate Filling(g: map<Point, char>, pos: Point, visited: set<Point>, patch: set<Point>, seen: set<Point>, queue: seq<Point>) {
    visited <= seen <= g.Keys && seen <= visited + patch
    && patch <= Component(g, pos) && Component(g, pos) * visited == {}
    && (forall i :: 0 <= i < |queue| ==> queue[i] in patch)
    && pos in patch && patch - {pos} <= seen
    && (pos !in seen ==> queue == [pos])
    && ClosedBut(g, patch, queue)
  }

  /** Taking the front of the queue: it is seen from now on, and stays queued until expanded. */
  lemma Pop(g: map<Point, char>, pos: Point, visited: set<Point>, patch: set<Point>, seen: set<Point>, queue: seq<Point>)
    requires Filling(g, pos, visited, patch, seen, queue) && queue != []
    ensures Filling(g, pos, visited, patch, seen + {queue[0]}, [queue[0]] + queue[1..])
  {
    assert [queue[0]] + queue[1..] == queue;
  }

  /** The search while `current` is expanded: directions below k are handled. */
  ghost predicate Expanding(g: map<Point, char>, pos: Point, visited: set<Point>, patch: set<Point>, seen: set<Point>,
                            current: Point, rest: seq<Point>, k: int) {
    Filling(g, pos, visited, patch, seen, [current] + rest) && current in seen
    && forall j :: 0 <= j < k && j < 4 && SamePlant(g, current, Beside(current, j)) ==> Beside(current, j) in seen
  }

  /** The neighbour in direction k of the cell being expanded is queued when unseen and of the same plant. */
  lemma FillStep(g: map<Point, char>, pos: Point, visited: set<Point>, patch: set<Point>, seen: set<Point>,
                 current: Point, rest: seq<Point>, k: int)
    requires Expanding(g, pos, visited, patch, seen, current, rest, k) && 0 <= k < 4
    requires SamePlant(g, current, Beside(current, k)) && Beside(current, k) !in seen
    ensures Expanding(g, pos, visited, patch + {Beside(current, k)}, seen + {Beside(current, k)}, current, rest + [Beside(current, k)], k + 1)
    ensures Unvisited(g, seen + {Beside(current, k)}) < Unvisited(g, seen)
  {
    var nb := Beside(current, k);
    assert ([current] + rest)[0] == current;
    assert current in patch;
    assert Neighbours(current)[k] == nb;
    ComponentStep(g, pos, current, nb);
    SeeOne(g, seen, nb);
    var q' := [current] + (rest + [nb]);
    forall i | 0 <= i < |q'|
      ensures q'[i] in patch + {nb}
    {
      if 0 < i < |q'| - 1 {
        assert q'[i] == ([current] + rest)[i];
      }
    }
    forall q, r | q in patch + {nb} && q !in q' && Step(g, q, r)
      ensures r in patch + {nb}
    {
      assert q !in [current] + rest;
    }
    assert Filling(g, pos, visited, patch + {nb}, seen + {nb}, q');
  }

  /** A neighbour already seen, or of another plant, or outside the garden, is passed over. */
  lemma SkipStep(g: map<Point, char>, pos: Point, visited: set<Point>, patch: set<Point>, seen: set<Point>,
                 current: Point, rest: seq<Point>, k: int)
    requires Expanding(g, pos, visited, patch, seen, current, rest, k) && 0 <= k < 4
    requires !(SamePlant(g, current, Beside(current, k)) && Beside(current, k) !in seen)
    ensures Expanding(g, pos, visited, patch, seen, current, rest, k + 1)
  {
  }

  /** With all four neighbours handled, the expanded cell leaves the queue. */
  lemma Expanded(g: map<Point, char>, pos: Point, visited: set<Point>, patch: set<Point>, seen: set<Point>,
                 current: Point, rest: seq<Point>)
    requires Expanding(g, pos, visited, patch, seen, current, rest, 4)
    ensures Filling(g, pos, visited, patch, seen, rest)
  {
    assert ([current] + rest)[0] == current;
    assert current in patch;
    forall r | Step(g, current, r)
      ensures r in patch
    {
      ComponentStep(g, pos, current, r);
      var j :| 0 <= j < 4 && r == Neighbours(current)[j];
      assert SamePlant(g, current, Beside(current, j));
      assert r in Component(g, pos) && r !in Component(g, pos) * visited;
    }
    forall i | 0 <= i < |rest|
      ensures rest[i] in patch
    {
      assert rest[i] == ([current] + rest)[i + 1];
    }
    forall q, r | q in patch && q !in rest && Step(g, q, r)
      ensures r in patch
    {
      if q != current {
        assert q !in [current] + rest;
      }
    }
  }

  function Unvisited(g: map<Point, char>, seen: set<Point>): nat {
    |g.Keys - seen|
  }

  lemma SeeOne(g: map<Point, char>, seen: set<Point>, nb: Point)
    requires nb in g.Keys - seen
    ensures Unvisited(g, seen + {nb}) == Unvisited(g, seen) - 1
  {
    assert g.Keys - (seen + {nb}) == (g.Keys - seen) - {nb};
  }

  lemma SeeAny(g: map<Point, char>, seen: set<Point>, c: Point)
    ensures Unvisited(g, seen + {c}) <= Unvisited(g, seen)
  {
    if c in g.Keys - seen {
      SeeOne(g, seen, c);
    } else {
      assert g.Keys - (seen + {c}) == g.Keys - seen;
    }
  }

  /** The search from `pos` of part_1: its patch, and the cells visited afterwards. */
  method Fill(g: map<Point, char>, pos: Point, visited: set<Point>) returns (patch: set<Point>, seen: set<Point>)
    requires pos in g && pos !in visited && visited <= g.Keys && Closed(g, visited)
    ensures patch == Component(g, pos) && seen == visited + patch
  {
    patch := {pos};
    var toCheck := [pos];
    seen := visited;
    ComponentHasSeed(g, pos);
    ComponentAvoids(g, visited, pos);
    while toCheck != []
      invariant Filling(g, pos, visited, patch, seen, toCheck)
      decreases 2 * Unvisited(g, seen) + |toCheck|
    {
      ghost var before := 2 * Unvisited(g, seen) + |toCheck|;
      var current := toCheck[0];
      var rest := toCheck[1..];
      Pop(g, pos, visited, patch, seen, toCheck);
      SeeAny(g, seen, current);
      seen := seen + {current};
      for k := 0 to 4
        invariant Expanding(g, pos, visited, patch, seen, current, rest, k)
        invariant 2 * Unvisited(g, seen) + |rest| < before
      {
        var neighbor := Beside(current, k);
        if neighbor in g && g[neighbor] == g[current] && neighbor !in seen {
          FillStep(g, pos, visited, patch, seen, current, rest, k);
          rest := rest + [neighbor];
          patch := patch + {neighbor};
          seen := seen + {neighbor};
        } else {
          SkipStep(g, pos, visited, patch, seen, current, rest, k);
        }
      }
      Expanded(g, pos, visited, patch, seen, current, rest);
      toCheck := rest;
    }
    ClosedHasComponent(g, patch, pos);
  }

  // ---------------------------------------------------------------------------------------------
  // get_perimeter

  /** The fence: each (cell, direction) whose neighbour is outside the patch. */
  ghost function Fence(patch: set<Point>, cells: set<Point>): set<(Point, int)> {
    set q, k | q in cells && 0 <= k < 4 && Beside(q, k) !in patch :: (q, k)
  }

  ghost function Perimeter(patch: set<Point>): nat {
    |Fence(patch, patch)|
  }

  /** The fence of one cell. */
  ghost function CellFence(patch: set<Point>, c: Point, upTo: int): set<(Point, int)> {
    set k | 0 <= k < upTo && 0 <= k < 4 && Beside(c, k) !in patch :: (c, k)
  }

  lemma FenceGrows(patch: set<Point>, cells: set<Point>, c: Point)
    requires c !in cells
    ensures Fence(patch, cells + {c}) == Fence(patch, cells) + CellFence(patch, c, 4)
    ensures Fence(patch, cells) * CellFence(patch, c, 4) == {}
  {
  }

  lemma CellFenceStep(patch: set<Point>, c: Point, k: int)
    requires 0 <= k < 4
    ensures CellFence(patch, c, k + 1) == CellFence(patch, c, k) + (if Beside(c, k) !in patch then {(c, k)} else {})
    ensures (c, k) !in CellFence(patch, c, k)
  {
  }

  /** Taking one more cell of the patch adds its own fence, at most four sides. */
  lemma PerimeterStep(patch: set<Point>, todo: set<Point>, pos: Point)
    requires todo <= patch && pos in todo
    ensures |Fence(patch, patch - (todo - {pos}))| == |Fence(patch, patch - todo)| + |CellFence(patch, pos, 4)|
    ensures |patch - (todo - {pos})| == |patch - todo| + 1
  {
    FenceGrows(patch, patch - todo, pos);
    assert patch - (todo - {pos}) == (patch - todo) + {pos};
  }

  /** The sides of one cell that face out of the patch. */
  method CellSides(patch: set<Point>, pos: Point) returns (count: nat)
    ensures count == |CellFence(patch, pos, 4)| && count <= 4
  {
    count := 0;
    for k := 0 to 4
      invariant count == |CellFence(patch, pos, k)| && count <= k
    {
      CellFenceStep(patch, pos, k);
      var neighbor := Beside(pos, k);
      if neighbor !in patch {
        count := count + 1;
      }
    }
  }

  /** get_perimeter: one for every side of a patch cell whose neighbour is not in the patch. */
  method GetPerimeter(patch: set<Point>) returns (perimeter: nat)
    ensures perimeter == Perimeter(patch) && perimeter <= 4 * |patch|
  {
    perimeter := 0;
    var todo := patch;
    while todo != {}
      invariant todo <= patch
      invariant perimeter == |Fence(patch, patch - todo)| && perimeter <= 4 * |patch - todo|
      decreases |todo|
    {
      var pos :| pos in todo;
      var count := CellSides(patch, pos);
      PerimeterStep(patch, todo, pos);
      perimeter := perimeter + count;
      todo := todo - {pos};
    }
    assert patch - todo == patch;
  }

  /** A lone cell is fenced on all four sides. */
  lemma LoneCellPerimeter(c: Point)
    ensures Perimeter({c}) == 4
  {
    assert forall k :: 0 <= k < 4 ==> Beside(c, k) != c;
    assert Fence({c}, {c}) == {(c, 0), (c, 1), (c, 2), (c, 3)};
  }

  // ---------------------------------------------------------------------------------------------
  // part_1

  function Union(patches: seq<set<Point>>): set<Point> {
    if patches == [] then {} else Union(patches[..|patches| - 1]) + patches[|patches| - 1]
  }

  /** Σ area · perimeter */
  ghost function Cost(patches: seq<set<Point>>): nat {
    if patches == [] then 0
    else
      var last := patches[|patches| - 1];
      Cost(patches[..|patches| - 1]) + |last| * Perimeter(last)
  }

  /** The garden split into its patches: each cell in exactly one, and each one a whole patch. */
  ghost predicate Partition(g: map<Point, char>, patches: seq<set<Point>>) {
    Union(patches) == g.Keys
    && (forall i, j :: 0 <= i < j < |patches| ==> patches[i] * patches[j] == {})
    && (forall i :: 0 <= i < |patches| ==> exists p :: p in g && patches[i] == Component(g, p))
  }

  lemma UnionStep(patches: seq<set<Point>>, patch: set<Point>)
    ensures Union(patches + [patch]) == Union(patches) + patch
    ensures Cost(patches + [patch]) == Cost(patches) + |patch| * Perimeter(patch)
  {
    assert (patches + [patch])[..|patches|] == patches;
  }

  lemma UnionHas(patches: seq<set<Point>>, i: int)
    requires 0 <= i < |patches|
    ensures patches[i] <= Union(patches)
  {
    if i < |patches| - 1 {
      UnionHas(patches[..|patches| - 1], i);
    }
  }

  lemma ClosedUnion(g: map<Point, char>, a: set<Point>, b: set<Point>)
    requires Closed(g, a) && Closed(g, b)
    ensures Closed(g, a + b)
  {
  }

  /** part_1's state: the visited cells are exactly the patches found so far, each a whole patch. */
  ghost predicate Covering(g: map<Point, char>, patches: seq<set<Point>>, visited: set<Point>) {
    visited <= g.Keys && Closed(g, visited) && visited == Union(patches)
    && (forall i, j :: 0 <= i < j < |patches| ==> patches[i] * patches[j] == {})
    && (forall i :: 0 <= i < |patches| ==> exists p :: p in g && patches[i] == Component(g, p))
  }

  /** The patch of an unvisited cell joins the partition. */
  lemma CoverStep(g: map<Point, char>, patches: seq<set<Point>>, visited: set<Point>, pos: Point, patch: set<Point>)
    requires Covering(g, patches, visited) && pos in g && pos !in visited && patch == Component(g, pos)
    ensures Covering(g, patches + [patch], visited + patch)
    ensures Cost(patches + [patch]) == Cost(patches) + |patch| * Perimeter(patch)
  {
    ComponentAvoids(g, visited, pos);
    forall i | 0 <= i < |patches|
      ensures patches[i] * patch == {}
    {
      UnionHas(patches, i);
    }
    ComponentsClosed(g, pos);
    ClosedUnion(g, visited, patch);
    UnionStep(patches, patch);
    var ps := patches + [patch];
    forall i, j | 0 <= i < j < |ps|
      ensures ps[i] * ps[j] == {}
    {
      if j < |patches| {
        assert ps[i] == patches[i] && ps[j] == patches[j];
      } else {
        assert ps[i] == patches[i];
      }
    }
    forall i | 0 <= i < |ps|
      ensures exists p :: p in g && ps[i] == Component(g, p)
    {
      if i < |patches| {
        assert ps[i] == patches[i];
      } else {
        assert ps[i] == Component(g, pos);
      }
    }
  }

  /** part_1 on a parsed garden: each unvisited cell seeds a patch, fenced at area · perimeter. */
  method Part1(g: map<Point, char>) returns (cost: nat)
    ensures exists patches :: Partition(g, patches) && cost == Cost(patches)
  {
    var visited: set<Point> := {};
    cost := 0;
    ghost var patches: seq<set<Point>> := [];
    var todo := g.Keys;
    while todo != {}
      invariant todo <= g.Keys && g.Keys - todo <= visited
      invariant Covering(g, patches, visited) && cost == Cost(patches)
      decreases |todo|
    {
      var pos :| pos in todo;
      todo := todo - {pos};
      if pos in visited {
        continue;
      }
      var patch, seen := Fill(g, pos, visited);
      var perimeter := GetPerimeter(patch);
      CoverStep(g, patches, visited, pos, patch);
      ComponentHasSeed(g, pos);
      patches := patches + [patch];
      cost := cost + |patch| * perimeter;
      visited := seen;
    }
    assert Partition(g, patches);
  }
}
