/**
 * RAM run (src/day_18.py): bytes fall onto a grid of cells 0..size on both axes; `part_1` lets the
 * first `sim_len` of them fall and searches, with a priority queue ordered by distance, for the
 * fewest steps from (0, 0) to (size, size), returning 0 when the corner cannot be reached.
 */
module Day18 {
  import opened Common

  /** The order in which `part_1` tries the four directions. */
  const Directions: seq<Point> := [(0, -1), (1, 0), (0, 1), (-1, 0)]

  /** A queue entry: the distance walked and the cell reached (the walked history is not modelled). */
  datatype Entry = Entry(dist: nat, pos: Point)

  /** The exception `parse_input` raises on a malformed line. */
  datatype Failure = ValueError

  /** The cell lies on the grid, 0..size on both axes. */
  predicate InBounds(p: Point, size: int) {
    0 <= p.0 <= size && 0 <= p.1 <= size
  }

  /** q is one of the four neighbours of p. */
  predicate Neighbour(p: Point, q: Point) {
    q == Add(p, Directions[0]) || q == Add(p, Directions[1]) || q == Add(p, Directions[2]) || q == Add(p, Directions[3])
  }

  /** `bytes[:sim_len]` with Python's slice semantics: a negative length counts back from the end. */
  function Fallen(bytes: seq<Point>, simLen: int): (r: seq<Point>)
    ensures |r| <= |bytes| && r == bytes[..|r|]
    ensures 0 <= simLen <= |bytes| ==> |r| == simLen
    ensures simLen >= |bytes| ==> r == bytes
  {
    if simLen >= |bytes| then bytes
    else if simLen >= 0 then bytes[..simLen]
    else if -simLen >= |bytes| then []
    else bytes[..|bytes| + simLen]
  }

  // ---------------------------------------------------------------------------------------------
  // Walks across the grid

  /** A walk from (0, 0): each later cell a neighbour of the one before, on the grid, and free of bytes. */
  ghost predicate Walk(blocked: set<Point>, size: int, path: seq<Point>) {
    |path| >= 1 && path[0] == (0, 0) && (0, 0) !in blocked
    && forall i :: 1 <= i < |path| ==> Neighbour(path[i - 1], path[i]) && InBounds(path[i], size) && path[i] !in blocked
  }

  /** Some walk of n steps ends at p. */
  ghost predicate Reaches(blocked: set<Point>, size: int, p: Point, n: nat) {
    exists path: seq<Point> :: Walk(blocked, size, path) && |path| == n + 1 && path[n] == p
  }

  /** A walk extended by a free neighbour on the grid is a walk one step longer. */
  lemma Extend(blocked: set<Point>, size: int, p: Point, n: nat, q: Point)
    requires Reaches(blocked, size, p, n)
    requires Neighbour(p, q) && InBounds(q, size) && q !in blocked
    ensures Reaches(blocked, size, q, n + 1)
  {
    var path: seq<Point> :| Walk(blocked, size, path) && |path| == n + 1 && path[n] == p;
    var path' := path + [q];
    assert forall i :: 0 <= i < |path| ==> path'[i] == path[i];
    assert Walk(blocked, size, path');
  }

  /** The cells a search can ever hold: the grid and the start. */
  function Box(size: int): (r: set<Point>)
    ensures forall p :: p in r <==> InBounds(p, size) || p == (0, 0)
  {
    (set x, y | 0 <= x <= size && 0 <= y <= size :: (x, y)) + {(0, 0)}
  }

  // ---------------------------------------------------------------------------------------------
  // The priority queue

  /** `heapq`'s order on (dist, x, y): e comes strictly before f. */
  predicate Before(e: Entry, f: Entry) {
    e.dist < f.dist
    || (e.dist == f.dist && (e.pos.0 < f.pos.0 || (e.pos.0 == f.pos.0 && e.pos.1 < f.pos.1)))
  }

  /** `heappop` on a list: take out the least entry in (dist, x, y) order. */
  method PopMin(queue: seq<Entry>) returns (e: Entry, rest: seq<Entry>)
    requires queue != []
    ensures e in queue && forall f :: f in queue ==> !Before(f, e)
    ensures forall f :: f in queue ==> e.dist <= f.dist
    ensures multiset(rest) == multiset(queue) - multiset{e} && |rest| == |queue| - 1
  {
    var best := 0;
    for i := 1 to |queue|
      invariant 0 <= best < |queue|
      invariant forall j :: 0 <= j < i ==> !Before(queue[j], queue[best])
    {
      if Before(queue[i], queue[best]) {
        best := i;
      }
    }
    e := queue[best];
    rest := queue[..best] + queue[best + 1..];
    assert queue == queue[..best] + [e] + queue[best + 1..];
  }

  // ---------------------------------------------------------------------------------------------
  // The search

  /**
   * What the search knows between turns: `reach` records the distance at which each visited cell was
   * expanded, and `floor` the distance of the last entry taken out.
   */
  ghost predicate Searching(blocked: set<Point>, size: int, queue: seq<Entry>, reach: map<Point, nat>, floor: nat) {
    QueueSound(blocked, size, queue, floor) && ReachSound(blocked, size, reach, floor)
    && StartQueued(blocked, queue, reach) && Closed(blocked, size, queue, reach)
  }

  /** Queued entries are no nearer than the last one taken, lie on the grid, and are walkable when free. */
  ghost predicate QueueSound(blocked: set<Point>, size: int, queue: seq<Entry>, floor: nat) {
    (forall e :: e in queue ==> floor <= e.dist && e.pos in Box(size))
    && (forall e :: e in queue && e.pos !in blocked ==> Reaches(blocked, size, e.pos, e.dist))
  }

  /** Visited cells are free, were expanded no later than `floor`, and are reached by walks of that length. */
  ghost predicate ReachSound(blocked: set<Point>, size: int, reach: map<Point, nat>, floor: nat) {
    forall v :: v in reach ==> reach[v] <= floor && v in Box(size) && v !in blocked && Reaches(blocked, size, v, reach[v])
  }

  /** A free start is visited at distance 0 or still queued at distance 0. */
  ghost predicate StartQueued(blocked: set<Point>, queue: seq<Entry>, reach: map<Point, nat>) {
    (0, 0) !in blocked ==> ((0, 0) in reach && reach[(0, 0)] == 0) || Entry(0, (0, 0)) in queue
  }

  /** Every free on-grid neighbour of a visited cell is covered one step further. */
  ghost predicate Closed(blocked: set<Point>, size: int, queue: seq<Entry>, reach: map<Point, nat>) {
    forall v, w :: v in reach && Neighbour(v, w) && InBounds(w, size) && w !in blocked ==> Covered(queue, reach, w, reach[v] + 1)
  }

  /** Cell w is visited within distance d, or waits in the queue within it. */
  ghost predicate Covered(queue: seq<Entry>, reach: map<Point, nat>, w: Point, d: nat) {
    (w in reach && reach[w] <= d) || exists k: nat :: k <= d && Entry(k, w) in queue
  }

  /** Every cell of a walk shorter than the queue's least distance has been visited within its step count. */
  lemma {:induction false} VisitedAlong(blocked: set<Point>, size: int, queue: seq<Entry>, reach: map<Point, nat>, floor: nat, least: nat, path: seq<Point>, j: nat)
    requires Searching(blocked, size, queue, reach, floor)
    requires forall e :: e in queue ==> least <= e.dist
    requires Walk(blocked, size, path) && j < |path| && j < least
    ensures path[j] in reach && reach[path[j]] <= j
  {
    if j > 0 {
      VisitedAlong(blocked, size, queue, reach, floor, least, path, j - 1);
      assert Covered(queue, reach, path[j], reach[path[j - 1]] + 1);
    }
  }

  /** No walk reaches an unvisited cell in fewer steps than the queue's least distance. */
  lemma NoShorter(blocked: set<Point>, size: int, queue: seq<Entry>, reach: map<Point, nat>, floor: nat, least: nat, target: Point, path: seq<Point>)
    requires Searching(blocked, size, queue, reach, floor)
    requires forall e :: e in queue ==> least <= e.dist
    requires Walk(blocked, size, path) && path[|path| - 1] == target && target !in reach
    ensures |path| - 1 >= least
  {
    if |path| - 1 < least {
      VisitedAlong(blocked, size, queue, reach, floor, least, path, |path| - 1);
    }
  }

  /** Taking out an entry that is visited already or a byte keeps the search's bookkeeping. */
  lemma Skip(blocked: set<Point>, size: int, queue: seq<Entry>, reach: map<Point, nat>, floor: nat, e: Entry, rest: seq<Entry>)
    requires Searching(blocked, size, queue, reach, floor)
    requires e in queue && (forall f :: f in queue ==> e.dist <= f.dist)
    requires multiset(rest) == multiset(queue) - multiset{e}
    requires e.pos in reach || e.pos in blocked
    ensures Searching(blocked, size, rest, reach, e.dist)
  {
    forall f | f in rest ensures f in queue {
      assert f in multiset(rest);
    }
    forall v, w | v in reach && Neighbour(v, w) && InBounds(w, size) && w !in blocked
      ensures Covered(rest, reach, w, reach[v] + 1)
    {
      assert Covered(queue, reach, w, reach[v] + 1);
      if !(w in reach && reach[w] <= reach[v] + 1) {
        var k: nat :| k <= reach[v] + 1 && Entry(k, w) in queue;
        assert Entry(k, w) != e;
        assert Entry(k, w) in multiset(rest);
      }
    }
    if (0, 0) !in blocked && !((0, 0) in reach && reach[(0, 0)] == 0) {
      assert Entry(0, (0, 0)) != e;
      assert Entry(0, (0, 0)) in multiset(rest);
    }
  }

  /** Visiting the cell of the least entry, then queueing its unvisited neighbours, keeps the bookkeeping. */
  lemma Visit(blocked: set<Point>, size: int, queue: seq<Entry>, reach: map<Point, nat>, floor: nat, e: Entry, rest: seq<Entry>, pushed: seq<Entry>)
    requires Searching(blocked, size, queue, reach, floor)
    requires e in queue && (forall f :: f in queue ==> e.dist <= f.dist)
    requires multiset(rest) == multiset(queue) - multiset{e}
    requires e.pos !in reach && e.pos !in blocked
    requires pushed == Pushes(e, reach.Keys + {e.pos}, size, Directions)
    ensures Searching(blocked, size, rest + pushed, reach[e.pos := e.dist], e.dist)
  {
    PushesAre(e, reach.Keys + {e.pos}, size, Directions);
    forall f | f in rest ensures f in queue {
      assert f in multiset(rest);
    }
    VisitQueue(blocked, size, queue, reach, floor, e, rest, pushed);
    VisitCovered(blocked, size, queue, reach, floor, e, rest, pushed);
    var reach' := reach[e.pos := e.dist];
    assert ReachSound(blocked, size, reach', e.dist);
    assert StartQueued(blocked, rest + pushed, reach');
  }

  /** After a visit every queued entry is at least as far as the visited cell and walkable when free. */
  lemma VisitQueue(blocked: set<Point>, size: int, queue: seq<Entry>, reach: map<Point, nat>, floor: nat, e: Entry, rest: seq<Entry>, pushed: seq<Entry>)
    requires Searching(blocked, size, queue, reach, floor)
    requires e in queue && (forall f :: f in queue ==> e.dist <= f.dist)
    requires forall f :: f in rest ==> f in queue
    requires e.pos !in blocked
    requires forall f :: f in pushed <==>
      f.dist == e.dist + 1 && (exists d :: d in Directions && f.pos == Add(e.pos, d)) && InBounds(f.pos, size) && f.pos !in reach.Keys + {e.pos}
    ensures QueueSound(blocked, size, rest + pushed, e.dist)
  {
    forall f | f in pushed && f.pos !in blocked
      ensures Reaches(blocked, size, f.pos, f.dist)
    {
      Extend(blocked, size, e.pos, e.dist, f.pos);
    }
  }

  /** After a visit every free on-grid neighbour of a visited cell is still covered one step further. */
  lemma VisitCovered(blocked: set<Point>, size: int, queue: seq<Entry>, reach: map<Point, nat>, floor: nat, e: Entry, rest: seq<Entry>, pushed: seq<Entry>)
    requires Searching(blocked, size, queue, reach, floor)
    requires e in queue && (forall f :: f in queue ==> e.dist <= f.dist)
    requires multiset(rest) == multiset(queue) - multiset{e}
    requires e.pos !in reach
    requires forall f :: f in pushed <==>
      f.dist == e.dist + 1 && (exists d :: d in Directions && f.pos == Add(e.pos, d)) && InBounds(f.pos, size) && f.pos !in reach.Keys + {e.pos}
    ensures Closed(blocked, size, rest + pushed, reach[e.pos := e.dist])
  {
    var reach' := reach[e.pos := e.dist];
    forall v, w | v in reach' && Neighbour(v, w) && InBounds(w, size) && w !in blocked
      ensures Covered(rest + pushed, reach', w, reach'[v] + 1)
    {
      if v == e.pos {
        assert w in reach ==> reach[w] <= e.dist;
        NewNeighbourCovered(size, reach, e, w, rest, pushed);
      } else {
        assert Covered(queue, reach, w, reach[v] + 1);
        OldNeighbourCovered(queue, reach, e, rest, pushed, v, w);
      }
    }
  }

  /** A neighbour of the cell just visited is visited already or pushed one step further. */
  lemma NewNeighbourCovered(size: int, reach: map<Point, nat>, e: Entry, w: Point, rest: seq<Entry>, pushed: seq<Entry>)
    requires Neighbour(e.pos, w) && InBounds(w, size)
    requires w in reach ==> reach[w] <= e.dist
    requires forall f :: f in pushed <==>
      f.dist == e.dist + 1 && (exists d :: d in Directions && f.pos == Add(e.pos, d)) && InBounds(f.pos, size) && f.pos !in reach.Keys + {e.pos}
    ensures Covered(rest + pushed, reach[e.pos := e.dist], w, e.dist + 1)
  {
    if w !in reach && w != e.pos {
      var i :| 0 <= i < 4 && w == Add(e.pos, Directions[i]);
      assert Directions[i] in Directions;
      assert Entry(e.dist + 1, w) in pushed;
      assert Entry(e.dist + 1, w) in rest + pushed;
    }
  }

  /** A cell covered from an earlier visit stays covered once the nearest entry is taken out. */
  lemma OldNeighbourCovered(queue: seq<Entry>, reach: map<Point, nat>, e: Entry, rest: seq<Entry>, pushed: seq<Entry>, v: Point, w: Point)
    requires v in reach && Covered(queue, reach, w, reach[v] + 1)
    requires e in queue && (forall f :: f in queue ==> e.dist <= f.dist)
    requires multiset(rest) == multiset(queue) - multiset{e} && e.pos !in reach
    ensures Covered(rest + pushed, reach[e.pos := e.dist], w, reach[v] + 1)
  {
    var reach' := reach[e.pos := e.dist];
    if !(w in reach' && reach'[w] <= reach[v] + 1) {
      var k: nat :| k <= reach[v] + 1 && Entry(k, w) in queue;
      assert Entry(k, w) != e;
      assert Entry(k, w) in multiset(rest);
      assert Entry(k, w) in rest + pushed;
    }
  }

  /** The entries the inner `for` loop pushes for the directions ds: on-grid neighbours not yet visited. */
  function Pushes(e: Entry, visited: set<Point>, size: int, ds: seq<Point>): seq<Entry> {
    if ds == [] then []
    else
      var n := |ds| - 1;
      var next := Add(e.pos, ds[n]);
      Pushes(e, visited, size, ds[..n]) + (if !InBounds(next, size) || next in visited then [] else [Entry(e.dist + 1, next)])
  }

  /** The pushed entries are exactly the on-grid, unvisited neighbours, one step further than e. */
  lemma {:induction false} PushesAre(e: Entry, visited: set<Point>, size: int, ds: seq<Point>)
    ensures forall f :: f in Pushes(e, visited, size, ds) <==>
      f.dist == e.dist + 1 && (exists d :: d in ds && f.pos == Add(e.pos, d)) && InBounds(f.pos, size) && f.pos !in visited
  {
    if ds != [] {
      var n := |ds| - 1;
      PushesAre(e, visited, size, ds[..n]);
      assert ds == ds[..n] + [ds[n]];
    }
  }

  /**
   * `part_1`'s search over the fallen bytes `blocked`. When some walk reaches (size, size) the result
   * is the length of a shortest one; otherwise it is 0. `expanded` lists the cells expanded, in
   * order: each at most once, never a byte.
   */
  method Search(blocked: set<Point>, size: int) returns (r: nat, ghost expanded: seq<Point>)
    ensures (exists path :: Walk(blocked, size, path) && path[|path| - 1] == (size, size)) ==>
      Reaches(blocked, size, (size, size), r)
      && forall path :: Walk(blocked, size, path) && path[|path| - 1] == (size, size) ==> r <= |path| - 1
    ensures !(exists path :: Walk(blocked, size, path) && path[|path| - 1] == (size, size)) ==> r == 0
    ensures Distinct(expanded) && forall i :: 0 <= i < |expanded| ==> expanded[i] !in blocked
  {
    var target := (size, size);
    var queue := [Entry(0, (0, 0))];
    var visited: set<Point> := {};
    ghost var reach: map<Point, nat> := map[];
    ghost var floor: nat := 0;
    expanded := [];
    assert Walk(blocked, size, [(0, 0)]) <== (0, 0) !in blocked;
    while queue != []
      invariant Searching(blocked, size, queue, reach, floor)
      invariant visited == reach.Keys && target !in visited
      invariant Distinct(expanded) && Within(expanded, visited)
      decreases |Box(size) - visited|, |queue|
    {
      var e, rest := PopMin(queue);
      if e.pos in visited || e.pos in blocked {
        Skip(blocked, size, queue, reach, floor, e, rest);
        queue, floor := rest, e.dist;
        continue;
      }
      Fewer(Box(size), visited, e.pos);
      KeysGrow(reach, e.pos, e.dist);
      AppendFresh(expanded, visited, e.pos);
      var pushed := Expand(e, visited + {e.pos}, size);
      Visit(blocked, size, queue, reach, floor, e, rest, pushed);
      if e.pos == target {
        Shortest(blocked, size, queue, reach, floor, e.dist, target);
        return e.dist, expanded + [e.pos];
      }
      expanded := expanded + [e.pos];
      queue, visited, reach, floor := rest + pushed, visited + {e.pos}, reach[e.pos := e.dist], e.dist;
    }
    Shortest(blocked, size, queue, reach, floor, 0, target);
    return 0, expanded;
  }

  /** No element repeats. */
  predicate Distinct(s: seq<Point>) {
    forall i, j :: 0 <= i < j < |s| ==> s[i] != s[j]
  }

  /** Every element lies in the set. */
  predicate Within(s: seq<Point>, cells: set<Point>) {
    forall i :: 0 <= i < |s| ==> s[i] in cells
  }

  /** Appending a cell outside the set that holds every element keeps a sequence free of repeats. */
  lemma AppendFresh(s: seq<Point>, visited: set<Point>, p: Point)
    requires Distinct(s) && Within(s, visited) && p !in visited
    ensures Distinct(s + [p]) && Within(s + [p], visited + {p})
  {
  }

  lemma KeysGrow(reach: map<Point, nat>, p: Point, d: nat)
    ensures reach[p := d].Keys == reach.Keys + {p}
  {
  }

  /** Visiting a new cell of the box leaves fewer cells of it unvisited. */
  lemma Fewer(box: set<Point>, visited: set<Point>, p: Point)
    requires p in box && p !in visited
    ensures |box - (visited + {p})| < |box - visited|
  {
    assert box - (visited + {p}) == (box - visited) - {p};
  }

  /**
   * When the least entry is the unvisited target, its distance is walkable and no walk is shorter;
   * when the queue is empty, no walk reaches the target at all.
   */
  lemma Shortest(blocked: set<Point>, size: int, queue: seq<Entry>, reach: map<Point, nat>, floor: nat, least: nat, target: Point)
    requires Searching(blocked, size, queue, reach, floor) && target !in reach
    requires queue == [] || (Entry(least, target) in queue && target !in blocked && forall f :: f in queue ==> least <= f.dist)
    ensures queue != [] ==> Reaches(blocked, size, target, least)
    ensures forall path :: Walk(blocked, size, path) && path[|path| - 1] == target ==> queue != [] && least <= |path| - 1
  {
    forall path | Walk(blocked, size, path) && path[|path| - 1] == target
      ensures queue != [] && least <= |path| - 1
    {
      if queue == [] {
        NoShorter(blocked, size, queue, reach, floor, |path|, target, path);
      } else {
        NoShorter(blocked, size, queue, reach, floor, least, target, path);
      }
    }
  }

  /** The inner `for` loop of `part_1`: queue each on-grid neighbour that is not visited. */
  method Expand(e: Entry, visited: set<Point>, size: int) returns (pushed: seq<Entry>)
    ensures pushed == Pushes(e, visited, size, Directions)
  {
    pushed := [];
    for k := 0 to |Directions|
      invariant pushed == Pushes(e, visited, size, Directions[..k])
    {
      var next := Add(e.pos, Directions[k]);
      assert Directions[..k + 1][..k] == Directions[..k];
      if InBounds(next, size) && next !in visited {
        pushed := pushed + [Entry(e.dist + 1, next)];
      }
    }
    assert Directions[..4] == Directions;
  }

  // ---------------------------------------------------------------------------------------------
  // parse_input and part_1

  /** One line "x,y": exactly two comma-separated integers, otherwise ValueError. */
  function ByteLine(line: string): Result<Point, Failure> {
    var pieces := SplitOn(line, ",");
    if |pieces| != 2 then Err(ValueError)
    else
      match (IntOf(pieces[0]), IntOf(pieces[1]))
      case (Some(x), Some(y)) => Ok((x, y))
      case _ => Err(ValueError)
  }

  /** `parse_input` on the lines: the first malformed line raises. */
  function Bytes(lines: seq<string>): Result<seq<Point>, Failure> {
    if lines == [] then Ok([])
    else
      var n := |lines| - 1;
      match Bytes(lines[..n])
      case Err(e) => Err(e)
      case Ok(bs) =>
        match ByteLine(lines[n])
        case Err(e) => Err(e)
        case Ok(b) => Ok(bs + [b])
  }

  /** The parsed bytes are the lines' coordinates in order; parsing fails exactly when some line is malformed. */
  lemma {:induction false} BytesRead(lines: seq<string>)
    ensures Bytes(lines).Err? <==> exists i :: 0 <= i < |lines| && ByteLine(lines[i]).Err?
    ensures Bytes(lines).Ok? ==> (|Bytes(lines).value| == |lines|
      && forall i :: 0 <= i < |lines| ==> ByteLine(lines[i]) == Ok(Bytes(lines).value[i]))
  {
    if lines != [] {
      var n := |lines| - 1;
      BytesRead(lines[..n]);
      assert forall i :: 0 <= i < n ==> lines[..n][i] == lines[i];
    }
  }

  /** A number has no comma in it. */
  lemma NoComma(n: int)
    ensures forall i :: 0 <= i < |Signed(n)| ==> Signed(n)[i] != ','
  {
    var d := Decimal(if n < 0 then -n else n);
    assert forall i :: 0 <= i < |d| ==> IsDigit(d[i]);
  }

  /** `str(n)` for an integer of either sign. */
  function Signed(n: int): string {
    if n < 0 then "-" + Decimal(-n) else Decimal(n)
  }

  /** A text without commas splits into itself. */
  lemma SplitNoComma(s: string)
    requires forall i :: 0 <= i < |s| ==> s[i] != ','
    ensures SplitOn(s, ",") == [s]
  {
    forall i | 0 <= i < |s| ensures !OccursAt(s, ",", i) {
      assert s[i..i + 1][0] == s[i];
    }
    var k := FindFrom(s, ",", 0);
  }

  /** Writing a byte's coordinates as "x,y" and reading the line back gives the byte. */
  lemma ByteLineRoundTrip(p: Point)
    ensures ByteLine(Signed(p.0) + "," + Signed(p.1)) == Ok(p)
  {
    var a, b := Signed(p.0), Signed(p.1);
    var line := a + "," + b;
    NoComma(p.0);
    NoComma(p.1);
    SplitNoComma(b);
    assert FindFrom(line, ",", 0) == |a| by {
      assert OccursAt(line, ",", |a|) by {
        assert line[|a|..|a| + 1] == ",";
      }
      forall i | 0 <= i < |a| ensures !OccursAt(line, ",", i) {
        assert line[i] == a[i];
        assert line[i..i + 1][0] == line[i];
      }
      FindFromFirst(line, ",", 0, |a|);
    }
    assert line[..|a|] == a && line[|a| + 1..] == b;
    assert SplitOn(line, ",") == [a, b];
    SignedRead(p.0);
    SignedRead(p.1);
  }

  lemma SignedRead(n: int)
    ensures IntOf(Signed(n)) == Some(n)
  {
    if n < 0 {
      IntOfDecimal(-n);
    } else {
      IntOfDecimal(n);
    }
  }

  /** The cells the first `sim_len` bytes fall onto. */
  function Blocked(bytes: seq<Point>, simLen: int): (r: set<Point>)
    ensures forall p :: p in r <==> p in Fallen(bytes, simLen)
  {
    set i | 0 <= i < |Fallen(bytes, simLen)| :: Fallen(bytes, simLen)[i]
  }

  /**
   * `part_1`: a parse error, or the length of a shortest walk from (0, 0) to (size, size) around the
   * first `sim_len` bytes, 0 when there is none.
   */
  method Part1(puzzle: string, size: int, simLen: int) returns (r: Result<nat, Failure>)
    ensures Bytes(Split(puzzle)).Err? ==> r == Err(ValueError)
    ensures Bytes(Split(puzzle)).Ok? ==> (r.Ok? &&
      var blocked := Blocked(Bytes(Split(puzzle)).value, simLen);
      if exists path :: Walk(blocked, size, path) && path[|path| - 1] == (size, size) then
        Reaches(blocked, size, (size, size), r.value)
        && forall path :: Walk(blocked, size, path) && path[|path| - 1] == (size, size) ==> r.value <= |path| - 1
      else r.value == 0)
  {
    var parsed := Bytes(Split(puzzle));
    if parsed.Err? {
      return Err(ValueError);
    }
    var blocked := Blocked(parsed.value, simLen);
    var distance, _ := Search(blocked, size);
    return Ok(distance);
  }
}
