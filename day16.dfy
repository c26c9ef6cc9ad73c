/**
 * Reindeer maze (src/day_16.py): `solve_maze` searches walks from the start, facing east, through a
 * maze of walls; a step straight on costs 1 and a step in a new direction 1001. It returns the best
 * score reaching the end and the number of tiles on best-scoring walks.
 */
module Day16 {
  import opened Common

  const North: Point := (0, -1)
  const East: Point := (1, 0)
  const South: Point := (0, 1)
  const West: Point := (-1, 0)

  /** The order in which `solve_maze` tries the four directions. */
  const Directions: seq<Point> := [North, East, South, West]

  /** The best score before any walk reaches the end. */
  const Unreached: int := 9_999_999

  /** A queue entry: score, cell, facing, and the cells walked before this one. */
  datatype Entry = Entry(score: int, pos: Point, dir: Point, history: set<Point>)

  /** One step of a walk: the cell entered and the direction it was entered in. */
  datatype Pose = Pose(pos: Point, dir: Point)

  /** A step straight on costs 1, a step in any new direction 1001. */
  function StepCost(facing: Point, dir: Point): (c: int)
    ensures c == 1 || c == 1001
    ensures c == 1 <==> dir == facing
  {
    if dir != facing then 1 + 1000 else 1
  }

  // ---------------------------------------------------------------------------------------------
  // Walks through the maze

  /** The cells a walk has passed through. */
  ghost function Trail(path: seq<Pose>): set<Point> {
    set i | 0 <= i < |path| :: path[i].pos
  }

  /** A walk from the start facing east: each step one of the four directions, off the walls, onto a new cell. */
  ghost predicate Walk(walls: set<Point>, start: Point, path: seq<Pose>) {
    |path| >= 1 && path[0] == Pose(start, East)
    && forall i :: 1 <= i < |path| ==>
      path[i].dir in Directions && path[i].pos == Add(path[i - 1].pos, path[i].dir)
      && path[i].pos !in walls && path[i].pos !in Trail(path[..i])
  }

  /** The sum of the step costs along a walk. */
  function Cost(path: seq<Pose>): int {
    if |path| <= 1 then 0
    else
      var n := |path| - 1;
      Cost(path[..n]) + StepCost(path[n - 1].dir, path[n].dir)
  }

  /** The entry records where the walk ends, its cost, and the cells before its last. */
  ghost predicate Matches(path: seq<Pose>, e: Entry)
    requires path != []
  {
    var n := |path| - 1;
    e.pos == path[n].pos && e.dir == path[n].dir && e.score == Cost(path) && e.history == Trail(path[..n])
  }

  /** Some walk through the maze leads to the entry. */
  ghost predicate Legal(walls: set<Point>, start: Point, e: Entry) {
    exists path: seq<Pose> :: Walk(walls, start, path) && Matches(path, e)
  }

  /** The first entry: score 0 at the start facing east, nothing walked before. */
  lemma StartLegal(walls: set<Point>, start: Point)
    ensures Legal(walls, start, Entry(0, start, East, {}))
  {
    var path := [Pose(start, East)];
    assert Trail(path[..0]) == {};
    assert Walk(walls, start, path) && Matches(path, Entry(0, start, East, {}));
  }

  /** The entry `solve_maze` pushes for a step in direction d. */
  function Successor(e: Entry, d: Point): Entry {
    Entry(e.score + StepCost(e.dir, d), Add(e.pos, d), d, e.history + {e.pos})
  }

  /** A step onto a cell that is neither a wall nor in the history extends a legal entry's walk. */
  lemma {:induction false} ExtendLegal(walls: set<Point>, start: Point, e: Entry, d: Point)
    requires Legal(walls, start, e)
    requires d in Directions
    requires Add(e.pos, d) !in e.history && Add(e.pos, d) !in walls
    ensures Legal(walls, start, Successor(e, d))
  {
    var path: seq<Pose> :| Walk(walls, start, path) && Matches(path, e);
    var path' := path + [Pose(Add(e.pos, d), d)];
    StepOn(walls, start, path, e, d);
    assert Walk(walls, start, path') && Matches(path', Successor(e, d));
  }

  /** The walk behind a legal entry, with the step in direction d added, is behind its successor. */
  lemma StepOn(walls: set<Point>, start: Point, path: seq<Pose>, e: Entry, d: Point)
    requires Walk(walls, start, path) && Matches(path, e)
    requires d in Directions
    requires Add(e.pos, d) !in e.history && Add(e.pos, d) !in walls
    ensures Walk(walls, start, path + [Pose(Add(e.pos, d), d)])
    ensures Matches(path + [Pose(Add(e.pos, d), d)], Successor(e, d))
  {
    var n := |path| - 1;
    var next := Pose(Add(e.pos, d), d);
    TrailLast(path);
    assert next.pos != e.pos;
    WalkOn(walls, start, path, next);
    var path' := path + [next];
    assert path'[..n + 1] == path;
    assert Cost(path') == e.score + StepCost(e.dir, d);
  }

  /** The trail of a walk is the trail before its last step plus its last cell. */
  lemma TrailLast(path: seq<Pose>)
    requires path != []
    ensures Trail(path) == Trail(path[..|path| - 1]) + {path[|path| - 1].pos}
  {
    var n := |path| - 1;
    assert forall i :: 0 <= i < n ==> path[..n][i] == path[i];
  }

  /** A walk goes on with a step in one of the four directions onto a fresh cell off the walls. */
  lemma WalkOn(walls: set<Point>, start: Point, path: seq<Pose>, next: Pose)
    requires Walk(walls, start, path)
    requires next.dir in Directions && next.pos == Add(path[|path| - 1].pos, next.dir)
    requires next.pos !in walls && next.pos !in Trail(path)
    ensures Walk(walls, start, path + [next])
  {
    var path' := path + [next];
    forall i | 1 <= i < |path'|
      ensures path'[i].dir in Directions && path'[i].pos == Add(path'[i - 1].pos, path'[i].dir)
      ensures path'[i].pos !in walls && path'[i].pos !in Trail(path'[..i])
    {
      assert path'[..i] == path[..i];
    }
  }

  // ---------------------------------------------------------------------------------------------
  // The priority queue

  /** `heappop` on a list: take out an entry of least score (ties are not modelled). */
  method PopMin(queue: seq<Entry>) returns (e: Entry, rest: seq<Entry>)
    requires queue != []
    ensures forall x :: x in queue ==> e.score <= x.score
    ensures exists i :: 0 <= i < |queue| && queue[i] == e && rest == queue[..i] + queue[i + 1..]
  {
    var best := 0;
    for i := 1 to |queue|
      invariant 0 <= best < |queue|
      invariant forall j :: 0 <= j < i ==> queue[best].score <= queue[j].score
    {
      if queue[i].score < queue[best].score {
        best := i;
      }
    }
    e := queue[best];
    rest := queue[..best] + queue[best + 1..];
  }

  // ---------------------------------------------------------------------------------------------
  // solve_maze

  /** The cells walked before the end by the arrivals scoring s. */
  ghost function Tiles(arrived: set<Entry>, s: int): set<Point> {
    set e, p | e in arrived && e.score == s && p in e.history :: p
  }

  /** The bookkeeping `solve_maze` keeps about the entries that reached the end. */
  ghost predicate Arrivals(walls: set<Point>, start: Point, end: Point, best: int, history: map<int, set<Point>>, arrived: set<Entry>) {
    best <= Unreached
    && (best == Unreached || exists e :: e in arrived && e.score == best)
    && (forall e :: e in arrived ==> e.pos == end && Legal(walls, start, e) && best <= e.score)
    && (forall s :: s in history ==> history[s] == Tiles(arrived, s))
    && (forall e :: e in arrived ==> e.score in history)
  }

  /** Reaching the end with a score no higher than the best so far makes it the best. */
  lemma Arrive(walls: set<Point>, start: Point, end: Point, best: int, history: map<int, set<Point>>, arrived: set<Entry>, e: Entry)
    requires Arrivals(walls, start, end, best, history, arrived)
    requires e.pos == end && Legal(walls, start, e) && e.score <= best
    ensures Arrivals(walls, start, end, e.score, history[e.score := (if e.score in history then history[e.score] else {}) + e.history], arrived + {e})
  {
    var history' := history[e.score := (if e.score in history then history[e.score] else {}) + e.history];
    forall s | s in history'
      ensures history'[s] == Tiles(arrived + {e}, s)
    {
      if s == e.score {
        if e.score !in history {
          assert Tiles(arrived, s) == {};
        }
      }
    }
  }

  /**
   * `solve_maze`, with at most `fuel` turns of its loop (None when they run out). Every entry it
   * queues is a legal walk; the score it returns is 9_999_999 or the score of a walk reaching the end,
   * and no end-reaching entry it kept scored less; the tile count is one more than the cells walked
   * before the end by the kept walks of that score.
   */
  method SolveMaze(walls: set<Point>, start: Point, end: Point, fuel: nat) returns (r: Option<(int, int)>, ghost arrived: set<Entry>)
    ensures r.Some? ==> r.value.0 <= Unreached
    ensures r.Some? ==> r.value.0 == Unreached || exists e :: e in arrived && e.score == r.value.0
    ensures forall e :: e in arrived ==> e.pos == end && Legal(walls, start, e)
    ensures r.Some? ==> forall e :: e in arrived ==> r.value.0 <= e.score
    ensures r.Some? ==> r.value.1 == |Tiles(arrived, r.value.0)| + 1
  {
    StartLegal(walls, start);
    var queue := [Entry(0, start, East, {})];
    var best := Unreached;
    var history: map<int, set<Point>> := map[];
    var visited: map<Pose, int> := map[];
    arrived := {};
    var turns := 0;
    while queue != [] && turns < fuel
      invariant forall i :: 0 <= i < |queue| ==> Legal(walls, start, queue[i])
      invariant Arrivals(walls, start, end, best, history, arrived)
      decreases fuel - turns
    {
      turns := turns + 1;
      var e, rest := PopMin(queue);
      PopLegal(walls, start, queue, e, rest);
      queue := rest;
      var pose := Pose(e.pos, e.dir);
      if e.score <= best && !(pose in visited && visited[pose] < e.score) {
        visited := visited[pose := e.score];
        if e.pos == end {
          Arrive(walls, start, end, best, history, arrived, e);
          assert Min(best, e.score) == e.score;
          best := Min(best, e.score);
          history := history[e.score := (if e.score in history then history[e.score] else {}) + e.history];
          arrived := arrived + {e};
        }
        queue := Expand(walls, start, e, queue);
      }
    }
    if queue != [] {
      return None, arrived;
    }
    var tiles := if best in history then history[best] else {};
    return Some((best, |tiles| + 1)), arrived;
  }

  /** Taking an entry out of a queue of legal entries leaves legal entries on both sides. */
  lemma PopLegal(walls: set<Point>, start: Point, queue: seq<Entry>, e: Entry, rest: seq<Entry>)
    requires forall i :: 0 <= i < |queue| ==> Legal(walls, start, queue[i])
    requires exists i :: 0 <= i < |queue| && queue[i] == e && rest == queue[..i] + queue[i + 1..]
    ensures Legal(walls, start, e)
    ensures forall i :: 0 <= i < |rest| ==> Legal(walls, start, rest[i])
  {
    var k :| 0 <= k < |queue| && queue[k] == e && rest == queue[..k] + queue[k + 1..];
    forall i | 0 <= i < |rest|
      ensures Legal(walls, start, rest[i])
    {
      if i < k {
        assert rest[i] == queue[i];
      } else {
        assert rest[i] == queue[i + 1];
      }
    }
  }

  /** The inner `for` loop: queue a successor in each direction that is not a wall or already walked. */
  method Expand(walls: set<Point>, start: Point, e: Entry, queue: seq<Entry>) returns (queue': seq<Entry>)
    requires Legal(walls, start, e)
    requires forall i :: 0 <= i < |queue| ==> Legal(walls, start, queue[i])
    ensures forall i :: 0 <= i < |queue'| ==> Legal(walls, start, queue'[i])
    ensures queue' == queue + Successors(walls, e, Directions)
  {
    queue' := queue;
    for k := 0 to |Directions|
      invariant forall i :: 0 <= i < |queue'| ==> Legal(walls, start, queue'[i])
      invariant queue' == queue + Successors(walls, e, Directions[..k])
    {
      var d := Directions[k];
      var next := Add(e.pos, d);
      ghost var done := Successors(walls, e, Directions[..k]);
      SuccessorsNext(walls, e, k);
      if !(next in e.history || next in walls) {
        ExtendLegal(walls, start, e, d);
        LegalAppend(walls, start, queue', Successor(e, d));
        queue' := queue' + [Successor(e, d)];
        assert queue' == queue + (done + [Successor(e, d)]);
      }
    }
    assert Directions[..4] == Directions;
  }

  /** Pushing a legal entry onto a queue of legal entries keeps them all legal. */
  lemma LegalAppend(walls: set<Point>, start: Point, queue: seq<Entry>, x: Entry)
    requires forall i :: 0 <= i < |queue| ==> Legal(walls, start, queue[i])
    requires Legal(walls, start, x)
    ensures forall i :: 0 <= i < |queue| + 1 ==> Legal(walls, start, (queue + [x])[i])
  {
    forall i | 0 <= i < |queue| + 1
      ensures Legal(walls, start, (queue + [x])[i])
    {
      if i < |queue| {
        assert (queue + [x])[i] == queue[i];
      }
    }
  }

  /** The successors pushed for the directions ds, in order. */
  function Successors(walls: set<Point>, e: Entry, ds: seq<Point>): seq<Entry> {
    if ds == [] then []
    else
      var n := |ds| - 1;
      var next := Add(e.pos, ds[n]);
      Successors(walls, e, ds[..n]) + (if next in e.history || next in walls then [] else [Successor(e, ds[n])])
  }

  lemma SuccessorsAppend(walls: set<Point>, e: Entry, ds: seq<Point>, d: Point)
    ensures Successors(walls, e, ds + [d])
      == Successors(walls, e, ds) + (if Add(e.pos, d) in e.history || Add(e.pos, d) in walls then [] else [Successor(e, d)])
  {
    assert (ds + [d])[..|ds|] == ds;
  }

  /** The successors for the first k + 1 directions: those for the first k, then direction k's if it is open. */
  lemma SuccessorsNext(walls: set<Point>, e: Entry, k: nat)
    requires k < |Directions|
    ensures Successors(walls, e, Directions[..k + 1]) == Successors(walls, e, Directions[..k])
      + (if Add(e.pos, Directions[k]) in e.history || Add(e.pos, Directions[k]) in walls then [] else [Successor(e, Directions[k])])
  {
    assert Directions[..k + 1] == Directions[..k] + [Directions[k]];
    SuccessorsAppend(walls, e, Directions[..k], Directions[k]);
  }

  /** A best score below 9_999_999 is the cost of a walk from the start to the end. */
  lemma BestIsWalked(walls: set<Point>, start: Point, end: Point, best: int, arrived: set<Entry>)
    requires forall e :: e in arrived ==> e.pos == end && Legal(walls, start, e)
    requires exists e :: e in arrived && e.score == best
    ensures exists path: seq<Pose> :: Walk(walls, start, path) && path[|path| - 1].pos == end && Cost(path) == best
  {
    var e :| e in arrived && e.score == best;
    var path: seq<Pose> :| Walk(walls, start, path) && Matches(path, e);
    assert path[|path| - 1].pos == end && Cost(path) == best;
  }

  /** `part_1`: the best score. */
  method Part1(walls: set<Point>, start: Point, end: Point, fuel: nat) returns (r: Option<int>)
    ensures r.Some? ==> r.value == Unreached || exists path: seq<Pose> :: Walk(walls, start, path) && path[|path| - 1].pos == end && Cost(path) == r.value
  {
    var solved, arrived := SolveMaze(walls, start, end, fuel);
    if solved.None? {
      return None;
    }
    if solved.value.0 != Unreached {
      BestIsWalked(walls, start, end, solved.value.0, arrived);
    }
    return Some(solved.value.0);
  }

  /** `part_2`: the number of tiles on best-scoring walks, counting the end. */
  method Part2(walls: set<Point>, start: Point, end: Point, fuel: nat) returns (r: Option<int>)
    ensures r.Some? ==> r.value >= 1
    ensures r.Some? ==> exists best: int, arrived: set<Entry> ::
      (forall e :: e in arrived ==> e.pos == end && Legal(walls, start, e) && best <= e.score)
      && r.value == |Tiles(arrived, best)| + 1
  {
    var solved, arrived := SolveMaze(walls, start, end, fuel);
    if solved.None? {
      return None;
    }
    r := Some(solved.value.1);
    assert r.value == |Tiles(arrived, solved.value.0)| + 1;
  }
}
