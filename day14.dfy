/**
 * Restroom redoubt (src/day_14.py): robots move by their velocity every second and wrap around
 * the edges of the room; part_1 multiplies the robot counts of the four quadrants after 100
 * seconds, and part_2 finds the first second at which no two robots share a tile.
 */
module Day14 {
  import opened Common

  /** Python's `%`: the remainder takes the sign of the modulus. */
  function PyMod(a: int, m: int): (r: int)
    requires m != 0
    ensures m > 0 ==> 0 <= r < m
    ensures m < 0 ==> m < r <= 0
  {
    if m > 0 then a % m else -((-a) % (-m))
  }

  /** A positive multiple of a positive m is at least m. */
  lemma MulAtLeast(m: int, k: int)
    requires m > 0 && k > 0
    ensures m * k >= m
  {
    assert m * k == m * (k - 1) + m;
  }

  /** The remainder by a positive modulus is the only r in 0..m-1 with a - r a multiple of m. */
  lemma ModUnique(a: int, m: int, k: int, r: int)
    requires m > 0 && 0 <= r < m && a == m * k + r
    ensures a % m == r
  {
    var q, s := a / m, a % m;
    assert m * (k - q) == s - r;
    if k - q > 0 {
      MulAtLeast(m, k - q);
      assert false;
    } else if k - q < 0 {
      MulAtLeast(m, q - k);
      assert false;
    }
  }

  lemma ModAdd(a: int, v: int, m: int)
    requires m > 0
    ensures ((a % m) + v) % m == (a + v) % m
  {
    var q, r := a / m, a % m;
    var q', r' := (r + v) / m, (r + v) % m;
    assert a + v == m * (q + q') + r' by {
      assert r + v == m * q' + r';
    }
    ModUnique(a + v, m, q + q', r');
  }

  /** Reducing before adding changes nothing: ((a % m) + v) % m == (a + v) % m. */
  lemma PyModAdd(a: int, v: int, m: int)
    requires m != 0
    ensures PyMod(PyMod(a, m) + v, m) == PyMod(a + v, m)
  {
    if m > 0 {
      ModAdd(a, v, m);
    } else {
      ModAdd(-a, -v, -m);
    }
  }

  /** `Extent`: the room's width and height. */
  datatype Extent = Extent(x: int, y: int) {
    /** `half_x`, `half_y`: the middle column and row, by floor division. */
    function HalfX(): int {
      FloorDiv(x, 2)
    }

    function HalfY(): int {
      FloorDiv(y, 2)
    }

    /**
     * `quadrant`: 0 on the middle column or row; otherwise 1 (left) or 2 (right) plus 4 (below
     * the middle row) or 8 (above it).
     */
    function Quadrant(p: Point): (r: int)
      ensures r == 0 <==> p.0 == HalfX() || p.1 == HalfY()
      ensures r in {0, 5, 6, 9, 10}
      ensures r != 0 ==> (r % 4 == 1 <==> p.0 < HalfX()) && (r < 8 <==> p.1 > HalfY())
    {
      if p.0 == HalfX() || p.1 == HalfY() then 0
      else (if p.0 < HalfX() then 1 else 2) + (if p.1 > HalfY() then 4 else 8)
    }
  }

  /** A position wrapped into the room on both axes. */
  function Wrap(p: Point, e: Extent): Point
    requires e.x != 0 && e.y != 0
  {
    (PyMod(p.0, e.x), PyMod(p.1, e.y))
  }

  /** A robot as a value: where it is and its velocity. */
  datatype Bot = Bot(p: Point, v: Point)

  /** `Robot`: its position and velocity, updated in place by `move`. */
  class Robot {
    var x: int
    var y: int
    var vx: int
    var vy: int

    constructor (x: int, y: int, vx: int, vy: int)
      ensures this.x == x && this.y == y && this.vx == vx && this.vy == vy
    {
      this.x, this.y, this.vx, this.vy := x, y, vx, vy;
    }

    /** `complex()` */
    function Position(): Point
      reads this
    {
      (x, y)
    }

    function State(): Bot
      reads this
    {
      Bot((x, y), (vx, vy))
    }

    /** `move`: one second, wrapped around the room's edges. */
    method Move(extents: Extent)
      requires extents.x != 0 && extents.y != 0
      modifies this
      ensures State() == Bot(Wrap(Add(old(Position()), old(State()).v), extents), old(State()).v)
    {
      x := PyMod(x + vx, extents.x);
      y := PyMod(y + vy, extents.y);
    }
  }

  /** Where a robot is after n seconds: the start plus n times the velocity, wrapped into the room. */
  function Moved(b: Bot, n: nat, e: Extent): Point
    requires e.x != 0 && e.y != 0
  {
    if n == 0 then b.p else Wrap((b.p.0 + n * b.v.0, b.p.1 + n * b.v.1), e)
  }

  /** One more `move` takes a robot from its position after n seconds to its position after n + 1. */
  lemma MoveStep(b: Bot, n: nat, e: Extent)
    requires e.x != 0 && e.y != 0
    ensures Wrap(Add(Moved(b, n, e), b.v), e) == Moved(b, n + 1, e)
  {
    if n > 0 {
      OneMore(n, b.v.0);
      OneMore(n, b.v.1);
      WrapStep(b.p.0 + n * b.v.0, b.v.0, b.p.0 + (n + 1) * b.v.0, e.x);
      WrapStep(b.p.1 + n * b.v.1, b.v.1, b.p.1 + (n + 1) * b.v.1, e.y);
    }
  }

  lemma OneMore(n: int, v: int)
    ensures (n + 1) * v == n * v + v
  {
  }

  /** On one axis: wrapping, adding one more step and wrapping again is wrapping the sum. */
  lemma WrapStep(a: int, v: int, c: int, m: int)
    requires m != 0 && c == a + v
    ensures PyMod(PyMod(a, m) + v, m) == PyMod(c, m)
  {
    PyModAdd(a, v, m);
  }

  /** In a room of positive extents a robot that has moved is inside it. */
  lemma MovedInRoom(b: Bot, n: nat, e: Extent)
    requires e.x > 0 && e.y > 0 && n >= 1
    ensures 0 <= Moved(b, n, e).0 < e.x && 0 <= Moved(b, n, e).1 < e.y
  {
  }

  /** Every robot's position after n moves. */
  function After(bots: seq<Bot>, n: nat, e: Extent): (r: seq<Point>)
    requires e.x != 0 && e.y != 0
    ensures |r| == |bots| && forall i :: 0 <= i < |bots| ==> r[i] == Moved(bots[i], n, e)
  {
    seq(|bots|, i requires 0 <= i < |bots| => Moved(bots[i], n, e))
  }

  /** The robots as values. */
  function Snapshot(robots: seq<Robot>): (r: seq<Bot>)
    reads set i | 0 <= i < |robots| :: robots[i]
    ensures |r| == |robots| && forall i :: 0 <= i < |robots| ==> r[i] == robots[i].State()
  {
    seq(|robots|, i reads set i | 0 <= i < |robots| :: robots[i] requires 0 <= i < |robots| => robots[i].State())
  }

  /** No robot appears twice in the list (parse_input makes a fresh one per line). */
  predicate Separate(robots: seq<Robot>) {
    forall i, j :: 0 <= i < j < |robots| ==> robots[i] != robots[j]
  }

  /** One second for every robot, in order. */
  method MoveAll(robots: seq<Robot>, extents: Extent, ghost bots: seq<Bot>, ghost n: nat)
    requires extents.x != 0 && extents.y != 0 && Separate(robots) && |bots| == |robots|
    requires forall i :: 0 <= i < |robots| ==> robots[i].State() == Bot(Moved(bots[i], n, extents), bots[i].v)
    modifies set i | 0 <= i < |robots| :: robots[i]
    ensures forall i :: 0 <= i < |robots| ==> robots[i].State() == Bot(Moved(bots[i], n + 1, extents), bots[i].v)
  {
    for i := 0 to |robots|
      invariant forall j :: 0 <= j < i ==> robots[j].State() == Bot(Moved(bots[j], n + 1, extents), bots[j].v)
      invariant forall j :: i <= j < |robots| ==> robots[j].State() == Bot(Moved(bots[j], n, extents), bots[j].v)
    {
      MoveStep(bots[i], n, extents);
      robots[i].Move(extents);
    }
  }

  // ---------------------------------------------------------------------------------------------
  // part_1

  /** The quadrant of every position, in order. */
  function Quadrants(ps: seq<Point>, e: Extent): (r: seq<int>)
    ensures |r| == |ps| && forall i :: 0 <= i < |ps| ==> r[i] == e.Quadrant(ps[i])
  {
    seq(|ps|, i requires 0 <= i < |ps| => e.Quadrant(ps[i]))
  }

  /** How many times x occurs in s. */
  function CountOf(s: seq<int>, x: int): nat {
    if s == [] then 0 else Indicator(s[0] == x) + CountOf(s[1..], x)
  }

  lemma {:induction false} CountAppend(s: seq<int>, t: seq<int>, x: int)
    ensures CountOf(s + t, x) == CountOf(s, x) + CountOf(t, x)
  {
    if s == [] {
      assert s + t == t;
    } else {
      assert (s + t)[1..] == s[1..] + t;
      CountAppend(s[1..], t, x);
    }
  }

  lemma {:induction false} CountPresent(s: seq<int>, x: int)
    requires x in s
    ensures CountOf(s, x) >= 1
  {
    if s[0] != x {
      CountPresent(s[1..], x);
    }
  }

  lemma {:induction false} CountAbsent(s: seq<int>, x: int)
    requires x !in s
    ensures CountOf(s, x) == 0
  {
    if s != [] {
      CountAbsent(s[1..], x);
    }
  }

  /** `quadrants[extents.quadrant(robot)] += 1` over the robots, on a defaultdict. */
  function Tally(ps: seq<Point>, e: Extent): map<int, nat> {
    if ps == [] then map[]
    else
      var m := Tally(ps[..|ps| - 1], e);
      var q := e.Quadrant(ps[|ps| - 1]);
      m[q := (if q in m then m[q] else 0) + 1]
  }

  /** The tally holds exactly the quadrants some robot is in, each with its number of robots. */
  lemma TallyCounts(ps: seq<Point>, e: Extent)
    ensures forall q :: q in Tally(ps, e) <==> q in Quadrants(ps, e)
    ensures forall q :: q in Tally(ps, e) ==> Tally(ps, e)[q] == CountOf(Quadrants(ps, e), q)
    ensures Tally(ps, e).Keys <= {0, 5, 6, 9, 10}
  {
    forall q
      ensures q in Tally(ps, e) <==> q in Quadrants(ps, e)
      ensures q in Tally(ps, e) ==> Tally(ps, e)[q] == CountOf(Quadrants(ps, e), q)
    {
      TallyCount(ps, e, q);
    }
  }

  lemma {:induction false} TallyCount(ps: seq<Point>, e: Extent, q: int)
    ensures q in Tally(ps, e) <==> q in Quadrants(ps, e)
    ensures q in Tally(ps, e) ==> Tally(ps, e)[q] == CountOf(Quadrants(ps, e), q)
  {
    if ps != [] {
      var n := |ps| - 1;
      var init := ps[..n];
      TallyCount(init, e, q);
      var qs := Quadrants(ps, e);
      assert Quadrants(init, e) == qs[..n];
      assert qs == qs[..n] + [qs[n]];
      CountAppend(qs[..n], [qs[n]], q);
      assert CountOf([qs[n]], q) == Indicator(qs[n] == q);
      if q !in qs[..n] {
        CountAbsent(qs[..n], q);
      }
    }
  }

  /** `del quadrants[0]` then `prod(quadrants.values())`. */
  datatype Failure = KeyError

  function ProductOf(m: map<int, nat>, keys: seq<int>): nat {
    if keys == [] then 1
    else (if keys[0] in m then m[keys[0]] else 1) * ProductOf(m, keys[1..])
  }

  /**
   * The safety factor: KeyError when no robot sits on a middle line; otherwise the product of the
   * counts of the quadrants that hold a robot (an empty quadrant has no key and is not a factor).
   */
  function SafetyFactor(m: map<int, nat>): Result<nat, Failure> {
    if 0 !in m then Err(KeyError) else Ok(ProductOf(m, [5, 6, 9, 10]))
  }

  /** The product of the robot counts of the given quadrants, an empty one counting as 1. */
  function CountProduct(qs: seq<int>, keys: seq<int>): nat {
    if keys == [] then 1 else NonEmpty(CountOf(qs, keys[0])) * CountProduct(qs, keys[1..])
  }

  /** An empty quadrant has no key in the tally, so it does not take part in the product. */
  function NonEmpty(c: nat): nat {
    if c == 0 then 1 else c
  }

  /**
   * part_1's result from the robots' quadrants: KeyError exactly when no robot is on a middle line,
   * otherwise the product of the four quadrants' robot counts, an empty quadrant counting as 1.
   */
  lemma SafetyFactorCounts(ps: seq<Point>, e: Extent)
    ensures SafetyFactor(Tally(ps, e)).Err? <==> 0 !in Quadrants(ps, e)
    ensures SafetyFactor(Tally(ps, e)).Ok? ==> SafetyFactor(Tally(ps, e)).value == CountProduct(Quadrants(ps, e), [5, 6, 9, 10])
  {
    var qs := Quadrants(ps, e);
    var m := Tally(ps, e);
    TallyCounts(ps, e);
    forall q
      ensures (if q in m then m[q] else 1) == NonEmpty(CountOf(qs, q))
    {
      if q in m {
        CountPresent(qs, q);
      } else {
        CountAbsent(qs, q);
      }
    }
    ProductMatches(m, qs, [5, 6, 9, 10]);
  }

  lemma {:induction false} ProductMatches(m: map<int, nat>, qs: seq<int>, keys: seq<int>)
    requires forall q :: (if q in m then m[q] else 1) == NonEmpty(CountOf(qs, q))
    ensures ProductOf(m, keys) == CountProduct(qs, keys)
  {
    if keys != [] {
      ProductMatches(m, qs, keys[1..]);
    }
  }

  /** The counting loop of part_1. */
  method CountQuadrants(robots: seq<Robot>, extents: Extent) returns (quadrants: map<int, nat>)
    ensures quadrants == Tally(Positions(robots), extents)
  {
    quadrants := map[];
    for i := 0 to |robots|
      invariant quadrants == Tally(Positions(robots)[..i], extents)
    {
      assert Positions(robots)[..i + 1][..i] == Positions(robots)[..i];
      var q := extents.Quadrant(robots[i].Position());
      quadrants := quadrants[q := (if q in quadrants then quadrants[q] else 0) + 1];
    }
    assert Positions(robots)[..|robots|] == Positions(robots);
  }

  function Positions(robots: seq<Robot>): (r: seq<Point>)
    reads set i | 0 <= i < |robots| :: robots[i]
    ensures |r| == |robots| && forall i :: 0 <= i < |robots| ==> r[i] == robots[i].Position()
  {
    seq(|robots|, i reads set i | 0 <= i < |robots| :: robots[i] requires 0 <= i < |robots| => robots[i].Position())
  }

  /** part_1 on robots as values: the safety factor after 100 seconds. */
  function Part1Of(bots: seq<Bot>, e: Extent): Result<nat, Failure>
    requires e.x != 0 && e.y != 0
  {
    SafetyFactor(Tally(After(bots, 100, e), e))
  }

  /** part_1 on the parsed robots: 100 seconds of moves, then the safety factor. */
  method Part1(robots: seq<Robot>, extents: Extent) returns (r: Result<nat, Failure>)
    requires extents.x != 0 && extents.y != 0 && Separate(robots)
    modifies set i | 0 <= i < |robots| :: robots[i]
    ensures r == Part1Of(old(Snapshot(robots)), extents)
    ensures forall i :: 0 <= i < |robots| ==> robots[i].Position() == Moved(old(robots[i].State()), 100, extents)
  {
    ghost var bots := Snapshot(robots);
    for n := 0 to 100
      invariant forall i :: 0 <= i < |robots| ==> robots[i].State() == Bot(Moved(bots[i], n, extents), bots[i].v)
    {
      MoveAll(robots, extents, bots, n);
    }
    var quadrants := CountQuadrants(robots, extents);
    assert Positions(robots) == After(bots, 100, extents);
    if 0 !in quadrants {
      return Err(KeyError);
    }
    r := Ok(ProductOf(quadrants, [5, 6, 9, 10]));
  }

  /** The robots of the example. */
  const Example: seq<Bot> := [
    Bot((0, 4), (3, -3)), Bot((6, 3), (-1, -3)), Bot((10, 3), (-1, 2)), Bot((2, 0), (2, -1)),
    Bot((0, 0), (1, 3)), Bot((3, 0), (-2, -2)), Bot((7, 6), (-1, -3)), Bot((3, 0), (-1, -2)),
    Bot((9, 3), (2, 3)), Bot((7, 3), (-1, 2)), Bot((2, 4), (2, -3)), Bot((9, 5), (-3, -3))
  ]

  /**
   * In an 11 by 7 room the example's robots end on these tiles after 100 seconds, three of them on a
   * middle line and 4, 1, 1 and 3 in the quadrants 5, 6, 9 and 10.
   */
  lemma ExamplePositions()
    ensures After(Example, 100, Extent(11, 7))
      == [(3, 5), (5, 4), (9, 0), (4, 5), (1, 6), (1, 3), (6, 0), (2, 3), (0, 2), (6, 0), (4, 5), (6, 6)]
    ensures Quadrants(After(Example, 100, Extent(11, 7)), Extent(11, 7)) == [5, 0, 10, 5, 5, 0, 10, 0, 9, 10, 5, 6]
  {
    var e := Extent(11, 7);
    var ps := [(3, 5), (5, 4), (9, 0), (4, 5), (1, 6), (1, 3), (6, 0), (2, 3), (0, 2), (6, 0), (4, 5), (6, 6)];
    forall i | 0 <= i < 12
      ensures Moved(Example[i], 100, e) == ps[i]
    {
    }
    assert After(Example, 100, e) == ps;
    assert e.HalfX() == 5 && e.HalfY() == 3;
    assert Quadrants(ps, e) == [5, 0, 10, 5, 5, 0, 10, 0, 9, 10, 5, 6];
  }

  /** The example's safety factor in an 11 by 7 room: 4 · 1 · 1 · 3 robots in the quadrants, 12. */
  lemma ExamplePart1()
    ensures Part1Of(Example, Extent(11, 7)) == Ok(12)
  {
    var e := Extent(11, 7);
    var ps := After(Example, 100, e);
    ExamplePositions();
    SafetyFactorCounts(ps, e);
    ExampleCounts();
  }

  /** The robot counts of the four quadrants in the example's final quadrant list. */
  lemma ExampleCounts()
    ensures CountProduct([5, 0, 10, 5, 5, 0, 10, 0, 9, 10, 5, 6], [5, 6, 9, 10]) == 12
  {
    var qs := [5, 0, 10, 5, 5, 0, 10, 0, 9, 10, 5, 6];
    assert multiset(qs)[5] == 4 && multiset(qs)[6] == 1 && multiset(qs)[9] == 1 && multiset(qs)[10] == 3;
    ProductOfCounts(qs);
  }

  /** Four robots in quadrant 5, one in 6, one in 9 and three in 10 give a factor of 12. */
  lemma ProductOfCounts(qs: seq<int>)
    requires multiset(qs)[5] == 4 && multiset(qs)[6] == 1 && multiset(qs)[9] == 1 && multiset(qs)[10] == 3
    ensures CountProduct(qs, [5, 6, 9, 10]) == 12
  {
    CountIsMultiplicity(qs, 5);
    CountIsMultiplicity(qs, 6);
    CountIsMultiplicity(qs, 9);
    CountIsMultiplicity(qs, 10);
    assert [5, 6, 9, 10][1..] == [6, 9, 10] && [6, 9, 10][1..] == [9, 10] && [9, 10][1..] == [10];
    assert CountProduct(qs, [10]) == 3;
    assert CountProduct(qs, [9, 10]) == 3;
    assert CountProduct(qs, [6, 9, 10]) == 3;
  }

  lemma {:induction false} CountIsMultiplicity(s: seq<int>, x: int)
    ensures CountOf(s, x) == multiset(s)[x]
  {
    if s != [] {
      CountIsMultiplicity(s[1..], x);
      assert s == [s[0]] + s[1..];
    }
  }

  // ---------------------------------------------------------------------------------------------
  // part_2

  /** The distinct positions in ps. */
  function Occupied(ps: seq<Point>): set<Point> {
    set i | 0 <= i < |ps| :: ps[i]
  }

  /** `len(positions) == robot_count`: no two robots on one tile. */
  predicate Apart(ps: seq<Point>) {
    |Occupied(ps)| == |ps|
  }

  /** Fewer tiles than robots exactly when two robots share one. */
  lemma {:induction false} ApartIffDistinct(ps: seq<Point>)
    ensures |Occupied(ps)| <= |ps|
    ensures Apart(ps) <==> Distinct(ps)
  {
    if ps != [] {
      var n := |ps| - 1;
      var init := ps[..n];
      ApartIffDistinct(init);
      assert Occupied(ps) == Occupied(init) + {ps[n]};
      if ps[n] in Occupied(init) {
        var k :| 0 <= k < n && init[k] == ps[n];
        assert ps[k] == ps[n];
        assert !Apart(ps) && !Distinct(ps);
      } else {
        assert Apart(ps) == Apart(init);
        DistinctSnoc(ps);
      }
    }
  }

  /** No two robots are on the same tile. */
  predicate Distinct(ps: seq<Point>) {
    forall i, j :: 0 <= i < j < |ps| ==> ps[i] != ps[j]
  }

  /** A last robot on a tile of its own keeps the robots apart exactly when those before it are. */
  lemma DistinctSnoc(ps: seq<Point>)
    requires ps != [] && ps[|ps| - 1] !in Occupied(ps[..|ps| - 1])
    ensures Distinct(ps) == Distinct(ps[..|ps| - 1])
  {
    var n := |ps| - 1;
    var init := ps[..n];
    if Distinct(init) {
      forall i, j | 0 <= i < j < |ps|
        ensures ps[i] != ps[j]
      {
        assert init[i] == ps[i];
        if j < n {
          assert init[j] == ps[j];
        } else {
          assert ps[i] in Occupied(init);
        }
      }
    } else {
      var i, j :| 0 <= i < j < n && init[i] == init[j];
      assert ps[i] == ps[j];
    }
  }

  /** part_2 on robots as values: no two robots share a tile after n seconds. */
  ghost predicate ApartAt(bots: seq<Bot>, n: nat, e: Extent)
    requires e.x != 0 && e.y != 0
  {
    Apart(After(bots, n, e))
  }

  /**
   * part_2 on the parsed robots, searching the first `limit` seconds: the first second after which
   * all robots are on different tiles, or None if there is none so early.
   */
  method Part2(robots: seq<Robot>, extents: Extent, limit: nat) returns (r: Option<nat>)
    requires extents.x != 0 && extents.y != 0 && Separate(robots)
    modifies set i | 0 <= i < |robots| :: robots[i]
    ensures r.Some? ==> 1 <= r.value <= limit && ApartAt(old(Snapshot(robots)), r.value, extents)
    ensures r.Some? ==> forall n :: 1 <= n < r.value ==> !ApartAt(old(Snapshot(robots)), n, extents)
    ensures r.None? ==> forall n :: 1 <= n <= limit ==> !ApartAt(old(Snapshot(robots)), n, extents)
  {
    ghost var bots := Snapshot(robots);
    for i := 0 to limit
      invariant forall j :: 0 <= j < |robots| ==> robots[j].State() == Bot(Moved(bots[j], i, extents), bots[j].v)
      invariant forall n :: 1 <= n <= i ==> !ApartAt(bots, n, extents)
    {
      MoveAll(robots, extents, bots, i);
      var positions := Gather(robots);
      assert Positions(robots) == After(bots, i + 1, extents);
      if |positions| == |robots| {
        return Some(i + 1);
      }
    }
    return None;
  }

  /** `positions.add(robot.complex())` over the robots. */
  method Gather(robots: seq<Robot>) returns (positions: set<Point>)
    ensures positions == Occupied(Positions(robots))
  {
    positions := {};
    for i := 0 to |robots|
      invariant positions == Occupied(Positions(robots)[..i])
    {
      assert Occupied(Positions(robots)[..i + 1]) == Occupied(Positions(robots)[..i]) + {robots[i].Position()};
      positions := positions + {robots[i].Position()};
    }
    assert Positions(robots)[..|robots|] == Positions(robots);
  }
}
