/**
 * Monkey market (src/day_22.py): each buyer's secret number evolves by three mix-and-prune steps;
 * part_1 sums the 2000th secrets, part_2 finds the window of four price changes that earns the
 * most bananas when every buyer sells at the first occurrence of that window.
 */
module Day22 {
  import opened Common

  /** `int()` on a line that is not a number, and `max()` of no values. */
  datatype Failure = ValueError

  /** 2^24, the modulus of `prune`. */
  const Modulus: nat := 16777216

  /** The number of new secrets each buyer generates. */
  const Rounds: nat := 2000

  // ---------------------------------------------------------------------------------------------
  // mix, prune, secret_number, cost

  /** The bits of n in two's complement, read as a magnitude: n itself, or ~n == -n - 1 when negative. */
  function Magnitude(n: int): nat {
    if n >= 0 then n else -n - 1
  }

  /**
   * `mix`: Python's `^` on integers of either sign. The magnitudes are xor-ed and the result is
   * negative (complemented back) exactly when one operand is.
   */
  function Mix(n1: int, n2: int): (r: int)
    ensures r >= 0 <==> (n1 >= 0 <==> n2 >= 0)
    ensures Magnitude(r) == Xor(Magnitude(n1), Magnitude(n2))
  {
    var x: int := Xor(Magnitude(n1), Magnitude(n2));
    if (n1 >= 0) == (n2 >= 0) then x else -x - 1
  }

  /** Mixing is symmetric. */
  lemma MixCommutes(n1: int, n2: int)
    ensures Mix(n1, n2) == Mix(n2, n1)
  {
    XorCommutes(Magnitude(n1), Magnitude(n2));
  }

  /** A number mixed with itself is 0. */
  lemma MixSelf(n: int)
    ensures Mix(n, n) == 0
  {
    XorSelf(Magnitude(n));
  }

  /** `mix(42, 15) == 37`. */
  lemma ExampleMix()
    ensures Mix(42, 15) == 37
  {
  }

  /** `prune`: the remainder modulo 2^24 (Python's `%` by a positive modulus is never negative). */
  function Prune(n: int): (r: nat)
    ensures r < Modulus
    ensures (n - r) % Modulus == 0
  {
    n % Modulus
  }

  /** `prune(100000000) == 16113920`. */
  lemma ExamplePrune()
    ensures Prune(100000000) == 16113920
  {
  }

  /** `mix_prune`. */
  function MixPrune(n1: int, n2: int): nat {
    Prune(Mix(n1, n2))
  }

  /** The number each stage of `secret_number` mixes in: ×64, //32, ×2048. */
  function Scale(n: int, stage: nat): int {
    if stage == 0 then n * 64 else if stage == 1 then FloorDiv(n, 32) else n * 2048
  }

  /** `secret_number` from the given stage on: each stage mixes the scaled number in and prunes. */
  function Stages(n: int, stage: nat): (r: int)
    requires stage <= 3
    ensures stage < 3 ==> 0 <= r < Modulus
    decreases 3 - stage
  {
    if stage == 3 then n else Stages(MixPrune(Scale(n, stage), n), stage + 1)
  }

  /** `secret_number`. */
  function Secret(seed: int): (r: nat)
    ensures r < Modulus
  {
    Stages(seed, 0)
  }

  /**
   * A secret worked out stage by stage: x, y and z are the numbers mixed in, m1, m2 and m3 the
   * mixes, and a, b and c their pruned values.
   */
  lemma SecretIs(seed: int, x: int, m1: int, a: int, y: int, m2: int, b: int, z: int, m3: int, c: int)
    requires x == seed * 64 && Mix(x, seed) == m1 && Prune(m1) == a
    requires y == FloorDiv(a, 32) && Mix(y, a) == m2 && Prune(m2) == b
    requires z == b * 2048 && Mix(z, b) == m3 && Prune(m3) == c
    ensures Secret(seed) == c
  {
    assert Stages(seed, 0) == Stages(a, 1) == Stages(b, 2) == Stages(c, 3);
  }

  /** The first five of the ten secrets that follow 123, each worked out from the one before. */
  lemma ExampleSecretsStart()
    ensures Secret(123) == 15887950
    ensures Secret(15887950) == 16495136
    ensures Secret(16495136) == 527345
    ensures Secret(527345) == 704524
    ensures Secret(704524) == 1553684
  {
    assert Secret(123) == 15887950 by {
      SecretIs(123, 7872, 7867, 7867, 245,
               7758, 7758, 15888384, 15887950, 15887950);
    }
    assert Secret(15887950) == 16495136 by {
      SecretIs(15887950, 1016828800, 1013579214, 6946254, 217070,
               6992416, 6992416, 14320467968, 14327460384, 16495136);
    }
    assert Secret(16495136) == 527345 by {
      SecretIs(16495136, 1055688704, 1041709600, 1522208, 47569,
               1541105, 1541105, 3156183040, 3154643953, 527345);
    }
    assert Secret(527345) == 704524 by {
      SecretIs(527345, 33750080, 34273201, 718769, 22461,
               696332, 696332, 1426087936, 1426767884, 704524);
    }
    assert Secret(704524) == 1553684 by {
      SecretIs(704524, 45089536, 45794060, 12239628, 382488,
               12522772, 12522772, 25646637056, 25637139732, 1553684);
    }
  }

  /** The last five of the ten secrets that follow 123. */
  lemma ExampleSecretsEnd()
    ensures Secret(1553684) == 12683156
    ensures Secret(12683156) == 11100544
    ensures Secret(11100544) == 12249484
    ensures Secret(12249484) == 7753432
    ensures Secret(7753432) == 5908254
  {
    assert Secret(1553684) == 12683156 by {
      SecretIs(1553684, 99435776, 100331540, 16445460, 513920,
               16590740, 16590740, 33977835520, 33986545556, 12683156);
    }
    assert Secret(12683156) == 11100544 by {
      SecretIs(12683156, 811721984, 815817364, 10510996, 328468,
               10838400, 10838400, 22197043200, 22207357312, 11100544);
    }
    assert Secret(11100544) == 12249484 by {
      SecretIs(11100544, 710434816, 720437632, 15794560, 493580,
               16157068, 16157068, 33089675264, 33096919436, 12249484);
    }
    assert Secret(12249484) == 7753432 by {
      SecretIs(12249484, 783966976, 771787404, 35468, 1108,
               36568, 36568, 74891264, 74862296, 7753432);
    }
    assert Secret(7753432) == 5908254 by {
      SecretIs(7753432, 496219648, 501610712, 15071448, 470982,
               14866206, 14866206, 30445989888, 30439778078, 5908254);
    }
  }

  /** `cost`: the price is the secret's last decimal digit. */
  function Cost(n: int): (r: nat)
    ensures r < 10 && (n - r) % 10 == 0
  {
    n % 10
  }

  /** The secret after k steps (the seed itself when k is 0). */
  function Evolve(seed: int, k: nat): (r: int)
    ensures k > 0 ==> 0 <= r < Modulus
  {
    if k == 0 then seed else Secret(Evolve(seed, k - 1))
  }

  /** Evolving k + 1 times is evolving k times from the first secret. */
  lemma {:induction false} EvolveShift(seed: int, k: nat)
    ensures Evolve(Secret(seed), k) == Evolve(seed, k + 1)
  {
    if k > 0 {
      EvolveShift(seed, k - 1);
    }
  }

  // ---------------------------------------------------------------------------------------------
  // Reading the buyers

  /** `map(int, puzzle.splitlines())`. */
  function Numbers(lines: seq<string>): Result<seq<int>, Failure> {
    if lines == [] then Ok([])
    else
      var n := |lines| - 1;
      match Numbers(lines[..n])
      case Err(e) => Err(e)
      case Ok(ns) =>
        match IntOf(lines[n])
        case None => Err(ValueError)
        case Some(v) => Ok(ns + [v])
  }

  /** Reading fails exactly when some line is not a number; otherwise it reads every line in order. */
  lemma {:induction false} NumbersRead(lines: seq<string>)
    ensures Numbers(lines).Err? <==> exists i :: 0 <= i < |lines| && IntOf(lines[i]).None?
    ensures Numbers(lines).Ok? ==> (|Numbers(lines).value| == |lines|
      && forall i :: 0 <= i < |lines| ==> IntOf(lines[i]) == Some(Numbers(lines).value[i]))
  {
    if lines != [] {
      var n := |lines| - 1;
      NumbersRead(lines[..n]);
      assert forall i :: 0 <= i < n ==> lines[..n][i] == lines[i];
    }
  }

  // ---------------------------------------------------------------------------------------------
  // part_1

  /** The 2000th secret of every buyer. */
  function Finals(starts: seq<int>): (r: seq<int>)
    ensures |r| == |starts|
  {
    seq(|starts|, i requires 0 <= i < |starts| => Evolve(starts[i], Rounds))
  }

  /** The 2000th secret of one buyer. */
  method Evolved(start: int) returns (number: int)
    ensures number == Evolve(start, Rounds)
  {
    number := start;
    for k := 0 to Rounds
      invariant number == Evolve(start, k)
    {
      number := Secret(number);
    }
  }

  /** The finals of one more buyer end with that buyer's 2000th secret. */
  lemma FinalsExtend(starts: seq<int>, b: nat)
    requires b < |starts|
    ensures Finals(starts[..b + 1]) == Finals(starts[..b]) + [Evolve(starts[b], Rounds)]
  {
    var f, g := Finals(starts[..b + 1]), Finals(starts[..b]) + [Evolve(starts[b], Rounds)];
    forall i | 0 <= i <= b
      ensures f[i] == g[i]
    {
      assert starts[..b + 1][i] == starts[i];
    }
  }

  /** `part_1`: the sum of every buyer's 2000th secret. */
  method Part1(puzzle: string) returns (r: Result<int, Failure>)
    ensures r == match Numbers(Lines(puzzle)) case Err(e) => Err(e) case Ok(starts) => Ok(Sum(Finals(starts)))
  {
    var parsed := Numbers(Lines(puzzle));
    if parsed.Err? {
      return Err(parsed.error);
    }
    var starts := parsed.value;
    var numbers: seq<int> := [];
    for b := 0 to |starts|
      invariant numbers == Finals(starts[..b])
    {
      var number := Evolved(starts[b]);
      FinalsExtend(starts, b);
      numbers := numbers + [number];
    }
    assert starts[..|starts|] == starts;
    r := Ok(Sum(numbers));
  }

  /** Each buyer adds a number below 2^24, so the sum lies in [0, 2^24·buyers). */
  lemma {:induction false} SumFinalsBounded(starts: seq<int>)
    ensures 0 <= Sum(Finals(starts)) < Modulus * |starts| || starts == []
    ensures Sum(Finals(starts)) >= 0
  {
    if starts != [] {
      var n := |starts| - 1;
      SumFinalsBounded(starts[..n]);
      assert Finals(starts)[..n] == Finals(starts[..n]);
    }
  }

  // ---------------------------------------------------------------------------------------------
  // part_2: one buyer

  /** The buyer's prices: that of the seed, then those of the next k secrets. */
  function Prices(seed: int, k: nat): (r: seq<int>)
    ensures |r| == k + 1
  {
    if k == 0 then [Cost(seed)] else Prices(seed, k - 1) + [Cost(Evolve(seed, k))]
  }

  /** The price changes along a run of prices: change i is the step from price i to price i + 1. */
  function Changes(p: seq<int>): (r: seq<int>)
    requires p != []
    ensures |r| == |p| - 1
  {
    seq(|p| - 1, i requires 0 <= i < |p| - 1 => p[i + 1] - p[i])
  }

  /** `deque(maxlen=4).append`: a full deque drops its oldest entry. */
  function Push(d: seq<int>, x: int): seq<int> {
    if |d| == 4 then d[1..] + [x] else d + [x]
  }

  /** The last (up to) four entries. */
  function Recent(s: seq<int>): (r: seq<int>)
    ensures |r| == if |s| <= 4 then |s| else 4
  {
    if |s| <= 4 then s else s[|s| - 4..]
  }

  /** Appending to the bounded deque keeps it equal to the last four entries. */
  lemma PushRecent(s: seq<int>, x: int)
    ensures Push(Recent(s), x) == Recent(s + [x])
  {
  }

  /** The four price changes that end at price j. */
  function Window(p: seq<int>, j: nat): (w: seq<int>)
    requires 4 <= j < |p|
    ensures |w| == 4
  {
    Changes(p[j - 4..j + 1])
  }

  /** `sequences` for a run of prices: each window seen, with the price at its first occurrence. */
  function FirstSales(p: seq<int>): map<seq<int>, int> {
    if |p| <= 4 then map[]
    else
      var s := FirstSales(p[..|p| - 1]);
      var w := Window(p, |p| - 1);
      if w in s then s else s[w := p[|p| - 1]]
  }

  /** A window of a prefix is a window of the whole run. */
  lemma WindowPrefix(p: seq<int>, n: nat, j: nat)
    requires 4 <= j < n <= |p|
    ensures Window(p[..n], j) == Window(p, j)
  {
    assert p[..n][j - 4..j + 1] == p[j - 4..j + 1];
  }

  /** Every window of a prefix is a window of the whole run. */
  lemma WindowsPrefix(p: seq<int>, n: nat)
    requires n <= |p|
    ensures forall j :: 4 <= j < n ==> Window(p[..n], j) == Window(p, j)
  {
    forall j | 4 <= j < n
      ensures Window(p[..n], j) == Window(p, j)
    {
      WindowPrefix(p, n, j);
    }
  }

  /** One more price records at most its own window. */
  lemma SalesGrow(p: seq<int>, w: seq<int>)
    requires |p| > 4
    ensures w in FirstSales(p) <==> w in FirstSales(p[..|p| - 1]) || w == Window(p, |p| - 1)
  {
  }

  /** A window is recorded exactly when it occurs in the run. */
  lemma {:induction false} SalesHas(p: seq<int>, w: seq<int>)
    ensures w in FirstSales(p) <==> exists j :: 4 <= j < |p| && Window(p, j) == w
  {
    if |p| > 4 {
      var n := |p| - 1;
      SalesHas(p[..n], w);
      SalesGrow(p, w);
      WindowsPrefix(p, n);
      if w in FirstSales(p[..n]) {
        var j :| 4 <= j < n && Window(p[..n], j) == w;
        assert Window(p, j) == w;
      }
      if j :| 4 <= j < n && Window(p, j) == w {
        assert Window(p[..n], j) == w;
      }
    }
  }

  /** The recorded price is the one at the window's first occurrence. */
  lemma {:induction false} SalesFirst(p: seq<int>, w: seq<int>)
    requires w in FirstSales(p)
    ensures exists j :: (4 <= j < |p| && Window(p, j) == w && FirstSales(p)[w] == p[j]
      && forall i :: 4 <= i < j ==> Window(p, i) != w)
  {
    var n := |p| - 1;
    WindowsPrefix(p, n);
    if w in FirstSales(p[..n]) {
      SalesFirst(p[..n], w);
      var j :| 4 <= j < n && Window(p[..n], j) == w && FirstSales(p[..n])[w] == p[..n][j]
        && forall i :: 4 <= i < j ==> Window(p[..n], i) != w;
      assert FirstSales(p)[w] == p[j];
    } else {
      SalesHas(p[..n], w);
      assert Window(p, n) == w;
    }
  }

  /** The last four changes of a run of at least five prices are its last window. */
  lemma RecentWindow(p: seq<int>)
    requires |p| > 4
    ensures Recent(Changes(p)) == Window(p, |p| - 1)
  {
    var n := |p| - 1;
    var q := p[n - 4..n + 1];
    forall i | 0 <= i < 4
      ensures Changes(p)[n - 4..][i] == Changes(q)[i]
    {
      assert q[i] == p[n - 4 + i] && q[i + 1] == p[n - 3 + i];
    }
    assert Changes(p)[n - 4..] == Changes(q);
  }

  /** Extending a run adds one change. */
  lemma ChangesExtend(p: seq<int>, x: int)
    requires p != []
    ensures Changes(p + [x]) == Changes(p) + [x - p[|p| - 1]]
  {
    var q := p + [x];
    forall i | 0 <= i < |p|
      ensures Changes(q)[i] == (Changes(p) + [x - p[|p| - 1]])[i]
    {
      assert q[i] == p[i];
      if i + 1 < |p| {
        assert q[i + 1] == p[i + 1];
      }
    }
  }

  /** `sequences` for one buyer. */
  function Sales(seed: int): map<seq<int>, int> {
    FirstSales(Prices(seed, Rounds))
  }

  /**
   * One round of the inner loop of `part_2` after the new price is known: push its change onto the
   * deque and record a full window not seen before. The deque and `sequences` stay in step with
   * the prices seen.
   */
  method Record(ghost p: seq<int>, changes: seq<int>, sequences: map<seq<int>, int>, previous: int, price: int)
    returns (changes': seq<int>, sequences': map<seq<int>, int>)
    requires p != [] && previous == p[|p| - 1]
    requires changes == Recent(Changes(p)) && sequences == FirstSales(p)
    ensures changes' == Recent(Changes(p + [price]))
    ensures sequences' == FirstSales(p + [price])
  {
    var q := p + [price];
    changes' := Push(changes, price - previous);
    ChangesExtend(p, price);
    PushRecent(Changes(p), price - previous);
    assert changes' == Recent(Changes(q));
    assert q[..|q| - 1] == p;
    sequences' := sequences;
    if |changes'| == 4 && changes' !in sequences {
      sequences' := sequences[changes' := price];
    }
    if |q| > 4 {
      RecentWindow(q);
      assert Window(q, |q| - 1) == changes';
    }
  }

  /** The inner loop of `part_2` for one buyer: the first price of every window of four changes. */
  method Sell(start: int) returns (sequences: map<seq<int>, int>)
    ensures sequences == Sales(start)
  {
    sequences := map[];
    var changes: seq<int> := [];
    var number := start;
    var previous: int := Cost(start);
    ghost var prices: seq<int> := [previous];
    for k := 0 to Rounds
      invariant number == Evolve(start, k) && prices == Prices(start, k) && previous == prices[k]
      invariant changes == Recent(Changes(prices))
      invariant sequences == FirstSales(prices)
    {
      number := Secret(number);
      var numberCost := Cost(number);
      changes, sequences := Record(prices, changes, sequences, previous, numberCost);
      previous := numberCost;
      prices := prices + [numberCost];
    }
  }

  // ---------------------------------------------------------------------------------------------
  // part_2: all buyers

  /** A defaultdict read: 0 for a missing key. */
  function Get(m: map<seq<int>, int>, w: seq<int>): int {
    if w in m then m[w] else 0
  }

  /** `bananas[sequence] += banana` for every item of `sales`. */
  function Merge(bananas: map<seq<int>, int>, sales: map<seq<int>, int>): map<seq<int>, int> {
    map w | w in bananas.Keys + sales.Keys :: Get(bananas, w) + Get(sales, w)
  }

  /** `sequences` of every buyer, in order. */
  function Buyers(starts: seq<int>): (r: seq<map<seq<int>, int>>)
    ensures |r| == |starts|
  {
    seq(|starts|, i requires 0 <= i < |starts| => Sales(starts[i]))
  }

  /** `bananas` after adding each buyer's sales in turn. */
  function Market(sales: seq<map<seq<int>, int>>): map<seq<int>, int> {
    if sales == [] then map[] else Merge(Market(sales[..|sales| - 1]), sales[|sales| - 1])
  }

  /** What window w earns over the buyers: each sells at w's first occurrence, or not at all. */
  function Gains(sales: seq<map<seq<int>, int>>, w: seq<int>): int {
    if sales == [] then 0 else Gains(sales[..|sales| - 1], w) + Get(sales[|sales| - 1], w)
  }

  /** The market holds the windows some buyer sees, each with its total earnings. */
  lemma {:induction false} MarketIs(sales: seq<map<seq<int>, int>>, w: seq<int>)
    ensures w in Market(sales) <==> exists i :: 0 <= i < |sales| && w in sales[i]
    ensures Get(Market(sales), w) == Gains(sales, w)
  {
    if sales != [] {
      var n := |sales| - 1;
      MarketIs(sales[..n], w);
      if exists i :: 0 <= i < n && w in sales[..n][i] {
        var i :| 0 <= i < n && w in sales[..n][i];
        assert w in sales[i];
      }
      if i :| 0 <= i < |sales| && w in sales[i] {
        if i < n {
          assert w in sales[..n][i];
        }
      }
    }
  }

  /** There is a market exactly when there is a buyer: 2000 secrets always give a window. */
  lemma MarketEmpty(starts: seq<int>)
    ensures Market(Buyers(starts)) == map[] <==> starts == []
  {
    if starts != [] {
      var n := |starts| - 1;
      var p := Prices(starts[n], Rounds);
      var w := Window(p, 4);
      SalesHas(p, w);
      MarketIs(Buyers(starts), w);
      assert w in Market(Buyers(starts));
    }
  }

  /** The loop over `sequences.items()` that adds one buyer's sales to `bananas`. */
  method Deposit(bananas: map<seq<int>, int>, sales: map<seq<int>, int>) returns (r: map<seq<int>, int>)
    ensures r == Merge(bananas, sales)
  {
    r := bananas;
    var left := sales.Keys;
    while left != {}
      invariant left <= sales.Keys
      invariant forall w :: w in r <==> w in bananas || (w in sales && w !in left)
      invariant forall w :: w in r ==> r[w] == Get(bananas, w) + (if w in sales && w !in left then sales[w] else 0)
      decreases left
    {
      var w :| w in left;
      r := r[w := Get(r, w) + sales[w]];
      left := left - {w};
    }
  }

  /** r is the largest of m's values. */
  ghost predicate IsMax(r: int, m: map<seq<int>, int>) {
    (exists w :: w in m && m[w] == r) && forall w :: w in m ==> m[w] <= r
  }

  /** `max(bananas.values())`, which raises ValueError on an empty dict. */
  method Largest(m: map<seq<int>, int>) returns (r: Result<int, Failure>)
    ensures r.Err? <==> m == map[]
    ensures r.Err? ==> r.error == ValueError
    ensures r.Ok? ==> IsMax(r.value, m)
  {
    if m.Keys == {} {
      assert m == map[];
      return Err(ValueError);
    }
    var first :| first in m.Keys;
    var best := m[first];
    var left := m.Keys - {first};
    while left != {}
      invariant left <= m.Keys
      invariant exists w :: w in m && m[w] == best
      invariant forall w :: w in m && w !in left ==> m[w] <= best
      decreases left
    {
      var w :| w in left;
      if m[w] > best {
        best := m[w];
      }
      left := left - {w};
    }
    r := Ok(best);
  }

  /**
   * `part_2`: the most bananas one window of four price changes can earn over all buyers, or
   * ValueError for a line that is not a number or for a puzzle without buyers.
   */
  method Part2(puzzle: string) returns (r: Result<int, Failure>)
    ensures Numbers(Lines(puzzle)).Err? ==> r == Err(ValueError)
    ensures Numbers(Lines(puzzle)).Ok? ==>
      var starts := Numbers(Lines(puzzle)).value;
      (r.Err? <==> starts == []) && (r.Ok? ==> IsMax(r.value, Market(Buyers(starts))))
  {
    var parsed := Numbers(Lines(puzzle));
    if parsed.Err? {
      return Err(ValueError);
    }
    var starts := parsed.value;
    var bananas: map<seq<int>, int> := map[];
    for b := 0 to |starts|
      invariant bananas == Market(Buyers(starts)[..b])
    {
      var sequences := Sell(starts[b]);
      bananas := Deposit(bananas, sequences);
      assert Buyers(starts)[..b + 1][..b] == Buyers(starts)[..b];
    }
    assert Buyers(starts)[..|starts|] == Buyers(starts);
    MarketEmpty(starts);
    r := Largest(bananas);
  }
}
