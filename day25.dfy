/**
 * Code chronicle (src/day_25.py): `parse_input` turns each schematic into its column heights and
 * sorts it by its first character, `fits` checks a lock against a key column by column, and
 * `part_1` counts the key and lock pairs that fit.
 */
module Day25 {
  import opened Common

  /** The exception the source raises: a schematic with no lines, or a line shorter than the first. */
  datatype Failure = IndexError

  /** A schematic's column heights (the source's `Lock` and `Key`). */
  type Heights = seq<int>

  // ---------------------------------------------------------------------------------------------
  // parse_input

  /** `sum(int(lines[j][i] == "#") for j in range(rows))`: the '#' cells of column i in the first rows. */
  function Filled(lines: seq<string>, i: nat, rows: nat): nat
    requires rows <= |lines| && forall j :: 0 <= j < |lines| ==> i < |lines[j]|
  {
    if rows == 0 then 0 else Filled(lines, i, rows - 1) + Indicator(lines[rows - 1][i] == '#')
  }

  /** No column holds more '#' cells than there are rows, and it holds that many or none exactly when all are, or none. */
  lemma {:induction false} FilledBound(lines: seq<string>, i: nat, rows: nat)
    requires rows <= |lines| && forall j :: 0 <= j < |lines| ==> i < |lines[j]|
    ensures Filled(lines, i, rows) <= rows
    ensures Filled(lines, i, rows) == rows <==> forall j :: 0 <= j < rows ==> lines[j][i] == '#'
    ensures Filled(lines, i, rows) == 0 <==> forall j :: 0 <= j < rows ==> lines[j][i] != '#'
  {
    if rows > 0 {
      FilledBound(lines, i, rows - 1);
    }
  }

  /** Every line is at least as long as the first, so `lines[j][i]` never fails. */
  predicate Rectangular(lines: seq<string>) {
    lines != [] && forall j :: 0 <= j < |lines| ==> |lines[0]| <= |lines[j]|
  }

  /**
   * The item of one schematic: for each column of the first line, its '#' cells minus one. No
   * lines, or a line shorter than the first, is an IndexError.
   */
  function Item(data: string): (r: Result<Heights, Failure>)
    ensures r.Ok? <==> Rectangular(Lines(data))
    ensures r.Ok? ==> r.value == Columns(Lines(data))
  {
    var lines := Lines(data);
    if !Rectangular(lines) then Err(IndexError) else Ok(Columns(lines))
  }

  /** The comprehension of `parse_input`: each column of the first line, as its '#' cells minus one. */
  function Columns(lines: seq<string>): (r: Heights)
    requires Rectangular(lines)
    ensures |r| == |lines[0]| && forall i :: 0 <= i < |r| ==> -1 <= r[i] < |lines|
  {
    var r := seq(|lines[0]|, i requires 0 <= i < |lines[0]| => Filled(lines, i, |lines|) - 1);
    assert forall i :: 0 <= i < |r| ==> r[i] < |lines| by {
      forall i | 0 <= i < |r| ensures r[i] < |lines| {
        FilledBound(lines, i, |lines|);
      }
    }
    r
  }

  /** `data.startswith("#")`. */
  predicate IsKey(data: string) {
    |data| > 0 && data[0] == '#'
  }

  /** The loop of `parse_input` over the blocks: keys and locks, each in the order read. */
  function Schematics(blocks: seq<string>): Result<(seq<Heights>, seq<Heights>), Failure> {
    if blocks == [] then Ok(([], []))
    else
      var n := |blocks| - 1;
      match Schematics(blocks[..n])
      case Err(e) => Err(e)
      case Ok(kl) =>
        match Item(blocks[n])
        case Err(e) => Err(e)
        case Ok(item) => if IsKey(blocks[n]) then Ok((kl.0 + [item], kl.1)) else Ok((kl.0, kl.1 + [item]))
  }

  /** Reading fails exactly when some block is not rectangular. */
  lemma {:induction false} SchematicsErr(blocks: seq<string>)
    ensures Schematics(blocks).Err? <==> exists b :: 0 <= b < |blocks| && Item(blocks[b]).Err?
  {
    if blocks != [] {
      var n := |blocks| - 1;
      SchematicsErr(blocks[..n]);
      assert forall b :: 0 <= b < n ==> blocks[..n][b] == blocks[b];
    }
  }

  /**
   * When reading succeeds, every block reads, and its item is among the keys when the block starts with '#' and
   * among the locks when it does not, and there are as many keys and locks together as blocks.
   */
  lemma {:induction false} SchematicsRead(blocks: seq<string>)
    ensures Schematics(blocks).Ok? ==>
      var keys, locks := Schematics(blocks).value.0, Schematics(blocks).value.1;
      |keys| + |locks| == |blocks|
      && (forall b :: 0 <= b < |blocks| ==> Item(blocks[b]).Ok?)
      && (forall b :: 0 <= b < |blocks| && IsKey(blocks[b]) ==> Item(blocks[b]).value in keys)
      && (forall b :: 0 <= b < |blocks| && !IsKey(blocks[b]) ==> Item(blocks[b]).value in locks)
  {
    if blocks != [] && Schematics(blocks).Ok? {
      var n := |blocks| - 1;
      SchematicsRead(blocks[..n]);
      var kl := Schematics(blocks[..n]).value;
      var item := Item(blocks[n]).value;
      var keys, locks := Schematics(blocks).value.0, Schematics(blocks).value.1;
      if IsKey(blocks[n]) {
        assert keys == kl.0 + [item] && locks == kl.1;
      } else {
        assert keys == kl.0 && locks == kl.1 + [item];
      }
      forall b | 0 <= b < |blocks|
        ensures Item(blocks[b]).Ok?
        ensures IsKey(blocks[b]) ==> Item(blocks[b]).value in keys
        ensures !IsKey(blocks[b]) ==> Item(blocks[b]).value in locks
      {
        if b < n {
          assert blocks[..n][b] == blocks[b];
        }
      }
    }
  }

  /** `parse_input`. */
  method ParseInput(puzzle: string) returns (r: Result<(seq<Heights>, seq<Heights>), Failure>)
    ensures r == Schematics(SplitOn(puzzle, "\n\n"))
  {
    var blocks := SplitOn(puzzle, "\n\n");
    var keys: seq<Heights> := [];
    var locks: seq<Heights> := [];
    for b := 0 to |blocks|
      invariant Schematics(blocks[..b]) == Ok((keys, locks))
    {
      assert blocks[..b + 1][..b] == blocks[..b];
      var item := Item(blocks[b]);
      if item.Err? {
        SchematicsFail(blocks, b + 1, item.error);
        return Err(item.error);
      }
      if IsKey(blocks[b]) {
        keys := keys + [item.value];
      } else {
        locks := locks + [item.value];
      }
    }
    assert blocks[..|blocks|] == blocks;
    return Ok((keys, locks));
  }

  /** Once a block fails, reading fails whatever follows. */
  lemma {:induction false} SchematicsFail(blocks: seq<string>, k: nat, e: Failure)
    requires 0 < k <= |blocks| && Schematics(blocks[..k]) == Err(e)
    ensures Schematics(blocks) == Err(e)
    decreases |blocks| - k
  {
    if k < |blocks| {
      assert blocks[..k + 1][..k] == blocks[..k];
      SchematicsFail(blocks, k + 1, e);
    } else {
      assert blocks[..k] == blocks;
    }
  }

  // ---------------------------------------------------------------------------------------------
  // fits

  /**
   * The loop of `fits(lock, key)` from column i: the first column whose heights add up to more than
   * five answers False; `key[i]` past the key's end is an IndexError.
   */
  function Check(lock: Heights, key: Heights, i: nat): Result<bool, Failure>
    requires i <= |lock|
    decreases |lock| - i
  {
    if i == |lock| then Ok(true)
    else if i >= |key| then Err(IndexError)
    else if lock[i] + key[i] > 5 then Ok(false)
    else Check(lock, key, i + 1)
  }

  /** Every column of the lock has room for the key's pin. */
  predicate Fit(lock: Heights, key: Heights)
    requires |lock| <= |key|
  {
    forall i :: 0 <= i < |lock| ==> lock[i] + key[i] <= 5
  }

  /**
   * A key at least as wide as the lock fits exactly when every column sum is at most five; a
   * narrower key is an IndexError unless some column before its end already fails.
   */
  lemma {:induction false} CheckFit(lock: Heights, key: Heights, i: nat)
    requires i <= |lock|
    ensures |lock| <= |key| ==> Check(lock, key, i) == Ok(forall j :: i <= j < |lock| ==> lock[j] + key[j] <= 5)
    ensures Check(lock, key, i).Err? <==>
      i < |lock| && |key| < |lock| && forall j :: i <= j < |key| ==> lock[j] + key[j] <= 5
    decreases |lock| - i
  {
    if i < |lock| && i < |key| && lock[i] + key[i] <= 5 {
      CheckFit(lock, key, i + 1);
    }
  }

  /** For schematics of the same width, `fits(lock, key) == fits(key, lock)`. */
  lemma FitsSymmetric(lock: Heights, key: Heights)
    requires |lock| == |key|
    ensures Check(lock, key, 0) == Check(key, lock, 0)
    ensures Check(lock, key, 0) == Ok(Fit(lock, key))
  {
    CheckFit(lock, key, 0);
    CheckFit(key, lock, 0);
  }

  /** `fits`. */
  method Fits(lock: Heights, key: Heights) returns (r: Result<bool, Failure>)
    ensures r == Check(lock, key, 0)
  {
    for i := 0 to |lock|
      invariant Check(lock, key, 0) == Check(lock, key, i)
    {
      if i >= |key| {
        return Err(IndexError);
      }
      if lock[i] + key[i] > 5 {
        return Ok(false);
      }
    }
    return Ok(true);
  }

  // ---------------------------------------------------------------------------------------------
  // part_1

  /** `product(keys, locks)`: every key with every lock, the key changing slowest. */
  function Product(keys: seq<Heights>, locks: seq<Heights>): (r: seq<(Heights, Heights)>)
    ensures |r| == |keys| * |locks|
  {
    if keys == [] then []
    else seq(|locks|, j requires 0 <= j < |locks| => (keys[0], locks[j])) + Product(keys[1..], locks)
  }

  /** Pair number `k * |locks| + l` of the product is key k with lock l. */
  lemma {:induction false} ProductAt(keys: seq<Heights>, locks: seq<Heights>, k: nat, l: nat)
    requires k < |keys| && l < |locks|
    ensures k * |locks| + l < |Product(keys, locks)|
    ensures Product(keys, locks)[k * |locks| + l] == (keys[k], locks[l])
  {
    var row := seq(|locks|, j requires 0 <= j < |locks| => (keys[0], locks[j]));
    assert Product(keys, locks) == row + Product(keys[1..], locks);
    if k > 0 {
      ProductAt(keys[1..], locks, k - 1, l);
      assert k * |locks| + l == |row| + ((k - 1) * |locks| + l);
    }
  }

  /** The count of `part_1` over the pairs, stopping at the first `fits` that fails. */
  function Tally(pairs: seq<(Heights, Heights)>): (r: Result<nat, Failure>)
    ensures r.Ok? ==> r.value <= |pairs|
  {
    if pairs == [] then Ok(0)
    else
      var n := |pairs| - 1;
      match Tally(pairs[..n])
      case Err(e) => Err(e)
      case Ok(count) =>
        match Check(pairs[n].1, pairs[n].0, 0)
        case Err(e) => Err(e)
        case Ok(fit) => Ok(count + Indicator(fit))
  }

  /** When every lock is as wide as every key, the count is the number of pairs that fit. */
  lemma {:induction false} TallyCounts(pairs: seq<(Heights, Heights)>)
    requires forall p :: 0 <= p < |pairs| ==> |pairs[p].1| == |pairs[p].0|
    ensures Tally(pairs) == Ok(|set p | 0 <= p < |pairs| && Fit(pairs[p].1, pairs[p].0)|)
  {
    if pairs != [] {
      var n := |pairs| - 1;
      TallyCounts(pairs[..n]);
      FitsSymmetric(pairs[n].1, pairs[n].0);
      var before := set p | 0 <= p < n && Fit(pairs[..n][p].1, pairs[..n][p].0);
      var after := set p | 0 <= p < |pairs| && Fit(pairs[p].1, pairs[p].0);
      assert forall p :: 0 <= p < n ==> pairs[..n][p] == pairs[p];
      if Fit(pairs[n].1, pairs[n].0) {
        assert after == before + {n};
      } else {
        assert after == before;
      }
    }
  }

  /** `part_1` on its text. */
  function Answer(puzzle: string): Result<nat, Failure> {
    match Schematics(SplitOn(puzzle, "\n\n"))
    case Err(e) => Err(e)
    case Ok(kl) => Tally(Product(kl.0, kl.1))
  }

  /** `part_1`. */
  method Part1(puzzle: string) returns (r: Result<nat, Failure>)
    ensures r == Answer(puzzle)
  {
    var parsed := ParseInput(puzzle);
    if parsed.Err? {
      return Err(parsed.error);
    }
    var (keys, locks) := parsed.value;
    r := Count(Product(keys, locks));
  }

  /** The loop of `part_1` over `product(keys, locks)`. */
  method Count(pairs: seq<(Heights, Heights)>) returns (r: Result<nat, Failure>)
    ensures r == Tally(pairs)
  {
    var count := 0;
    for p := 0 to |pairs|
      invariant Tally(pairs[..p]) == Ok(count)
    {
      assert pairs[..p + 1][..p] == pairs[..p];
      var fit := Fits(pairs[p].1, pairs[p].0);
      if fit.Err? {
        TallyFail(pairs, p + 1, fit.error);
        return Err(fit.error);
      }
      if fit.value {
        count := count + 1;
      }
    }
    assert pairs[..|pairs|] == pairs;
    return Ok(count);
  }

  /** Once a pair fails, the count fails whatever follows. */
  lemma {:induction false} TallyFail(pairs: seq<(Heights, Heights)>, k: nat, e: Failure)
    requires 0 < k <= |pairs| && Tally(pairs[..k]) == Err(e)
    ensures Tally(pairs) == Err(e)
    decreases |pairs| - k
  {
    if k < |pairs| {
      assert pairs[..k + 1][..k] == pairs[..k];
      TallyFail(pairs, k + 1, e);
    } else {
      assert pairs[..k] == pairs;
    }
  }

  /** The key schematic of the parse test, line by line, reads as the heights 0, 5, 3, 4, 3. */
  lemma ExampleKey()
    ensures Rectangular(["#####", ".####", ".####", ".####", ".#.#.", ".#...", "....."])
    ensures Columns(["#####", ".####", ".####", ".####", ".#.#.", ".#...", "....."]) == [0, 5, 3, 4, 3]
  {
    var ls := ["#####", ".####", ".####", ".####", ".#.#.", ".#...", "....."];
    forall c | 0 <= c < 5
      ensures Filled(ls, c, 7) == [1, 6, 4, 5, 4][c]
    {
      ExampleKeyColumn(c);
    }
  }

  /** Column c of the key schematic has 1, 6, 4, 5, 4 '#' cells. */
  lemma ExampleKeyColumn(c: nat)
    requires c < 5
    ensures Filled(["#####", ".####", ".####", ".####", ".#.#.", ".#...", "....."], c, 7) == [1, 6, 4, 5, 4][c]
  {
    var ls := ["#####", ".####", ".####", ".####", ".#.#.", ".#...", "....."];
    if c == 0 {
      assert Filled(ls, 0, 7) == 1;
    } else if c == 1 {
      assert Filled(ls, 1, 7) == 6;
    } else if c == 2 {
      assert Filled(ls, 2, 7) == 4;
    } else if c == 3 {
      assert Filled(ls, 3, 7) == 5;
    } else {
      assert Filled(ls, 4, 7) == 4;
    }
  }

  /** The lock schematic of the parse test, line by line, reads as the heights 5, 0, 2, 1, 3. */
  lemma ExampleLock()
    ensures Rectangular([".....", "#....", "#....", "#...#", "#.#.#", "#.###", "#####"])
    ensures Columns([".....", "#....", "#....", "#...#", "#.#.#", "#.###", "#####"]) == [5, 0, 2, 1, 3]
  {
    var ls := [".....", "#....", "#....", "#...#", "#.#.#", "#.###", "#####"];
    forall c | 0 <= c < 5
      ensures Filled(ls, c, 7) == [6, 1, 3, 2, 4][c]
    {
      ExampleLockColumn(c);
    }
  }

  /** Column c of the lock schematic has 6, 1, 3, 2, 4 '#' cells. */
  lemma ExampleLockColumn(c: nat)
    requires c < 5
    ensures Filled([".....", "#....", "#....", "#...#", "#.#.#", "#.###", "#####"], c, 7) == [6, 1, 3, 2, 4][c]
  {
    var ls := [".....", "#....", "#....", "#...#", "#.#.#", "#.###", "#####"];
    if c == 0 {
      assert Filled(ls, 0, 7) == 6;
    } else if c == 1 {
      assert Filled(ls, 1, 7) == 1;
    } else if c == 2 {
      assert Filled(ls, 2, 7) == 3;
    } else if c == 3 {
      assert Filled(ls, 3, 7) == 2;
    } else {
      assert Filled(ls, 4, 7) == 4;
    }
  }

  /** Of the example's two keys and three locks, key 0 fits lock 2 and key 1 fits locks 1 and 2. */
  lemma ExampleFits(k: nat, l: nat)
    requires k < 2 && l < 3
    ensures Fit([[5, 0, 2, 1, 3], [4, 3, 4, 0, 2], [3, 0, 2, 0, 1]][l], [[0, 5, 3, 4, 3], [1, 2, 0, 5, 3]][k])
      <==> k * 3 + l in {2, 4, 5}
  {
    var keys: seq<Heights> := [[0, 5, 3, 4, 3], [1, 2, 0, 5, 3]];
    var locks: seq<Heights> := [[5, 0, 2, 1, 3], [4, 3, 4, 0, 2], [3, 0, 2, 0, 1]];
    if k * 3 + l !in {2, 4, 5} {
      var bad := if k == 0 && l == 0 then 4 else if k == 0 then 1 else 0;
      assert locks[l][bad] + keys[k][bad] > 5;
    }
  }

  /** So three of the six pairs fit. */
  lemma ExampleCount()
    ensures Tally(Product([[0, 5, 3, 4, 3], [1, 2, 0, 5, 3]], [[5, 0, 2, 1, 3], [4, 3, 4, 0, 2], [3, 0, 2, 0, 1]])) == Ok(3)
  {
    var pairs := Product([[0, 5, 3, 4, 3], [1, 2, 0, 5, 3]], [[5, 0, 2, 1, 3], [4, 3, 4, 0, 2], [3, 0, 2, 0, 1]]);
    ExamplePairs(pairs);
    TallyCounts(pairs);
    assert (set p | 0 <= p < |pairs| && Fit(pairs[p].1, pairs[p].0)) == {2, 4, 5};
  }

  /** The six pairs of the example's product are all five wide, and the fitting ones are 2, 4 and 5. */
  lemma ExamplePairs(pairs: seq<(Heights, Heights)>)
    requires pairs == Product([[0, 5, 3, 4, 3], [1, 2, 0, 5, 3]], [[5, 0, 2, 1, 3], [4, 3, 4, 0, 2], [3, 0, 2, 0, 1]])
    ensures |pairs| == 6
    ensures forall p :: 0 <= p < 6 ==> |pairs[p].0| == |pairs[p].1| == 5
    ensures forall p :: 0 <= p < 6 ==> (Fit(pairs[p].1, pairs[p].0) <==> p in {2, 4, 5})
  {
    var keys: seq<Heights> := [[0, 5, 3, 4, 3], [1, 2, 0, 5, 3]];
    var locks: seq<Heights> := [[5, 0, 2, 1, 3], [4, 3, 4, 0, 2], [3, 0, 2, 0, 1]];
    forall p | 0 <= p < 6
      ensures pairs[p] == (keys[p / 3], locks[p % 3])
      ensures Fit(pairs[p].1, pairs[p].0) <==> p in {2, 4, 5}
    {
      ProductAt(keys, locks, p / 3, p % 3);
      ExampleFits(p / 3, p % 3);
    }
  }
}
