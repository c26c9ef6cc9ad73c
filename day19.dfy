/**
 * Linen layout (src/day_19.py): `solve_pattern` decides, with a memoised recursion, whether a
 * pattern of stripes can be laid out from the available towels; `part_1` counts the patterns that can.
 */
module Day19 {
  import opened Common

  /** The exception `parse_input` raises when the input is not two sections. */
  datatype Failure = ValueError

  /** `pattern.startswith(towel)`, character by character. */
  predicate StartsWith(pattern: string, towel: string)
    ensures StartsWith(pattern, towel) ==> |towel| <= |pattern|
  {
    towel == [] || (pattern != [] && pattern[0] == towel[0] && StartsWith(pattern[1..], towel[1..]))
  }

  /** The pattern starts with the towel exactly when its first |towel| stripes are the towel. */
  lemma {:induction false} StartsWithPrefix(pattern: string, towel: string)
    ensures StartsWith(pattern, towel) <==> |towel| <= |pattern| && pattern[..|towel|] == towel
  {
    if towel != [] && pattern != [] {
      StartsWithPrefix(pattern[1..], towel[1..]);
      if |towel| <= |pattern| {
        assert pattern[..|towel|] == [pattern[0]] + pattern[1..][..|towel| - 1];
        assert towel == [towel[0]] + towel[1..];
      }
    }
  }

  /** The loop body's test for one towel: it starts the pattern and covers it, or the rest is solvable. */
  predicate Fits(towels: set<string>, pattern: string, towel: string)
    decreases |pattern|, 0
  {
    towel != [] && StartsWith(pattern, towel)
    && (|towel| == |pattern| || Solvable(towels, pattern[|towel|..]))
  }

  /** `solve(pattern)`: some towel fits. */
  predicate Solvable(towels: set<string>, pattern: string)
    decreases |pattern|, 1
  {
    exists towel :: towel in towels && Fits(towels, pattern, towel)
  }

  /** The towels laid one after the other. */
  function Concat(ts: seq<string>): string {
    if ts == [] then [] else ts[0] + Concat(ts[1..])
  }

  /** A layout: one or more available towels whose stripes, in order, make the pattern. */
  ghost predicate Layout(towels: set<string>, ts: seq<string>, pattern: string) {
    |ts| >= 1 && (forall i :: 0 <= i < |ts| ==> ts[i] in towels) && Concat(ts) == pattern
  }

  /**
   * A pattern is solvable exactly when some layout makes it (towels are never empty: an empty towel
   * would make `solve` call itself on the same pattern forever).
   */
  lemma {:induction false} SolvableIff(towels: set<string>, pattern: string)
    requires "" !in towels
    ensures Solvable(towels, pattern) <==> exists ts :: Layout(towels, ts, pattern)
    decreases |pattern|
  {
    if Solvable(towels, pattern) {
      var towel :| towel in towels && Fits(towels, pattern, towel);
      StartsWithPrefix(pattern, towel);
      if |towel| == |pattern| {
        assert Concat([towel][1..]) == [];
        assert Layout(towels, [towel], pattern);
      } else {
        var rest := pattern[|towel|..];
        SolvableIff(towels, rest);
        var ts :| Layout(towels, ts, rest);
        assert ([towel] + ts)[1..] == ts;
        assert pattern == towel + rest;
        assert Layout(towels, [towel] + ts, pattern);
      }
    }
    if exists ts :: Layout(towels, ts, pattern) {
      var ts :| Layout(towels, ts, pattern);
      var towel := ts[0];
      assert pattern == towel + Concat(ts[1..]);
      assert pattern[..|towel|] == towel;
      StartsWithPrefix(pattern, towel);
      if |ts| > 1 {
        var rest := pattern[|towel|..];
        assert rest == Concat(ts[1..]);
        assert Layout(towels, ts[1..], rest);
        ConcatNonEmpty(towels, ts[1..]);
        SolvableIff(towels, rest);
        assert Fits(towels, pattern, towel);
      } else {
        assert Concat(ts[1..]) == [];
        assert Fits(towels, pattern, towel);
      }
    }
  }

  /** A layout of non-empty towels is non-empty. */
  lemma ConcatNonEmpty(towels: set<string>, ts: seq<string>)
    requires "" !in towels && |ts| >= 1 && forall i :: 0 <= i < |ts| ==> ts[i] in towels
    ensures |Concat(ts)| >= |ts[0]| > 0
  {
  }

  /** A pattern that is one whole towel is solvable. */
  lemma SingleTowel(towels: set<string>, towel: string)
    requires towel in towels && towel != ""
    ensures Solvable(towels, towel)
  {
    assert towel[..|towel|] == towel;
    StartsWithPrefix(towel, towel);
    assert Fits(towels, towel, towel);
  }

  /** The empty pattern is never solvable. */
  lemma EmptyRejected(towels: set<string>)
    ensures !Solvable(towels, "")
  {
  }

  // ---------------------------------------------------------------------------------------------
  // The memoised recursion

  /** functools.cache's table: every stored answer is the true one. */
  ghost predicate Sound(towels: set<string>, cache: map<string, bool>) {
    forall p :: p in cache ==> cache[p] == Solvable(towels, p)
  }

  /**
   * `solve` with its cache: a stored answer is returned at once; otherwise each towel is tried in
   * turn and the answer is stored. The result is `Solvable`, and the cache stays sound, so
   * memoisation does not change the answer.
   */
  method Solve(towels: set<string>, pattern: string, cache: map<string, bool>) returns (r: bool, cache': map<string, bool>)
    requires "" !in towels && Sound(towels, cache)
    ensures r == Solvable(towels, pattern)
    ensures Sound(towels, cache') && pattern in cache'
    decreases |pattern|
  {
    if pattern in cache {
      return cache[pattern], cache;
    }
    cache' := cache;
    var left := towels;
    while left != {}
      invariant left <= towels && Sound(towels, cache')
      invariant forall t :: t in towels && t !in left ==> !Fits(towels, pattern, t)
      decreases |left|
    {
      var towel :| towel in left;
      left := left - {towel};
      if StartsWith(pattern, towel) {
        if |towel| == |pattern| {
          assert Fits(towels, pattern, towel);
          return true, cache'[pattern := true];
        }
        var sub;
        sub, cache' := Solve(towels, pattern[|towel|..], cache');
        if sub {
          assert Fits(towels, pattern, towel);
          return true, cache'[pattern := true];
        }
      }
    }
    return false, cache'[pattern := false];
  }

  /** `solve_pattern`: a fresh cache for each pattern. */
  method SolvePattern(towels: set<string>, pattern: string) returns (r: bool)
    requires "" !in towels
    ensures r == Solvable(towels, pattern)
  {
    var cache;
    r, cache := Solve(towels, pattern, map[]);
  }

  // ---------------------------------------------------------------------------------------------
  // parse_input and part_1

  /** `set(...)` of a list of towels. */
  function TowelSet(all: seq<string>): (r: set<string>)
    ensures forall t :: t in r <==> t in all
  {
    set t | t in all
  }

  /** `parse_input`: the towels of the first section, split on ", ", and the patterns, one per line. */
  function Parse(puzzle: string): Result<(set<string>, seq<string>), Failure> {
    var parts := Sections(puzzle);
    if |parts| != 2 then Err(ValueError)
    else
      var names := SplitOn(parts[0], ", ");
      Ok((TowelSet(names), Split(parts[1])))
  }

  /** The number of solvable patterns. */
  function Count(towels: set<string>, patterns: seq<string>): (n: nat)
    ensures n <= |patterns|
  {
    if patterns == [] then 0
    else
      var k := |patterns| - 1;
      Count(towels, patterns[..k]) + Indicator(Solvable(towels, patterns[k]))
  }

  /** Only solvable patterns count: with no solvable pattern the count is 0, with all of them it is their number. */
  lemma {:induction false} CountBounds(towels: set<string>, patterns: seq<string>)
    ensures (forall i :: 0 <= i < |patterns| ==> !Solvable(towels, patterns[i])) ==> Count(towels, patterns) == 0
    ensures (forall i :: 0 <= i < |patterns| ==> Solvable(towels, patterns[i])) ==> Count(towels, patterns) == |patterns|
  {
    if patterns != [] {
      var k := |patterns| - 1;
      assert forall i :: 0 <= i < k ==> patterns[..k][i] == patterns[i];
      CountBounds(towels, patterns[..k]);
    }
  }

  /** `part_1`: the number of patterns `solve_pattern` accepts. */
  method Part1(puzzle: string) returns (r: Result<nat, Failure>)
    requires Parse(puzzle).Ok? ==> "" !in Parse(puzzle).value.0
    ensures r == match Parse(puzzle) case Err(e) => Err(e) case Ok((towels, patterns)) => Ok(Count(towels, patterns))
  {
    var parsed := Parse(puzzle);
    if parsed.Err? {
      return Err(parsed.error);
    }
    var (towels, patterns) := parsed.value;
    var total := 0;
    for i := 0 to |patterns|
      invariant total == Count(towels, patterns[..i])
    {
      assert patterns[..i + 1][..i] == patterns[..i];
      var ok := SolvePattern(towels, patterns[i]);
      if ok {
        total := total + 1;
      }
    }
    assert patterns[..|patterns|] == patterns;
    return Ok(total);
  }

  /** The example's towels, as listed. */
  const ExampleTowelList: seq<string> := ["r", "wr", "b", "g", "bwu", "rb", "gb", "br"]

  /** The example's towels. */
  const ExampleTowels: set<string> := TowelSet(ExampleTowelList)

  /** The example's patterns. */
  const ExamplePatterns: seq<string> := ["brwrr", "bggr", "gbbr", "rrbgbr", "ubwu", "bwurrg", "brgr", "bbrgwb"]

  // ---------------------------------------------------------------------------------------------
  // A reference decision procedure over a list of towels, by index

  /** towel[j..] occurs in the pattern at index i + j. */
  predicate StartsAt(pattern: string, i: nat, towel: string, j: nat)
    decreases |towel| - j
  {
    j >= |towel| || (i + j < |pattern| && pattern[i + j] == towel[j] && StartsAt(pattern, i, towel, j + 1))
  }

  /** The towels of `all` from index k on: some fits the pattern's suffix from i. */
  predicate SomeFits(all: seq<string>, pattern: string, i: nat, k: nat)
    requires i <= |pattern|
    decreases |pattern| - i, 0, |all| - k
  {
    k < |all|
    && ((all[k] != [] && StartsAt(pattern, i, all[k], 0) && i + |all[k]| <= |pattern|
         && (i + |all[k]| == |pattern| || Decide(all, pattern, i + |all[k]|)))
        || SomeFits(all, pattern, i, k + 1))
  }

  /** The pattern's suffix from i can be laid from the towels of `all`. */
  predicate Decide(all: seq<string>, pattern: string, i: nat)
    requires i <= |pattern|
    decreases |pattern| - i, 1
  {
    SomeFits(all, pattern, i, 0)
  }

  /** `StartsAt` from 0 is `startswith` on the suffix. */
  lemma {:induction false} StartsAtWith(pattern: string, i: nat, towel: string, j: nat)
    requires i + j <= |pattern| && j <= |towel|
    ensures StartsAt(pattern, i, towel, j) <==> i + |towel| <= |pattern| && pattern[i + j..i + |towel|] == towel[j..]
    decreases |towel| - j
  {
    if j < |towel| && i + j < |pattern| {
      StartsAtWith(pattern, i, towel, j + 1);
      if i + |towel| <= |pattern| {
        assert pattern[i + j..i + |towel|] == [pattern[i + j]] + pattern[i + j + 1..i + |towel|];
        assert towel[j..] == [towel[j]] + towel[j + 1..];
      }
    }
  }

  lemma StartsAtSuffix(pattern: string, i: nat, towel: string)
    requires i <= |pattern|
    ensures StartsAt(pattern, i, towel, 0) <==> StartsWith(pattern[i..], towel)
  {
    StartsAtWith(pattern, i, towel, 0);
    StartsWithPrefix(pattern[i..], towel);
    if i + |towel| <= |pattern| {
      assert pattern[i..][..|towel|] == pattern[i..i + |towel|];
    }
  }

  /** The reference procedure agrees with `solve` on every suffix. */
  lemma {:induction false} DecideSolvable(all: seq<string>, pattern: string, i: nat)
    requires i <= |pattern|
    ensures Decide(all, pattern, i) <==> Solvable(TowelSet(all), pattern[i..])
    decreases |pattern| - i, 1
  {
    SomeFitsIff(all, pattern, i, 0);
  }

  lemma {:induction false} SomeFitsIff(all: seq<string>, pattern: string, i: nat, k: nat)
    requires i <= |pattern|
    ensures SomeFits(all, pattern, i, k) <==> exists m :: k <= m < |all| && Fits(TowelSet(all), pattern[i..], all[m])
    decreases |pattern| - i, 0, |all| - k
  {
    var towels := TowelSet(all);
    if k < |all| {
      var t := all[k];
      StartsAtSuffix(pattern, i, t);
      if t != [] && i + |t| < |pattern| {
        DecideSolvable(all, pattern, i + |t|);
        assert pattern[i..][|t|..] == pattern[i + |t|..];
      }
      assert Fits(towels, pattern[i..], t) <==>
        t != [] && StartsAt(pattern, i, t, 0) && i + |t| <= |pattern| && (i + |t| == |pattern| || Decide(all, pattern, i + |t|));
      SomeFitsIff(all, pattern, i, k + 1);
    }
  }

  /** Whether an example design can be laid, by the reference procedure. */
  lemma ExampleDecide(pattern: string)
    ensures Solvable(ExampleTowels, pattern) <==> Decide(ExampleTowelList, pattern, 0)
  {
    DecideSolvable(ExampleTowelList, pattern, 0);
    assert pattern[0..] == pattern;
  }

  /** The example's designs that can be laid, each decided split by split from its end. */
  lemma ExampleBrwrr()
    ensures Decide(ExampleTowelList, "brwrr", 0)
  {
    assert Decide(ExampleTowelList, "brwrr", 4);
    assert Decide(ExampleTowelList, "brwrr", 2);
  }

  lemma ExampleBggr()
    ensures Decide(ExampleTowelList, "bggr", 0)
  {
    assert Decide(ExampleTowelList, "bggr", 3);
    assert Decide(ExampleTowelList, "bggr", 2);
    assert Decide(ExampleTowelList, "bggr", 1);
  }

  lemma ExampleGbbr()
    ensures Decide(ExampleTowelList, "gbbr", 0)
  {
    assert Decide(ExampleTowelList, "gbbr", 2);
  }

  lemma ExampleRrbgbr()
    ensures Decide(ExampleTowelList, "rrbgbr", 0)
  {
    assert Decide(ExampleTowelList, "rrbgbr", 4);
    assert Decide(ExampleTowelList, "rrbgbr", 3);
    assert Decide(ExampleTowelList, "rrbgbr", 1);
  }

  lemma ExampleBwurrg()
    ensures Decide(ExampleTowelList, "bwurrg", 0)
  {
    assert Decide(ExampleTowelList, "bwurrg", 5);
    assert Decide(ExampleTowelList, "bwurrg", 4);
    assert Decide(ExampleTowelList, "bwurrg", 3);
  }

  lemma ExampleBrgr()
    ensures Decide(ExampleTowelList, "brgr", 0)
  {
    assert Decide(ExampleTowelList, "brgr", 3);
    assert Decide(ExampleTowelList, "brgr", 2);
  }

  /** No example towel starts "ubwu". */
  lemma ExampleUbwu()
    ensures !Decide(ExampleTowelList, "ubwu", 0)
  {
  }

  /** "bbrgwb" fails at every split: its tail "wb" starts no towel. */
  lemma ExampleBbrgwb()
    ensures !Decide(ExampleTowelList, "bbrgwb", 0)
  {
    assert !Decide(ExampleTowelList, "bbrgwb", 4);
    assert !Decide(ExampleTowelList, "bbrgwb", 3);
    assert !Decide(ExampleTowelList, "bbrgwb", 2);
    assert !Decide(ExampleTowelList, "bbrgwb", 1);
  }

  /** The number of true flags among the first n. */
  function Trues(flags: seq<bool>, n: nat): nat
    requires n <= |flags|
  {
    if n == 0 then 0 else Trues(flags, n - 1) + Indicator(flags[n - 1])
  }

  /** Knowing which patterns are solvable gives the count. */
  lemma {:induction false} CountFlags(towels: set<string>, patterns: seq<string>, flags: seq<bool>, n: nat)
    requires n <= |patterns| == |flags| && forall k :: 0 <= k < n ==> (Solvable(towels, patterns[k]) <==> flags[k])
    ensures Count(towels, patterns[..n]) == Trues(flags, n)
  {
    if n > 0 {
      CountFlags(towels, patterns, flags, n - 1);
      assert patterns[..n][..n - 1] == patterns[..n - 1];
    }
  }

  /** Which of the example's designs can be laid. */
  const ExampleFlags: seq<bool> := [true, true, true, true, false, true, true, false]

  lemma ExampleDesign(k: nat)
    requires k < |ExamplePatterns|
    ensures Solvable(ExampleTowels, ExamplePatterns[k]) <==> ExampleFlags[k]
  {
    ExampleDecide(ExamplePatterns[k]);
    if k == 0 {
      ExampleBrwrr();
    } else if k == 1 {
      ExampleBggr();
    } else if k == 2 {
      ExampleGbbr();
    } else if k == 3 {
      ExampleRrbgbr();
    } else if k == 4 {
      ExampleUbwu();
    } else if k == 5 {
      ExampleBwurrg();
    } else if k == 6 {
      ExampleBrgr();
    } else {
      ExampleBbrgwb();
    }
  }

  /** The example: six of the eight designs can be laid; "ubwu" and "bbrgwb" cannot. */
  lemma ExamplePart1()
    ensures Count(ExampleTowels, ExamplePatterns) == 6
  {
    forall k | 0 <= k < |ExamplePatterns|
      ensures Solvable(ExampleTowels, ExamplePatterns[k]) <==> ExampleFlags[k]
    {
      ExampleDesign(k);
    }
    CountFlags(ExampleTowels, ExamplePatterns, ExampleFlags, 8);
    assert ExamplePatterns[..8] == ExamplePatterns;
  }
}
