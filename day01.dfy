/**
 * Two lists of location ids (src/day_01.py): each column is sorted on its own and the lists are
 * compared pairwise, smallest with smallest.
 */
module Day01 {
  import opened Common

  function Lefts(rows: seq<(int, int)>): (r: seq<int>)
    ensures |r| == |rows| && forall i :: 0 <= i < |rows| ==> r[i] == rows[i].0
  {
    if rows == [] then [] else Lefts(rows[..|rows| - 1]) + [rows[|rows| - 1].0]
  }

  function Rights(rows: seq<(int, int)>): (r: seq<int>)
    ensures |r| == |rows| && forall i :: 0 <= i < |rows| ==> r[i] == rows[i].1
  {
    if rows == [] then [] else Rights(rows[..|rows| - 1]) + [rows[|rows| - 1].1]
  }

  /** The total distance between two paired lists: the sum of |a[i] - b[i]|. */
  function Distance(a: seq<int>, b: seq<int>): int
    requires |a| == |b|
  {
    if a == [] then 0 else Distance(a[..|a| - 1], b[..|b| - 1]) + Abs(a[|a| - 1] - b[|b| - 1])
  }

  /** The answer of part_1 for the parsed columns. */
  function TotalDistance(rows: seq<(int, int)>): int {
    Distance(Sort(Lefts(rows)), Sort(Rights(rows)))
  }

  lemma {:induction false} DistanceNonNegative(a: seq<int>, b: seq<int>)
    requires |a| == |b|
    ensures Distance(a, b) >= 0
    decreases |a|
  {
    if a != [] {
      DistanceNonNegative(a[..|a| - 1], b[..|b| - 1]);
    }
  }

  /** The total is never negative. */
  lemma TotalDistanceNonNegative(rows: seq<(int, int)>)
    ensures TotalDistance(rows) >= 0
  {
    DistanceNonNegative(Sort(Lefts(rows)), Sort(Rights(rows)));
  }

  /** Reordering either column (so in particular reordering the lines) does not change the total. */
  lemma OrderIndependent(rows: seq<(int, int)>, rows': seq<(int, int)>)
    requires multiset(Lefts(rows)) == multiset(Lefts(rows'))
    requires multiset(Rights(rows)) == multiset(Rights(rows'))
    ensures TotalDistance(rows) == TotalDistance(rows')
  {
    SortDependsOnlyOnMultiset(Lefts(rows), Lefts(rows'));
    SortDependsOnlyOnMultiset(Rights(rows), Rights(rows'));
  }

  /**
   * part_1: collect both columns, sort each, then add max - min of each pair. Reading the numbers
   * out of the text is not modelled; `rows` holds the first and last number of each line.
   */
  method Part1(rows: seq<(int, int)>) returns (total: int)
    ensures total == TotalDistance(rows)
    ensures total >= 0
  {
    var left: seq<int> := [];
    var right: seq<int> := [];
    for i := 0 to |rows|
      invariant left == Lefts(rows[..i]) && right == Rights(rows[..i])
    {
      assert rows[..i + 1][..i] == rows[..i];
      left := left + [rows[i].0];
      right := right + [rows[i].1];
    }
    assert rows[..|rows|] == rows;
    left := Sort(left);
    right := Sort(right);
    total := PairwiseDistance(left, right);
    TotalDistanceNonNegative(rows);
  }

  /** The summing loop of part_1: max - min of each pair, which is the absolute difference. */
  method PairwiseDistance(left: seq<int>, right: seq<int>) returns (total: int)
    requires |left| == |right|
    ensures total == Distance(left, right)
  {
    total := 0;
    for i := 0 to |left|
      invariant total == Distance(left[..i], right[..i])
    {
      assert left[..i + 1][..i] == left[..i] && right[..i + 1][..i] == right[..i];
      total := total + Max(left[i], right[i]) - Min(left[i], right[i]);
    }
    assert left[..|left|] == left && right[..|right|] == right;
  }

  /** The example of the puzzle: the lists 3 4 2 1 3 3 and 4 3 5 3 9 3 are 11 apart. */
  lemma Example()
    ensures TotalDistance([(3, 4), (4, 3), (2, 5), (1, 3), (3, 9), (3, 3)]) == 11
  {
    var rows := [(3, 4), (4, 3), (2, 5), (1, 3), (3, 9), (3, 3)];
    assert Lefts(rows) == [3, 4, 2, 1, 3, 3];
    assert Rights(rows) == [4, 3, 5, 3, 9, 3];
    ExampleLeftSorted();
    ExampleRightSorted();
    ExampleDistance();
  }

  lemma ExampleLeftSorted()
    ensures Sort([3, 4, 2, 1, 3, 3]) == [1, 2, 3, 3, 3, 4]
  {
    ExampleLeftSame();
    SortIs([3, 4, 2, 1, 3, 3], [1, 2, 3, 3, 3, 4]);
  }

  lemma ExampleRightSorted()
    ensures Sort([4, 3, 5, 3, 9, 3]) == [3, 3, 3, 4, 5, 9]
  {
    ExampleRightSame();
    SortIs([4, 3, 5, 3, 9, 3], [3, 3, 3, 4, 5, 9]);
  }

  /** The left column and its ascending arrangement hold the same ids. */
  lemma ExampleLeftSame()
    ensures multiset([3, 4, 2, 1, 3, 3]) == multiset([1, 2, 3, 3, 3, 4])
  {
  }

  /** The right column and its ascending arrangement hold the same ids. */
  lemma ExampleRightSame()
    ensures multiset([4, 3, 5, 3, 9, 3]) == multiset([3, 3, 3, 4, 5, 9])
  {
  }

  lemma ExampleDistance()
    ensures Distance([1, 2, 3, 3, 3, 4], [3, 3, 3, 4, 5, 9]) == 11
  {
    var a, b := [1, 2, 3, 3, 3, 4], [3, 3, 3, 4, 5, 9];
    assert Distance(a[..1], b[..1]) == 2;
    assert Distance(a[..2], b[..2]) == 3 by { assert a[..2][..1] == a[..1] && b[..2][..1] == b[..1]; }
    assert Distance(a[..3], b[..3]) == 3 by { assert a[..3][..2] == a[..2] && b[..3][..2] == b[..2]; }
    assert Distance(a[..4], b[..4]) == 4 by { assert a[..4][..3] == a[..3] && b[..4][..3] == b[..3]; }
    assert Distance(a[..5], b[..5]) == 6 by { assert a[..5][..4] == a[..4] && b[..5][..4] == b[..4]; }
    assert a[..6] == a && b[..6] == b;
  }
}
