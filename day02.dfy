/**
 * Reactor reports (src/day_02.py): a report is safe when its levels move in one direction by
 * steps of 1 to 3; the problem dampener also accepts a report that one deletion makes safe.
 */
module Day02 {
  import opened Common

  /** `(a < b) - (a > b)`: the direction of the step from a to b. */
  function Direction(a: int, b: int): int {
    (if a < b then 1 else 0) - (if a > b then 1 else 0)
  }

  /** A step of 1, 2 or 3 in either direction. */
  predicate GoodStep(a: int, b: int) {
    1 <= Abs(a - b) <= 3
  }

  /** The safety rule: every adjacent step is good and all steps point the same way. */
  predicate Safe(row: seq<int>) {
    (forall i :: 0 <= i < |row| - 1 ==> GoodStep(row[i], row[i + 1]))
    && (forall i :: 1 <= i < |row| - 1 ==> Direction(row[i], row[i + 1]) == Direction(row[0], row[1]))
  }

  /**
   * check_row: walks the adjacent pairs, remembering the direction of the previous step, and
   * stops at the first bad step or change of direction.
   */
  method CheckRow(row: seq<int>) returns (ok: bool)
    ensures ok <==> Safe(row)
  {
    var rowDir := 0;
    var i := 0;
    while i + 1 < |row|
      invariant row == [] ==> i == 0
      invariant row != [] ==> i < |row| && Safe(row[..i + 1])
      invariant rowDir == if i == 0 then 0 else Direction(row[0], row[1])
      decreases |row| - i
    {
      var a, b := row[i], row[i + 1];
      var direction := Direction(a, b);
      if Abs(a - b) !in {1, 2, 3} || rowDir !in {0, direction} {
        return false;
      }
      assert row[..i + 2][..i + 1] == row[..i + 1];
      rowDir := direction;
      i := i + 1;
    }
    assert row == [] || row[..i + 1] == row;
    return true;
  }

  /** Reports of no or one level have no step and are safe. */
  lemma ShortRowsSafe(row: seq<int>)
    requires |row| <= 1
    ensures Safe(row)
  {
  }

  /** Two equal neighbours make a report unsafe: a step of 0 is not 1, 2 or 3. */
  lemma EqualNeighboursUnsafe(row: seq<int>, i: int)
    requires 0 <= i < |row| - 1 && row[i] == row[i + 1]
    ensures !Safe(row)
  {
    BadStepUnsafe(row, i);
  }

  lemma BadStepUnsafe(row: seq<int>, i: int)
    requires 0 <= i < |row| - 1 && !GoodStep(row[i], row[i + 1])
    ensures !Safe(row)
  {
  }

  lemma TurnUnsafe(row: seq<int>, i: int)
    requires 1 <= i < |row| - 1 && Direction(row[i], row[i + 1]) != Direction(row[0], row[1])
    ensures !Safe(row)
  {
  }

  /** `row[:i] + row[i + 1:]`. */
  function Without(row: seq<int>, i: int): (r: seq<int>)
    requires 0 <= i < |row|
    ensures |r| == |row| - 1
    ensures forall j :: 0 <= j < |r| ==> r[j] == if j < i then row[j] else row[j + 1]
  {
    row[..i] + row[i + 1..]
  }

  /** The dampened rule of part_2: safe as is, or safe after deleting one level. */
  predicate Tolerated(row: seq<int>) {
    Safe(row) || exists i :: 0 <= i < |row| && Safe(Without(row, i))
  }

  /** part_1: the number of safe reports. */
  function SafeCount(rows: seq<seq<int>>): nat {
    if rows == [] then 0
    else SafeCount(rows[..|rows| - 1]) + Indicator(Safe(rows[|rows| - 1]))
  }

  /** part_2: the number of reports the dampener tolerates. */
  function ToleratedCount(rows: seq<seq<int>>): nat {
    if rows == [] then 0
    else ToleratedCount(rows[..|rows| - 1]) + Indicator(Tolerated(rows[|rows| - 1]))
  }

  /** Counting: part_1 counts exactly the indices of safe reports and never exceeds the total. */
  lemma {:induction false} SafeCountIsCount(rows: seq<seq<int>>)
    ensures SafeCount(rows) <= |rows|
    ensures SafeCount(rows) == |rows| <==> forall i :: 0 <= i < |rows| ==> Safe(rows[i])
    ensures SafeCount(rows) == 0 <==> forall i :: 0 <= i < |rows| ==> !Safe(rows[i])
  {
    if rows != [] {
      var init := rows[..|rows| - 1];
      SafeCountIsCount(init);
      assert forall i :: 0 <= i < |init| ==> init[i] == rows[i];
    }
  }

  /** Every safe report is tolerated, so part_2 is at least part_1 report by report. */
  lemma {:induction false} DampenerOnlyAdds(rows: seq<seq<int>>)
    ensures ToleratedCount(rows) >= SafeCount(rows)
    ensures ToleratedCount(rows) <= |rows|
  {
    if rows != [] {
      DampenerOnlyAdds(rows[..|rows| - 1]);
    }
  }

  /** The six example reports. */
  function ExampleRows(): seq<seq<int>> {
    [[7, 6, 4, 2, 1], [1, 2, 7, 8, 9], [9, 7, 6, 2, 1], [1, 3, 2, 4, 5], [8, 6, 4, 4, 1], [1, 3, 6, 7, 9]]
  }

  lemma ExampleSafe()
    ensures Safe([7, 6, 4, 2, 1]) && Safe([1, 3, 6, 7, 9])
  {
  }

  lemma ExampleUnsafe()
    ensures !Safe([1, 2, 7, 8, 9]) && !Safe([9, 7, 6, 2, 1])
    ensures !Safe([1, 3, 2, 4, 5]) && !Safe([8, 6, 4, 4, 1])
  {
    BadStepUnsafe([1, 2, 7, 8, 9], 1);
    BadStepUnsafe([9, 7, 6, 2, 1], 2);
    TurnUnsafe([1, 3, 2, 4, 5], 1);
    EqualNeighboursUnsafe([8, 6, 4, 4, 1], 2);
  }

  /** No single deletion repairs 1 2 7 8 9: the jump from 2 to 7 (or 2 to 8) stays. */
  lemma ExampleNotTolerated1()
    ensures !Tolerated([1, 2, 7, 8, 9])
  {
    var row := [1, 2, 7, 8, 9];
    ExampleUnsafe();
    forall i | 0 <= i < |row|
      ensures !Safe(Without(row, i))
    {
      var w := Without(row, i);
      if i <= 1 {
        BadStepUnsafe(w, 0);
      } else {
        BadStepUnsafe(w, 1);
      }
    }
  }

  /** No single deletion repairs 9 7 6 2 1: a drop of 4 or 5 stays. */
  lemma ExampleNotTolerated2()
    ensures !Tolerated([9, 7, 6, 2, 1])
  {
    var row := [9, 7, 6, 2, 1];
    ExampleUnsafe();
    forall i | 0 <= i < |row|
      ensures !Safe(Without(row, i))
    {
      var w := Without(row, i);
      if i <= 2 {
        BadStepUnsafe(w, 1);
      } else {
        BadStepUnsafe(w, 2);
      }
    }
  }

  lemma ExampleTolerated()
    ensures Tolerated([1, 3, 2, 4, 5]) && Tolerated([8, 6, 4, 4, 1])
  {
    assert Without([1, 3, 2, 4, 5], 1) == [1, 2, 4, 5];
    assert Safe(Without([1, 3, 2, 4, 5], 1));
    assert Without([8, 6, 4, 4, 1], 2) == [8, 6, 4, 1];
    assert Safe(Without([8, 6, 4, 4, 1], 2));
  }

  /** Both counts of six reports, written out report by report. */
  lemma CountSix(rows: seq<seq<int>>)
    requires |rows| == 6
    ensures SafeCount(rows) == Indicator(Safe(rows[0])) + Indicator(Safe(rows[1])) + Indicator(Safe(rows[2]))
      + Indicator(Safe(rows[3])) + Indicator(Safe(rows[4])) + Indicator(Safe(rows[5]))
    ensures ToleratedCount(rows) == Indicator(Tolerated(rows[0])) + Indicator(Tolerated(rows[1]))
      + Indicator(Tolerated(rows[2])) + Indicator(Tolerated(rows[3])) + Indicator(Tolerated(rows[4]))
      + Indicator(Tolerated(rows[5]))
  {
    assert rows[..1][..0] == [];
    assert SafeCount(rows[..1]) == SafeCount([]) + Indicator(Safe(rows[0]));
    assert ToleratedCount(rows[..1]) == ToleratedCount([]) + Indicator(Tolerated(rows[0]));
    assert rows[..2][..1] == rows[..1];
    assert SafeCount(rows[..2]) == SafeCount(rows[..1]) + Indicator(Safe(rows[1]));
    assert ToleratedCount(rows[..2]) == ToleratedCount(rows[..1]) + Indicator(Tolerated(rows[1]));
    assert rows[..3][..2] == rows[..2];
    assert SafeCount(rows[..3]) == SafeCount(rows[..2]) + Indicator(Safe(rows[2]));
    assert ToleratedCount(rows[..3]) == ToleratedCount(rows[..2]) + Indicator(Tolerated(rows[2]));
    assert rows[..4][..3] == rows[..3];
    assert SafeCount(rows[..4]) == SafeCount(rows[..3]) + Indicator(Safe(rows[3]));
    assert ToleratedCount(rows[..4]) == ToleratedCount(rows[..3]) + Indicator(Tolerated(rows[3]));
    assert rows[..5][..4] == rows[..4];
    assert SafeCount(rows[..5]) == SafeCount(rows[..4]) + Indicator(Safe(rows[4]));
    assert ToleratedCount(rows[..5]) == ToleratedCount(rows[..4]) + Indicator(Tolerated(rows[4]));
    assert rows[..6][..5] == rows[..5];
    assert SafeCount(rows[..6]) == SafeCount(rows[..5]) + Indicator(Safe(rows[5]));
    assert ToleratedCount(rows[..6]) == ToleratedCount(rows[..5]) + Indicator(Tolerated(rows[5]));
    assert rows[..6] == rows;
  }

  /** Two reports of the example are safe; the dampener tolerates four. */
  lemma Example()
    ensures SafeCount(ExampleRows()) == 2
    ensures ToleratedCount(ExampleRows()) == 4
  {
    ExampleSafe();
    ExampleUnsafe();
    ExampleTolerated();
    ExampleNotTolerated1();
    ExampleNotTolerated2();
    CountSix(ExampleRows());
  }
}
