# Advent of Code 2024 solutions, modelled and verified in Dafny

This project models the 25 daily puzzle solvers of the Advent of Code 2024 repository
(`src/day_01.py` … `src/day_25.py`) and proves what each of them computes. There is one Dafny
module per source file (`day01.dfy` … `day25.dfy`, modules `Day01` … `Day25`). Shared pieces live
in `common.dfy` (module `Common`), the Python built-ins the solvers lean on:
- `str.split`, `str.splitlines` and `split("\n\n")`;
- `int()` and `str()` on integers;
- `^` on integers;
- `list.sort()`.
Each built-in comes with round-trip lemmas.

The model keeps the source's own form:
- Loops that update variables are `method`s with loop invariants. Each is proved against a
  specification function, and the function's properties are proved as lemmas.
- Objects updated in place are classes:
  - the day 11 stone deque (`Day11.Line`);
  - the day 14 robots (`Day14.Robot`);
  - the day 15 warehouse (`Day15.Warehouse`);
  - the day 17 registers (`Day17.Registers`);
  - the day 21 `@cache` tables (`Day21.PathCache`).
- Pure helpers are functions.
- Exceptions the source raises become `Result` errors. Examples are KeyError, IndexError,
  ValueError, NoSolutionError and the day 6 LoopingError.

The larger proofs:
- **Day 16 (maze).** Every score the search reports is the cost of a legal walk from the start
  to the end.
- **Day 18 (falling bytes).** The breadth-first search returns the length of a shortest walk
  around the fallen bytes, or 0 when there is none.
- **Day 19 (towels).** The memoised `solve` decides whether the pattern is a concatenation of
  towels, and its cache stays sound.
- **Day 20 (race track).** The cheat histogram counts exactly the pairs of path cells at most 2
  apart that save steps.
- **Day 21 (keypads).** `find_paths` yields exactly the repeat-free move sequences between two
  keys, followed by "A". The cached costs equal the reference cost functions, and the cheapest
  path is a true minimum.
- **Day 22 (monkey market).** The bounded deque always holds the last four price changes, and
  the market sums each buyer's first sale price per window.
- **Day 24 (circuit).** Gates evaluated to completion hold their operator applied to their
  inputs. The z-wires are read in sorted order.

Behaviour of the source kept as written:
- day 4: one of the X-MAS patterns is spelled with a lower-case `s`. It can only match a grid
  that holds a lower-case `s`, so on upper-case input it adds nothing.
- day 16: the test `next_pos in visited` compares a cell with keys that are (cell, direction)
  pairs, so it never holds; the model omits it.
- day 23: the `checked` set is never filled, so its skip test never fires.
- day 25: blocks whose first line is `#` are called keys and the others locks, following the code.

## Model

| member | source | states |
|---|---|---|
| Common.Decimal | src/day_07.py:49 | `str(n)` of a natural is its decimal digits, most significant first, with no leading zero, worth n |
| Common.DigitsValueAppend | src/day_07.py:49 | two digit strings written one after the other are worth the first times 10 to the second's length plus the second |
| Common.DigitsValueBound | src/day_11.py:14-15 | a string of k digits is worth less than 10 ** k |
| Common.XorCommutes | src/day_22.py:8-9 | `^` on naturals is commutative |
| Common.XorSelf | src/day_22.py:8-9 | x ^ x is 0 |
| Common.Lines | src/day_01.py:8 | no line `str.splitlines` returns holds any of its line breaks: \n, \r, \v, \f, \x1c to \x1e, \x85, \u2028 or \u2029 |
| Common.LinesUnlines | src/day_01.py:8 | splitlines undoes joining with "\n" lines that hold none of those breaks |
| Common.CrLfIsOneBreak | src/day_21.py:95 | "\r\n" ends a single line: "029A\r\n980A" splits into "029A" and "980A" |
| Common.OtherBreaks | src/day_01.py:8 | a lone "\r" and a form feed each end a line, and a break right after a break leaves an empty line |
| Common.Split | src/day_20.py:13 | `str.split("\n")` gives at least one piece, none holding a break |
| Common.JoinSplit | src/day_20.py:13 | joining the pieces of a split with breaks gives the text back |
| Common.SplitJoin | src/day_20.py:13 | splitting a join of break-free pieces gives the pieces back |
| Common.Sections | src/day_24.py:13 | `str.split("\n\n")` gives at least one section |
| Common.SectionsJoin | src/day_24.py:13 | joining the sections with blank lines gives the text back |
| Common.SplitOn | src/day_25.py:13 | `str.split(sep)` gives at least one piece |
| Common.SplitOnJoin | src/day_25.py:13 | joining the pieces with the separator gives the text back |
| Common.SplitJoinOn | src/day_23.py:9 | splitting on a one-character separator undoes joining pieces that do not hold it |
| Common.IntOfDecimal | src/day_07.py:49 | `int(str(n))` is n, for either sign |
| Common.Str | src/day_07.py:49 | `str(n)` of an integer reads back as n under `int`, and starts with a minus sign exactly when n is negative |
| Common.IntOfDigits | src/day_11.py:17-19 | `int` of a non-empty run of digits is their value |
| Common.IntOfSigned | src/day_11.py:17 | `int` of a minus sign before digits is their value negated, and `int("-")` raises |
| Common.InsertSorted | src/day_01.py:13-14 | inserting into a sorted list keeps it sorted |
| Common.Sort | src/day_01.py:13-14 | `list.sort()` gives a sorted rearrangement of the same elements |
| Common.SortedUnique | src/day_01.py:13-14 | there is only one sorted arrangement of a multiset, so sorting forgets the input order |
| Common.SortIs | src/day_01.py:13-14 | sorting gives the one sorted arrangement of the same elements |
| Day01.Lefts | src/day_01.py:8-10 | the left column holds the first number of every line, in order |
| Day01.Rights | src/day_01.py:8-11 | the right column holds the last number of every line, in order |
| Day01.DistanceNonNegative | src/day_01.py:16-17 | each `max - min` term is non-negative, so the pairwise sum is too |
| Day01.TotalDistanceNonNegative | src/day_01.py:13-19 | the total distance is never negative |
| Day01.OrderIndependent | src/day_01.py:13-14 | because both columns are sorted first, permuting either column (or the lines) leaves the total unchanged |
| Day01.Part1 | src/day_01.py:5-19 | the sort-then-sum loop returns the distance between the sorted columns, and it is non-negative |
| Day01.PairwiseDistance | src/day_01.py:15-17 | the summing loop adds the absolute difference of every aligned pair |
| Day01.Example | src/day_01.py:29-40 | the example lists are 11 apart |
| Day01.ExampleLeftSorted | src/day_01.py:13 | sorting the example's left column gives 1 2 3 3 3 4 |
| Day01.ExampleRightSorted | src/day_01.py:14 | sorting the example's right column gives 3 3 3 4 5 9 |
| Day01.ExampleDistance | src/day_01.py:15-17 | the sorted example columns differ by 11 in total |
| Day02.CheckRow | src/day_02.py:7-15 | the pairwise walk returns True exactly when every step is 1 to 3 and all steps point the way of the first one |
| Day02.ShortRowsSafe | src/day_02.py:7-15 | a report of no or one level has no pair and is safe |
| Day02.EqualNeighboursUnsafe | src/day_02.py:11-12 | two equal neighbours (a step of 0) make a report unsafe |
| Day02.BadStepUnsafe | src/day_02.py:11-12 | any step whose size is not 1, 2 or 3 makes a report unsafe |
| Day02.TurnUnsafe | src/day_02.py:11-12 | any step pointing against the first step makes a report unsafe |
| Day02.Without | src/day_02.py:28 | `row[:i] + row[i + 1:]` is one shorter and holds every level but the i-th, in order |
| Day02.SafeCountIsCount | src/day_02.py:22-23 | part_1 is at most the number of reports, equals it exactly when all are safe, and is 0 exactly when none is |
| Day02.DampenerOnlyAdds | src/day_02.py:26-30 | part_2 counts every report part_1 counts, so it is at least part_1 and at most the number of reports |
| Day02.ExampleSafe | src/day_02.py:37-42 | 7 6 4 2 1 and 1 3 6 7 9 are safe |
| Day02.ExampleUnsafe | src/day_02.py:37-42 | the other four example reports are unsafe |
| Day02.ExampleNotTolerated1 | src/day_02.py:28-38 | no single deletion makes 1 2 7 8 9 safe |
| Day02.ExampleNotTolerated2 | src/day_02.py:28-39 | no single deletion makes 9 7 6 2 1 safe |
| Day02.ExampleTolerated | src/day_02.py:28-41 | 1 3 2 4 5 and 8 6 4 4 1 become safe after one deletion |
| Day02.CountSix | src/day_02.py:23-30 | both sums over six reports are the sums of their per-report indicators |
| Day02.Example | src/day_02.py:45-52 | the example has 2 safe reports and 4 tolerated ones |
| Day03.DigitRun | src/day_03.py:7 | `\d+` is greedy: the run ends at the first non-digit, and everything before it is a digit |
| Day03.DigitRunIs | src/day_03.py:7 | the greedy run ends exactly at the first non-digit after a stretch of digits |
| Day03.StartsWithIsSlice | src/day_03.py:13 | a literal occurs at index i exactly when the slice there equals it |
| Day03.MulAt | src/day_03.py:7 | a match of `mul\((\d+),(\d+)\)` starts with `m` and is at least 8 characters long |
| Day03.MulAtSound | src/day_03.py:7 | whatever the pattern matches is `mul(` digits `,` digits `)`, and its operands are the values of those digits |
| Day03.MulAtShape | src/day_03.py:7 | a match splits at its comma into two non-empty digit runs whose values are the operands |
| Day03.MulAtComplete | src/day_03.py:7 | every well-formed instruction at index i is the match found there, with its operand values and end |
| Day03.TokenParts | src/day_03.py:7 | an instruction occupies `mul(`, its digits, `,`, its digits and `)` in that order |
| Day03.MulAtMatches | src/day_03.py:7 | when the digit runs are followed by `,` and `)` the pattern matches with those operands |
| Day03.MalformedMuls | src/day_03.py:29 | `mul[3,7]` and `mul(32,64]` from the example are not instructions |
| Day03.Part2 | src/day_03.py:10-22 | the finditer loop's total is the enabled sum: products count only while the last of `do()`/`don't()` seen was `do()` |
| Day03.SkipWithoutM | src/day_03.py:7 | no match can start in a stretch without an `m`, so the scan adds nothing there |
| Day03.SkipWord | src/day_03.py:13 | `do()` and `don't()` contain no `m`, so part_1's scan skips them without change |
| Day03.EnabledAtMostAll | src/day_03.py:7-20 | from any point and in either state, part_2's sum is at most part_1's |
| Day03.Part2AtMostPart1 | src/day_03.py:6-22 | part_2 never exceeds part_1 on the same text |
| Day03.NoDontCountsAll | src/day_03.py:13-20 | without any `don't()` ahead, part_2 adds exactly what part_1 adds |
| Day03.EnabledNoMul | src/day_03.py:13-16 | a position with no instruction and no `don't()` moves both scans on without adding anything |
| Day03.DisabledCountsNothing | src/day_03.py:17-20 | once disabled, with no `do()` ahead, nothing more is added |
| Day03.DoAnywhere | src/day_03.py:15-33 | `do()` enables wherever it occurs, inside `undo()` too |
| Day03.DontAnywhere | src/day_03.py:17-18 | `don't()` disables wherever it occurs |
| Day04.GridOfHolds | src/day_04.py:12-19 | the grid has a key exactly for each (column, line) of the text, holding that character |
| Day04.ReadGrid | src/day_04.py:17-19 | the nested copy loops build exactly that grid |
| Day04.MaxLen | src/day_04.py:15 | the scanned width is at least every line's length and is the length of some line |
| Day04.Hits | src/day_04.py:25-35 | the four tests add at most 4 at one cell |
| Day04.Part1 | src/day_04.py:9-37 | part_1 returns the number of cells and directions (right, down, down-right, down-left) that read XMAS or SAMX |
| Day04.ScanXmas | src/day_04.py:21-37 | the scanning loops add the four tests' hits over every cell of the rectangle |
| Day04.Part2 | src/day_04.py:40-66 | part_2 returns the number of cells whose five-cell window is one of the listed patterns |
| Day04.ScanXMas | src/day_04.py:50-64 | the scanning loops add one for every window in the list |
| Day04.OffGridNeverMatches | src/day_04.py:12-35 | a read off the grid yields `.`, so a line leaving the grid never matches |
| Day04.OffGridNeverCrosses | src/day_04.py:41-63 | a window reaching off the grid never matches |
| Day04.NoDotPattern | src/day_04.py:52-58 | no listed window contains `.` |
| Day04.CountBound | src/day_04.py:23-24 | if each cell adds at most k, the scan adds at most k per cell of the rectangle |
| Day04.RowBound | src/day_04.py:24 | if each cell adds at most k, one line adds at most k per cell |
| Day04.XmasCountBound | src/day_04.py:9-37 | part_1 is at most four per cell of the lines-by-width rectangle |
| Day04.XPatternsAreCrossedMas | src/day_04.py:52-58 | the five listed windows are exactly the X of two MAS diagonals, plus `MSAMs`, whose lower-case `s` matches only a lower-case letter |
| Day04.UpperCaseCrossedMas | src/day_04.py:52-63 | on text without a lower-case `s`, part_2 counts exactly the X-shaped MAS |
| Day05.CheckOrder | src/day_05.py:15-20 | in_order returns True exactly when no rule (a, b) has b at some position and a later in the update |
| Day05.OutOfOrderIff | src/day_05.py:15-20 | an update is out of order exactly when some rule's second page sits before its first page |
| Day05.ShortUpdatesInOrder | src/day_05.py:15-20 | updates of no or one page are always in order |
| Day05.AbsentRulesIrrelevant | src/day_05.py:17-18 | a rule with a page missing from the update can never reject it |
| Day05.Part1 | src/day_05.py:23-31 | the loop adds the middle page of every update in order; an empty update in order raises IndexError (None) |
| Day05.MiddleSumNonePersists | src/day_05.py:27-29 | once an IndexError is raised, part_1 raises whatever the later updates are |
| Day05.NoneInOrderSumsZero | src/day_05.py:26-31 | with no update in order the total is 0 |
| Day05.OutOfOrderAddsNothing | src/day_05.py:28-29 | an update that breaks a rule adds nothing |
| Day06.MapOfHolds | src/day_06.py:11-20 | the map has a key exactly for each character of the text, holding it with `^` replaced by `.` |
| Day06.LastCaret | src/day_06.py:15-17 | the column kept for a line is its last `^`, or none |
| Day06.StartOf | src/day_06.py:13-17 | the start is (-1, -1) when there is no `^`, and otherwise the last `^` in reading order |
| Day06.PuzzleToMap | src/day_06.py:11-20 | puzzle_to_map returns exactly that map and that start |
| Day06.ReadMap | src/day_06.py:14-18 | the loop over the lines covers every cell of the text and keeps the last `^` |
| Day06.ReadRow | src/day_06.py:15-18 | the loop over one line adds that line's cells and moves the start to its last `^`, if any |
| Day06.MapOfIs | src/day_06.py:11-20 | a map with the keys and values of the text is that map |
| Day06.TurnIsClockwise | src/day_06.py:33-46 | `rotate(-1)` on up, right, down, left is a right turn with y growing downwards |
| Day06.StepRule | src/day_06.py:44-48 | the walk stops exactly when the cell ahead is off the map; a `#` ahead turns without moving; anything else is stepped onto |
| Day06.NeverOnWall | src/day_06.py:44-48 | after its first move the guard only stands on map cells that are not `#` |
| Day06.GoneStaysGone | src/day_06.py:38-50 | once off the map, the walk is over for good |
| Day06.InStates | src/day_06.py:41-43 | a (cell, direction) pair recorded before was the state at some earlier turn |
| Day06.Shift | src/day_06.py:39-48 | the walk is deterministic: two equal states stay equal after the same number of turns |
| Day06.RepeatLoops | src/day_06.py:41-42 | a state seen twice means the guard never leaves |
| Day06.AlwaysThere | src/day_06.py:39-48 | after a repeated state the guard is on the map at every later turn |
| Day06.WalkPath | src/day_06.py:31-52 | walk_path raises LoopingError exactly when the guard never leaves; otherwise it returns the cells visited before the step off the map |
| Day06.Part1 | src/day_06.py:55-59 | part_1 is the number of distinct visited cells, and raises exactly on a looping map |
| Day06.SameWallsSameTrace | src/day_06.py:44-48 | the walk depends only on which cells exist and which are `#` |
| Day06.SameWallsSameLoops | src/day_06.py:44-48 | two maps with the same cells and walls loop alike |
| Day06.Trial | src/day_06.py:71-76 | one trial detects a loop exactly when the map with `#` at the cell loops, and leaves `.` at that cell |
| Day06.Part2 | src/day_06.py:62-78 | part_2 raises exactly when the first walk loops, and otherwise counts the visited cells whose obstruction makes the guard loop |
| Day06.ParsedStartOnFloor | src/day_06.py:13-18 | a parsed start is never `#`, and (-1, -1) has nothing above it |
| Day06.Obstruct | src/day_06.py:63-78 | the first walk raises exactly when it loops; otherwise the count is the looping obstructions among its cells |
| Day06.ExitedOnFloor | src/day_06.py:31-69 | the cells of a walk that leaves are floor, except a start off the map that is left at once |
| Day06.SeenOnFloor | src/day_06.py:40-48 | visited cells are never `#`, and only a walk that leaves at once visits a cell off the map |
| Day06.CountLoops | src/day_06.py:66-76 | although `.` is written back over the map, every trial sees the original walls plus one, so the count is the looping obstructions |
| Day06.ObstructionsAdd | src/day_06.py:72-75 | each trial adds one exactly when that obstruction loops |
| Day06.TrialSeesOriginal | src/day_06.py:71-76 | the map a trial sees loops exactly when the original map with that one obstruction does |
| Day06.VisitedNotWalls | src/day_06.py:40-48 | every visited cell is the start or a map cell that is not `#` |
| Day06.StartVisited | src/day_06.py:32-40 | the start is always visited |
| Day07.ConcatenationIsIntOfStr | src/day_07.py:48-49 | concatenation(a, b) succeeds exactly when `int(str(a) + str(b))` does, and is then that value: for a negative b the sign lands in the middle and `int` raises ValueError |
| Day07.ApplyAll | src/day_07.py:22 | when no operator raises, one result per operator, in operator order, each that operator applied to the earlier result and the value; it raises ValueError exactly when concatenation is an operator and the value is negative |
| Day07.Expand | src/day_07.py:21-22 | the loop over the earlier results raises ValueError exactly when there is an earlier result, concatenation is an operator and the value is negative |
| Day07.CalculateSingle | src/day_07.py:17-18 | a single value is its own only result |
| Day07.ExpandLength | src/day_07.py:21-22 | extending gives one result per (earlier result, operator) pair |
| Day07.CalculateLength | src/day_07.py:16-24 | calculate returns `len(operators) ** (len(values) - 1)` results |
| Day07.CalculateFails | src/day_07.py:16-24 | on at least one value, calculate raises exactly when concatenation is an operator and some value other than the last is negative, and never recurses without end |
| Day07.ExpandHas | src/day_07.py:21-22 | a value is an extended result exactly when it is some operator applied to some earlier result and the value |
| Day07.CalculateIsLeftToRight | src/day_07.py:16-41 | after `values.reverse()`, the results are exactly the left-to-right evaluations of the original order over every choice of operators |
| Day07.CalculateSound | src/day_07.py:16-41 | every result on the reversed values is some left-to-right evaluation |
| Day07.ReverseStep | src/day_07.py:21-40 | on reversed values, the last original value is combined with the results for the others, or the failure for the others is passed on |
| Day07.EvalLeftStep | src/day_07.py:22 | one more operator on the right applies it to the evaluation so far and the last value |
| Day07.EvaluationCalculated | src/day_07.py:16-41 | every left-to-right evaluation is among the results |
| Day07.MoreOperatorsMoreResults | src/day_07.py:41-58 | adding an operator only adds results |
| Day07.Solve | src/day_07.py:35-62 | the loop adds the answers that some result matches; it raises RecursionError at a calibration without values and ValueError at the first concatenation with a negative right operand |
| Day07.TotalErrPersists | src/day_07.py:38-43 | once a calibration raises, the whole part raises the same error |
| Day07.Part1 | src/day_07.py:35-45 | part_1 is the loop with + and * |
| Day07.Part2 | src/day_07.py:52-62 | part_2 is the loop with +, * and concatenation |
| Day07.PlusTimesNeverValueError | src/day_07.py:35-45 | part_1 never raises ValueError: with + and * alone it can only fail on a calibration without values |
| Day07.Part2AtLeastPart1 | src/day_07.py:35-62 | whenever part_1 raises so does part_2; when neither raises and no answer is negative, part_2 is at least part_1 |
| Day07.ConcatenationExample | src/day_07.py:68-69 | concatenation(12, 345) is 12345; concatenation(-3, 4) is -34 and concatenation(3, -4) raises ValueError |
| Day07.ExampleHolds | src/day_07.py:74 | 3267: 81 40 27 holds with + and * |
| Day07.NegativeValueExample | src/day_07.py:35-62 | on the calibration 7: 3 -4, part_1 is 0 while part_2 raises ValueError |
| Day08.AntennasUnique | src/day_08.py:8-12 | the recorded antennas are determined by the text |
| Day08.LastXIs | src/day_08.py:9-14 | `x` is unbound exactly when the text has no character; otherwise it is the last column of the last non-empty line |
| Day08.RecordStep | src/day_08.py:11-12 | reading one more character records it under its frequency when it is not `.` |
| Day08.RowDone | src/day_08.py:10-12 | after the inner loop every character of the line is recorded |
| Day08.AllRead | src/day_08.py:9-12 | after both loops every non-`.` character of the text is recorded under its frequency |
| Day08.ParseInput | src/day_08.py:7-14 | parse_input records exactly the non-`.` characters by frequency, and the extents are the last (x, y) bound, or UnboundLocalError on an empty text |
| Day08.AntinodeGeometry | src/day_08.py:26-28 | a + (a - b) and b - (a - b) are the points beyond a and beyond b at the pair's distance |
| Day08.PairAntinodes | src/day_08.py:25-28 | both antinodes of every same-frequency pair are recorded |
| Day08.LoneAntennasNoAntinodes | src/day_08.py:24-28 | with one antenna per frequency there are no antinodes |
| Day08.AtMostOne | src/day_08.py:25 | a set of at most one position has no pairs |
| Day08.AddPairs | src/day_08.py:25-28 | the pairs of one frequency add both antinodes of every pair of distinct antennas |
| Day08.CollectAntinodes | src/day_08.py:24-28 | the loop over the frequencies collects the antinodes of every frequency |
| Day08.Part1 | src/day_08.py:17-30 | part_1 counts the distinct antinodes inside the extents, inclusive on both axes, or fails on an empty text |
| Day09.StripStart | src/day_09.py:12 | `strip()` leaves no leading character that `str.isspace` accepts |
| Day09.StripEnd | src/day_09.py:12 | `strip()` leaves no trailing character that `str.isspace` accepts |
| Day09.Repeat | src/day_09.py:14 | `[value] * n` has n copies of the value |
| Day09.ParseInput | src/day_09.py:8-19 | parse_input lays out the runs of the stripped digits, or raises ValueError when a character is not a digit |
| Day09.LayoutLength | src/day_09.py:12-14 | the layout has one block per unit of the digits |
| Day09.LayoutRuns | src/day_09.py:12-17 | run k starts after the runs before it and holds file k/2 for even k and free space for odd k |
| Day09.CompactPermutes | src/day_09.py:22-36 | compaction keeps every block, only moved: same length, same multiset of blocks |
| Day09.CompactCompacts | src/day_09.py:22-36 | after compaction no file block comes after a free block |
| Day09.CompactKeepsFiles | src/day_09.py:22-36 | a file block already inside the region the files end up in is never moved |
| Day09.CompactShort | src/day_09.py:24-26 | a disk of at most one block is left as it is |
| Day09.CompactFreeBack | src/day_09.py:29-30 | free blocks at the back stay where they are and the rest is compacted alone |
| Day09.CompactFilesFront | src/day_09.py:27-28 | file blocks in front stay where they are and the rest is compacted alone |
| Day09.CompactFreesBack | src/day_09.py:29-30 | any run of free blocks at the back stays put |
| Day09.Between | src/day_09.py:26-34 | with the blocks outside the two scans settled, compacting the disk is compacting what lies between them |
| Day09.SwappedEnds | src/day_09.py:31-32 | moving the last block, a file, into the first, a free one, does not change the compaction |
| Day09.SwapStep | src/day_09.py:31-34 | swapping the free block at `left` with the file block at `right` keeps the loop invariant and the compaction |
| Day09.Met | src/day_09.py:26-36 | when the two scans meet, the copy is its own compaction |
| Day09.SortBlocks | src/day_09.py:22-36 | sort_blocks returns exactly the compaction: the last file block moved into the first free block, again and again |
| Day09.ComputeChecksum | src/day_09.py:39-47 | the loop adds position times file id over the file blocks |
| Day09.FreeAddsNothing | src/day_09.py:42-43 | trailing free blocks add nothing to the checksum |
| Day09.Part1 | src/day_09.py:50-54 | part_1 raises ValueError exactly on a text with a non-digit, and is otherwise the checksum of the compacted layout |
| Day09.SmallLayout | src/day_09.py:8-19 | the disk map 12101 lays out file 0, two free blocks, file 1 and file 2 |
| Day09.SmallExample | src/day_09.py:22-54 | on 12101, file 2 and then file 1 move into the two free blocks, and the checksum is 4 |
| Day09.SmallChecksum | src/day_09.py:39-47 | the checksum of files 0, 2, 1 followed by two free blocks is 4 |
| Day10.RecordStep | src/day_10.py:9-13 | reading one more character stores its value when it is a digit and skips it otherwise |
| Day10.RowDone | src/day_10.py:9-13 | after the inner loop every digit of the line is stored |
| Day10.ParseInput | src/day_10.py:6-15 | parse_input maps exactly the digit cells of the text to their values, all between 0 and 9 |
| Day10.Next | src/day_10.py:40-43 | the positions queued from p are exactly its 4-neighbours one higher |
| Day10.PeaksBelowNine | src/day_10.py:37-43 | below height 9, the 9s reached from p are those reached from its successors |
| Day10.Prepend | src/day_10.py:42-43 | a climbing step in front of a trail gives a trail |
| Day10.Behead | src/day_10.py:42-43 | a trail without its first cell is a trail, and its second cell is a successor of its first |
| Day10.TrailsReachPeaks | src/day_10.py:33-44 | the end of every trail from s that ends at height 9 is one of s's found peaks |
| Day10.PeaksEndTrails | src/day_10.py:33-44 | every found peak has height 9 and ends a trail from s |
| Day10.TrailClimbs | src/day_10.py:42 | a trail of n steps climbs exactly n |
| Day10.WeightAppend | src/day_10.py:33-43 | the weight of the queue is additive, so it measures the work left |
| Day10.UniformWeight | src/day_10.py:40-43 | positions of one height all weigh the same |
| Day10.Shrinks | src/day_10.py:36-43 | expanding a position below 9 into at most four positions one higher lowers the weight, so the queue empties |
| Day10.Expand | src/day_10.py:39-43 | expanding a position keeps the search invariant: the peaks still to find are those of the queue |
| Day10.Reach | src/day_10.py:37-38 | a position of height 9 is found |
| Day10.Explore | src/day_10.py:33-44 | one trailhead's queue search finds exactly the height-9 cells its trails reach |
| Day10.WalkTrail | src/day_10.py:28-46 | walk_trail adds the number of peaks of every start |
| Day10.FindStarts | src/day_10.py:52-55 | the starts are every height-0 cell, once each |
| Day10.Part1 | src/day_10.py:49-57 | part_1 is the total score of the height-0 cells of the parsed map |
| Day11.Line.SetFirst | src/day_11.py:13-21 | `stones[0] = value` replaces the front stone and nothing else |
| Day11.Line.RotateLeft | src/day_11.py:18-23 | `rotate(-1)` moves the front stone to the back |
| Day11.Line.InsertFirst | src/day_11.py:19 | `insert(0, value)` puts the value in front |
| Day11.DigitCount | src/day_11.py:14 | every natural has at least one digit |
| Day11.DigitCountIsLength | src/day_11.py:14 | the digit count of a natural is `len(str(n))` |
| Day11.Width | src/day_11.py:14 | `len(str(n))` is at least 1 for every stone |
| Day11.WidthIsLength | src/day_11.py:14 | the width, digits plus a minus sign for a negative stone, is `len(str(n))` |
| Day11.PlaceValue | src/day_11.py:15-19 | writing n as q·10^k + r with r < 10^k, q is n without its last k digits and r is those digits |
| Day11.HalvesAreSlices | src/day_11.py:14-19 | for a non-zero stone of even width, the right stone is `int(chars[middle:])`; the blink raises exactly when `int(chars[:middle])` does, and otherwise the two new stones are those two values |
| Day11.ChangeFails | src/day_11.py:14-19 | changing a stone raises ValueError exactly when it is one of -9 .. -1, whose left half is a lone minus sign |
| Day11.SplitHalves | src/day_11.py:15-19 | the two halves, with the stone's sign on the left one, give back the stone; the right half is below 10^k and a positive stone's left half has no leading zero |
| Day11.CutBounds | src/day_11.py:15-17 | cutting the last k digits of m, the pieces give m back, the right piece is below 10^k and the left piece has exactly the remaining number of digits |
| Day11.HighLow | src/day_11.py:15-19 | m is its digits before the last k, shifted back by 10^k, plus those last k digits |
| Day11.LeadingDigit | src/day_11.py:17 | a digit string without a leading zero is worth at least 10^(k-1) |
| Day11.ChangeFront | src/day_11.py:12-23 | one pass changes the front stone by the first rule that applies and puts the result at the back; when `int` raises the line is untouched |
| Day11.Blink | src/day_11.py:10-23 | a blink changes every stone once, in order, leaving the results in the original order; when a stone raises, the stones before it are changed and moved behind the rest |
| Day11.BlinkStep | src/day_11.py:11-23 | after i passes the line is the unchanged stones followed by what the changed ones became |
| Day11.BlinkFails | src/day_11.py:10-23 | a blink raises exactly when some stone is one of -9 .. -1 |
| Day11.BlinkErrPersists | src/day_11.py:11-23 | once a stone raises, the whole blink raises the same error |
| Day11.BlinkConcat | src/day_11.py:10-23 | a blink works stone by stone: two runs of stones blink without error exactly when each does, and their results sit side by side |
| Day11.BlinkLength | src/day_11.py:14-19 | a blink adds exactly one stone per non-zero stone of even width |
| Day11.BlinksGrow | src/day_11.py:29-30 | the line never gets shorter |
| Day11.NaturalsNeverFail | src/day_11.py:26-41 | stones that are not negative never raise, however often they blink, and stay not negative |
| Day11.CountAfter | src/day_11.py:26-32 | blinking n times on one line ends with the length of the line after n blinks, or with the error of the blink that raised |
| Day11.Part1 | src/day_11.py:26-32 | part_1 is the number of stones after 25 blinks, at least the number of stones to start with, or the ValueError of a blink |
| Day11.Part2 | src/day_11.py:35-41 | part_2 is the number of stones after 75 blinks, at least the number to start with, or the ValueError of a blink |
| Day11.TestStones | src/day_11.py:47-51 | 0, 1, 10, 99 and 999 become 1, 2024, 1 0, 9 9 and 2021976 |
| Day11.BlinkExample | src/day_11.py:47-51 | one blink turns 0 1 10 99 999 into 1 2024 1 0 9 9 2021976 |
| Day11.NegativeExample | src/day_11.py:14-19 | the stone -123 becomes -1 and 23, and the stone -1 makes the blink raise ValueError |
| Day11.Line.constructor | src/day_11.py:6-7 | the stone line holds the parsed stones, in order |
| Day12.RecordStep | src/day_12.py:12-13 | reading one more character stores it at its (x, y) |
| Day12.RowDone | src/day_12.py:12-13 | after the inner loop every character of the line is stored |
| Day12.ParseInput | src/day_12.py:8-15 | parse_input maps every cell of `puzzle.split("\n")` to its plant |
| Day12.ComponentHasSeed | src/day_12.py:64 | a patch holds its seed |
| Day12.ComponentStep | src/day_12.py:70-73 | a same-plant neighbour of a patch cell is in the patch |
| Day12.StepBack | src/day_12.py:19-23 | a same-plant step can be taken backwards |
| Day12.ClosedBackwards | src/day_12.py:70-73 | a set closed under same-plant steps that holds the end of a walk holds its start |
| Day12.ClosedForwards | src/day_12.py:70-73 | a closed set that holds a walk's start holds its end |
| Day12.ClosedHasComponent | src/day_12.py:64-74 | a closed set holding p holds p's whole patch |
| Day12.ComponentAvoids | src/day_12.py:60-74 | a patch misses every closed set that misses its seed |
| Day12.WalkSamePlant | src/day_12.py:71 | every cell on a same-plant walk has the seed's plant |
| Day12.ComponentSamePlant | src/day_12.py:63-71 | every cell of a patch is a garden cell with the seed's plant |
| Day12.ComponentsClosed | src/day_12.py:64-74 | a patch is closed under same-plant steps |
| Day12.Pop | src/day_12.py:67-68 | taking the front of the queue marks it visited and keeps the search invariant |
| Day12.FillStep | src/day_12.py:70-74 | an unvisited same-plant neighbour is queued, added to the patch and marked visited, and fewer cells are left unvisited |
| Day12.SkipStep | src/day_12.py:71 | a neighbour already visited, of another plant or outside the garden is passed over |
| Day12.Expanded | src/day_12.py:70-74 | with its four neighbours handled, the expanded cell leaves the queue |
| Day12.SeeOne | src/day_12.py:74 | marking an unvisited cell visited leaves one fewer unvisited |
| Day12.SeeAny | src/day_12.py:68 | marking any cell visited never adds unvisited cells |
| Day12.Fill | src/day_12.py:63-74 | the search from a cell returns exactly its patch, and the visited set grows by exactly that patch |
| Day12.FenceGrows | src/day_12.py:34-40 | one more patch cell adds its own outward sides, which no other cell counted |
| Day12.CellFenceStep | src/day_12.py:37-40 | one more direction adds that side when its neighbour is outside the patch |
| Day12.PerimeterStep | src/day_12.py:34-40 | one more patch cell adds its outward sides to the count |
| Day12.CellSides | src/day_12.py:37-40 | one cell adds the number of its sides facing out of the patch, at most four |
| Day12.GetPerimeter | src/day_12.py:26-50 | get_perimeter counts every side of a patch cell whose neighbour is outside, at most four per cell |
| Day12.LoneCellPerimeter | src/day_12.py:26-50 | a lone cell has perimeter 4 |
| Day12.UnionStep | src/day_12.py:78 | one more patch adds its cells to the covered set and area times perimeter to the cost |
| Day12.UnionHas | src/day_12.py:59-78 | every patch found is covered |
| Day12.ClosedUnion | src/day_12.py:59-78 | a union of closed sets is closed |
| Day12.CoverStep | src/day_12.py:59-78 | the patch of an unvisited cell joins the partition and adds area times perimeter |
| Day12.Part1 | src/day_12.py:53-80 | part_1 is the sum of area times perimeter over a partition of the garden into its patches |
| Day13.FloorDivExact | src/day_13.py:18 | `//` is exact on a multiple of the divisor, whatever the signs |
| Day13.DivOfMultiple | src/day_13.py:18-22 | a multiple of d divided by d gives back the factor with no remainder |
| Day13.MulAway | src/day_13.py:16-18 | a non-zero multiple of d is at least the absolute value of d away from zero |
| Day13.CostFails | src/day_13.py:13-22 | cost raises ZeroDivisionError exactly when the determinant or b.real is zero |
| Day13.NonZeroCostSolves | src/day_13.py:24-27 | a non-zero cost is 3a + b for press counts that land on the prize on both axes |
| Day13.MissCostsNothing | src/day_13.py:24-27 | the cost is 0 whenever the floored presses miss the prize |
| Day13.SolutionIsFound | src/day_13.py:13-27 | whenever presses (x, y) reach the prize, Cramer's rule computes exactly them and cost returns 3x + y |
| Day13.Expand | src/day_13.py:16-17 | the numerator of Cramer's rule at a solution is the determinant times the A presses |
| Day13.SolutionUnique | src/day_13.py:16-18 | with a non-zero determinant a machine has at most one solution |
| Day13.TotalFails | src/day_13.py:46-49 | the sum raises exactly when some game's cost raises |
| Day13.TotalAppend | src/day_13.py:49 | the sums over two lists of games add up |
| Day13.TotalOne | src/day_13.py:49 | the sum over one game is its cost |
| Day13.Part2Shifts | src/day_13.py:52-55 | part_2 is part_1 on the games with both prize coordinates moved by 10^13 |
| Day13.Shifted | src/day_13.py:14 | shifting the prizes keeps one game per game |
| Day13.ShiftedTotal | src/day_13.py:52-55 | the error term and a shifted prize give the same total |
| Day13.ExamplePart1 | src/day_13.py:61-81 | the example machines cost 480 tokens in total |
| Day13.ExamplePart2 | src/day_13.py:61-86 | with the prizes moved by 10^13 the example costs 875318608908 tokens |
| Day14.PyMod | src/day_14.py:19-20 | Python's `%` lands in 0..m-1 for a positive modulus and in m+1..0 for a negative one |
| Day14.ModUnique | src/day_14.py:19-20 | the remainder by a positive modulus is the only value in 0..m-1 that differs from the dividend by a multiple of m |
| Day14.PyModAdd | src/day_14.py:19-20 | wrapping before adding a velocity changes nothing: ((a % m) + v) % m is (a + v) % m |
| Day14.Extent.Quadrant | src/day_14.py:31-43 | quadrant is 0 exactly on the middle column or row, and otherwise 1 or 2 by the side of the middle column plus 4 or 8 by the side of the middle row |
| Day14.Robot.Move | src/day_14.py:18-20 | move adds the velocity and wraps both coordinates into the room, keeping the velocity |
| Day14.MoveStep | src/day_14.py:18-64 | one more move takes a robot from its place after n seconds to its place after n + 1 |
| Day14.MovedInRoom | src/day_14.py:19-20 | in a room of positive extents a robot that has moved is inside it |
| Day14.After | src/day_14.py:62-64 | the robots' positions after n seconds, one per robot |
| Day14.Snapshot | src/day_14.py:11-16 | the robots' states, one per robot |
| Day14.MoveAll | src/day_14.py:63-81 | one second moves every robot once, each to its place after one more second |
| Day14.Quadrants | src/day_14.py:67-68 | the quadrant of every robot, in order |
| Day14.CountAppend | src/day_14.py:67-68 | counts over two lists of quadrants add up |
| Day14.TallyCounts | src/day_14.py:66-68 | the tally has a key exactly for the quadrants some robot is in, holding its number of robots |
| Day14.TallyCount | src/day_14.py:66-68 | the same for one quadrant |
| Day14.SafetyFactorCounts | src/day_14.py:69-71 | `del quadrants[0]` raises KeyError exactly when no robot is on a middle line; otherwise the result is the product of the four quadrants' counts, an empty quadrant not taking part |
| Day14.ProductMatches | src/day_14.py:71 | the product over the tally's values is the product of the counts |
| Day14.CountQuadrants | src/day_14.py:66-68 | the counting loop builds the tally of the robots' quadrants |
| Day14.Positions | src/day_14.py:22-23 | the robots' positions, one per robot |
| Day14.Part1 | src/day_14.py:59-71 | part_1 moves every robot 100 times and returns the safety factor of the resulting positions |
| Day14.ExamplePositions | src/day_14.py:93-110 | in an 11 by 7 room the example robots end on the listed tiles, three on a middle line |
| Day14.ExamplePart1 | src/day_14.py:108-110 | the example's safety factor in an 11 by 7 room is 12 |
| Day14.ExampleCounts | src/day_14.py:108-110 | the example's quadrants hold 4, 1, 1 and 3 robots, whose product is 12 |
| Day14.ProductOfCounts | src/day_14.py:71 | four quadrants holding 4, 1, 1 and 3 robots give the factor 12 |
| Day14.CountIsMultiplicity | src/day_14.py:67-68 | the count of a quadrant is its multiplicity among the robots' quadrants |
| Day14.ApartIffDistinct | src/day_14.py:79-84 | the positions set has at most one tile per robot, and exactly one per robot when no two robots share a tile |
| Day14.DistinctSnoc | src/day_14.py:80-82 | a last robot on a tile of its own keeps the robots apart exactly when those before it are |
| Day14.Part2 | src/day_14.py:74-87 | within the searched seconds, part_2 returns the first second after which all robots are on different tiles, or none if there is none so early |
| Day14.Gather | src/day_14.py:79-82 | the set built is exactly the robots' tiles |
| Day14.Robot.constructor | src/day_14.py:11-16 | a robot holds the position and velocity it is given |
| Day15.BeyondMono | src/day_15.py:57-64 | fewer boxes lie further along the move beyond a further rank, strictly fewer when a box sits at that rank |
| Day15.Shrinks | src/day_15.py:62-63 | the box in front has fewer boxes beyond it, so move_box's recursion ends |
| Day15.End | src/day_15.py:57-64 | the pushed row ends on the first cell along the move that holds no box |
| Day15.EndIsFree | src/day_15.py:58-60 | a row that can be pushed ends on a cell that is neither a box nor a wall |
| Day15.Remove | src/day_15.py:66 | `list.remove` takes away one occurrence and shortens the list by one when the value is present |
| Day15.PushedBoxes | src/day_15.py:57-69 | as a multiset, a push only takes away the pushed box and adds a box where the row ends |
| Day15.PushedLength | src/day_15.py:66-67 | a push keeps the number of boxes |
| Day15.Relabel | src/day_15.py:63-67 | the boxes in front moving first, then the box taking the next cell, leave the same multiset as moving the box to the row's end |
| Day15.NextConsistent | src/day_15.py:46-69 | a move keeps boxes apart, off the walls and away from the robot |
| Day15.RowMoved | src/day_15.py:57-69 | pushing a row into a free cell keeps the boxes apart and off the walls, and frees the cell in front of the robot |
| Day15.NextMoves | src/day_15.py:46-55 | a move changes no wall and no box count, and either changes nothing (blocked) or puts the robot one step along, off the walls |
| Day15.Warehouse.MoveBox | src/day_15.py:57-69 | move_box succeeds exactly when the row can be pushed, and then pushes it; on failure the boxes are as before |
| Day15.Warehouse.Move | src/day_15.py:46-55 | move succeeds exactly when neither a wall nor an unpushable row is in the way, and leaves the warehouse as the move's specification says |
| Day15.Warehouse.Score | src/day_15.py:71-75 | score adds 100 · y + x over the boxes |
| Day15.GpsAppend | src/day_15.py:71-75 | the score of two lists of boxes adds up |
| Day15.GpsRemove | src/day_15.py:66-75 | removing a box takes its coordinate off the score |
| Day15.GpsPushed | src/day_15.py:57-75 | a push changes the score by the pushed box leaving and a box arriving where the row ends |
| Day15.GpsReplace | src/day_15.py:66-75 | removing one box and appending another changes the score by their difference |
| Day15.RunKeeps | src/day_15.py:100-101 | a run of moves keeps the walls, the number of boxes and consistency |
| Day15.RowCellsAre | src/day_15.py:84-91 | a line's cells of one kind are exactly its positions of that character, left to right |
| Day15.CellsAre | src/day_15.py:83-91 | the text's cells of one kind are exactly its positions of that character, in reading order without repeats |
| Day15.DistinctOnce | src/day_15.py:88-89 | the parsed boxes occur once each |
| Day15.MovesAre | src/day_15.py:93 | a move is listed exactly when some character of the moves section maps to it; others are skipped |
| Day15.ParsedConsistent | src/day_15.py:78-94 | a parsed warehouse with an `@` is consistent |
| Day15.LinesCover | src/day_15.py:83 | every character other than a line break lies on one of the lines |
| Day15.ReadWarehouse | src/day_15.py:80-91 | the loop over the lines finds the last `@` (or (0, 0)) and every `O` and `#`, in reading order |
| Day15.ReadRow | src/day_15.py:84-91 | the loop over one line moves the robot to its last `@` and collects its `O` and `#` cells |
| Day15.ParseInput | src/day_15.py:78-94 | parse_input returns the parsed warehouse and moves, or ValueError unless the text has exactly two sections |
| Day15.Part1 | src/day_15.py:97-103 | part_1 makes every move in order on the parsed warehouse and returns the score, or raises ValueError |
| Day15.Warehouse.constructor | src/day_15.py:18-22 | the warehouse holds the robot, boxes and walls it is given |
| Day16.StepCost | src/day_16.py:55-57 | a step costs 1 straight on and 1001 in a new direction |
| Day16.StartLegal | src/day_16.py:28 | the first entry (score 0 at the start, facing east, nothing walked) is a walk |
| Day16.ExtendLegal | src/day_16.py:50-69 | a step onto a cell that is neither a wall nor already walked extends a walk, with the step's cost added |
| Day16.StepOn | src/day_16.py:51-67 | the walk behind an entry plus the step is the walk behind its successor |
| Day16.TrailLast | src/day_16.py:67 | the cells walked grow by the cell just left |
| Day16.WalkOn | src/day_16.py:50-53 | a walk goes on with a step in one of the four directions onto a fresh cell off the walls |
| Day16.PopMin | src/day_16.py:35 | heappop takes out an entry of least score and leaves the others |
| Day16.Arrive | src/day_16.py:46-48 | reaching the end with a score no higher than the best makes it the best and records its walked cells under its score |
| Day16.SolveMaze | src/day_16.py:25-71 | every entry queued is a legal walk; the best score is 9_999_999 or the score of a kept walk reaching the end, no kept arrival scores less, and the tile count is one more than the cells those best walks passed through |
| Day16.PopLegal | src/day_16.py:35 | after heappop the taken entry and those left are legal walks |
| Day16.Expand | src/day_16.py:50-69 | the inner loop pushes, in direction order, a successor for each direction whose cell is neither walked nor a wall |
| Day16.LegalAppend | src/day_16.py:59-69 | pushing a legal entry keeps every queued entry legal |
| Day16.SuccessorsAppend | src/day_16.py:50-69 | the successors of one more direction are those before, then that direction's if open |
| Day16.SuccessorsNext | src/day_16.py:50-53 | the successors of the first k + 1 directions extend those of the first k |
| Day16.BestIsWalked | src/day_16.py:46-47 | a best score below 9_999_999 is the cost of a walk from the start to the end |
| Day16.Part1 | src/day_16.py:74-79 | part_1 is 9_999_999 or the cost of a walk from the start to the end |
| Day16.Part2 | src/day_16.py:82-87 | part_2 is one more than the number of cells walked before the end by the kept best-scoring walks |
| Day17.Shr | src/day_17.py:42 | the division A // 2 ** k never exceeds A |
| Day17.StepJump | src/day_17.py:47-50 | `jnz` jumps to its operand exactly when A is not zero; every other instruction moves `ptr` on by 2 |
| Day17.StepOutput | src/day_17.py:53-54 | `out` appends one value in 0..7; no other instruction touches the output |
| Day17.StepDivides | src/day_17.py:41-42 | the divisions store A // 2 ** combo, and A never grows |
| Day17.ComboFails | src/day_17.py:21-34 | the combo operand is the literal for 0..3, raises NotImplementedError on 7 and ValueError above 7 |
| Day17.ExecKeeps | src/day_17.py:36-63 | over a run the output only grows and stays in 0..7, A never grows, and a halted run has its `ptr` past the program |
| Day17.ExecSettled | src/day_17.py:39 | more loop turns never change a run that has already halted or raised |
| Day17.RunProgram | src/day_17.py:20-63 | run_program leaves the registers and returns the output of the run from `ptr` 0, or the exception it raises |
| Day17.StepOn | src/day_17.py:40-61 | one turn of the loop updates the registers in place as the instruction says |
| Day17.ExampleBst | src/day_17.py:81-87 | C = 9 and `bst 6` set B to 1 |
| Day17.ExampleOut | src/day_17.py:90-94 | A = 10 and three `out`s output 0, 1, 2 |
| Day17.ExampleBxl | src/day_17.py:105-110 | B = 29 XOR 7 is 26 |
| Day17.ExampleBxc | src/day_17.py:113-118 | B = 2024 XOR 43690 is 44354 |
| Day17.HalvingPass | src/day_17.py:97-102 | one pass of the program 0,1,5,4,3,0 halves A, outputs the new A mod 8 and loops back while A is not zero |
| Day17.HalvingRun | src/day_17.py:97-102 | that program halts with A = 0 after three turns per output, having output the successive halvings of A mod 8 |
| Day17.ExampleHalving | src/day_17.py:97-102 | from A = 2024 the output is 4,2,5,6,7,7,7,7,3,1,0 |
| Day17.ExampleRun | src/day_17.py:121-131 | from A = 729 the output is 4,6,3,5,6,3,5,2,1,0 |
| Day17.RegisterMapFails | src/day_17.py:11-13 | once a register line raises, the whole loop raises the same exception |
| Day17.RegistersSet | src/day_17.py:11-13 | every line of a loop that did not raise is a register line, and the last line naming a register sets it |
| Day17.IntsRead | src/day_17.py:15 | each number of the program is read back from its text |
| Day17.Part1 | src/day_17.py:66-71 | part_1 is the parse error, the run's exception, or the run's output joined with commas |
| Day17.ParseInput | src/day_17.py:6-17 | parse_input splits registers from program, sets each named register and reads the program's numbers |
| Day17.Registers.constructor | src/day_17.py:8 | the registers hold the values they are given |
| Day18.Fallen | src/day_18.py:21 | `bytes[:sim_len]` keeps a prefix: all of it when sim_len reaches the length, exactly sim_len bytes when it is in range, and counts back from the end when negative |
| Day18.Extend | src/day_18.py:44-51 | a walk extended by a free on-grid neighbour is a walk one step longer |
| Day18.Box | src/day_18.py:47-48 | the cells a search can ever hold are the grid's and the start |
| Day18.PopMin | src/day_18.py:31 | heappop takes out the least entry in (dist, x, y) order and leaves the others |
| Day18.VisitedAlong | src/day_18.py:30-51 | every cell of a walk shorter than the queue's least distance has been visited within its step count |
| Day18.NoShorter | src/day_18.py:30-51 | no walk reaches an unvisited cell in fewer steps than the queue's least distance |
| Day18.Skip | src/day_18.py:34-35 | skipping an entry that is visited or a fallen byte keeps the search's bookkeeping |
| Day18.Visit | src/day_18.py:37-51 | visiting the least entry's cell and queueing its unvisited neighbours keeps the bookkeeping |
| Day18.VisitQueue | src/day_18.py:44-51 | after a visit every queued entry is at least as far as the visited cell and walkable when free |
| Day18.VisitCovered | src/day_18.py:44-51 | after a visit every free on-grid neighbour of a visited cell is still covered one step further |
| Day18.PushesAre | src/day_18.py:44-51 | the pushed entries are exactly the on-grid unvisited neighbours, one step further |
| Day18.Search | src/day_18.py:24-58 | when some walk around the bytes reaches (size, size) the result is the length of a shortest one, otherwise 0 |
| Day18.Fewer | src/day_18.py:37 | visiting a new cell leaves fewer cells of the grid unvisited, so the loop ends |
| Day18.Shortest | src/day_18.py:39-42 | when the least entry is the target its distance is walkable and no walk is shorter; with the queue empty no walk reaches it |
| Day18.Expand | src/day_18.py:44-51 | the inner loop queues each on-grid unvisited neighbour in direction order |
| Day18.BytesRead | src/day_18.py:7-8 | the parsed bytes are the lines' coordinates in order; parsing fails exactly when some line is malformed |
| Day18.SplitNoComma | src/day_18.py:8 | a text without commas splits into itself |
| Day18.ByteLineRoundTrip | src/day_18.py:8 | writing a byte as "x,y" and reading the line back gives the byte |
| Day18.SignedRead | src/day_18.py:8 | int() reads back a written integer |
| Day18.Blocked | src/day_18.py:21-22 | the blocked cells are those the first sim_len bytes fall onto |
| Day18.Part1 | src/day_18.py:11-58 | part_1 is a parse error, or the length of a shortest walk from (0, 0) to (size, size) around the first sim_len bytes, 0 when there is none |
| Day19.StartsWithPrefix | src/day_19.py:16 | a pattern starts with a towel exactly when its first len(towel) stripes are the towel |
| Day19.SolvableIff | src/day_19.py:14-22 | a pattern is solvable exactly when some sequence of towels laid end to end makes it |
| Day19.SingleTowel | src/day_19.py:17-18 | a pattern that is one whole towel is solvable |
| Day19.EmptyRejected | src/day_19.py:14-22 | the empty pattern is never solvable |
| Day19.Solve | src/day_19.py:13-22 | solve with its cache returns whether the pattern is solvable, and every answer the cache stores stays true |
| Day19.SolvePattern | src/day_19.py:12-24 | solve_pattern returns whether the pattern is solvable |
| Day19.TowelSet | src/day_19.py:9 | set() of the towels holds exactly the listed towels |
| Day19.CountBounds | src/day_19.py:30 | with no solvable pattern the count is 0, with all of them solvable it is their number |
| Day19.Part1 | src/day_19.py:27-30 | part_1 is the parse error or the number of solvable patterns |
| Day19.StartsAtSuffix | src/day_19.py:16-19 | the reference procedure's towel test at offset i is startswith on the suffix from i |
| Day19.DecideSolvable | src/day_19.py:14-22 | an independent split-by-split procedure over the towel list agrees with solve on every suffix |
| Day19.SomeFitsIff | src/day_19.py:15-20 | trying the towels from index k succeeds exactly when one of them fits the suffix and leaves a solvable rest |
| Day19.ExampleDecide | src/day_19.py:40-50 | on the parsed example towels, solvability is the reference procedure's answer |
| Day19.ExampleBrwrr | src/day_19.py:43 | on the parsed example towels, "brwrr" can be laid |
| Day19.ExampleBggr | src/day_19.py:44 | on the parsed example towels, "bggr" can be laid |
| Day19.ExampleGbbr | src/day_19.py:45 | on the parsed example towels, "gbbr" can be laid |
| Day19.ExampleRrbgbr | src/day_19.py:46 | on the parsed example towels, "rrbgbr" can be laid |
| Day19.ExampleUbwu | src/day_19.py:47 | on the parsed example towels, "ubwu" cannot be laid |
| Day19.ExampleBwurrg | src/day_19.py:48 | on the parsed example towels, "bwurrg" can be laid |
| Day19.ExampleBrgr | src/day_19.py:49 | on the parsed example towels, "brgr" can be laid |
| Day19.ExampleBbrgwb | src/day_19.py:50 | on the parsed example towels, "bbrgwb" cannot be laid |
| Day19.CountFlags | src/day_19.py:30 | knowing which patterns are solvable gives the count |
| Day19.ExampleDesign | src/day_19.py:40-50 | on the parsed example towels and designs, each design is solvable exactly as its flag says |
| Day19.ExamplePart1 | src/day_19.py:53-55 | on the parsed example towels and designs, six of the eight designs can be laid |
| Day20.LastInRow | src/day_20.py:14-20 | the rightmost position of a character on a line, or none when the line lacks it |
| Day20.LastIn | src/day_20.py:13-20 | the last cell holding the character in reading order, which is the one the loop leaves in start or end |
| Day20.LatestUnique | src/day_20.py:13-20 | the last-occurrence property determines the cell |
| Day20.ScanGrid | src/day_20.py:10-20 | the nested loops collect every non-wall cell and remember the last S and the last E |
| Day20.ManhattanMetric | src/day_20.py:32-33 | the distance is non-negative, symmetric and zero only between equal cells |
| Day20.ManhattanTriangle | src/day_20.py:32-33 | the distance obeys the triangle inequality |
| Day20.NextFrom | src/day_20.py:24-27 | the first of the candidate steps from a given one on that is on the track and not yet on the path |
| Day20.Next | src/day_20.py:24-27 | a step taken is a track cell one apart from the path's end and not on the path; none is taken only when no neighbour is open |
| Day20.Fewer | src/day_20.py:25-26 | each appended cell leaves fewer track cells off the path, so the walk ends |
| Day20.Extend | src/day_20.py:24-27 | a greedy step keeps the path a repeat-free walk on the track from the start |
| Day20.FollowTrack | src/day_20.py:22-27 | the while loop builds a repeat-free track walk from the start, ending at E when it is reached |
| Day20.ParseInput | src/day_20.py:9-29 | parse_input returns a repeat-free walk on the track from S, which ends at E exactly when it is reached |
| Day20.Index | src/day_20.py:40-41 | `path.index(p)` is the first position holding p |
| Day20.IndexDistinct | src/day_20.py:40-41 | on a path without repeats index gives back the position |
| Day20.CheatOnTrail | src/day_20.py:38-43 | on such a path a pair counts exactly when it is at most 2 apart and more than 2 steps along the path, saving the steps less 2 |
| Day20.SavingsAre | src/day_20.py:38-44 | the savings recorded are exactly those of the pairs counted |
| Day20.SavingsPositive | src/day_20.py:39-44 | every recorded saving is positive and comes from two cells at most 2 apart |
| Day20.CountStep | src/day_20.py:39-44 | one pair adds its saving to the tally, if it has one |
| Day20.CountCheats | src/day_20.py:36-46 | count_cheets holds, for each saving, the number of pairs of combinations(path, 2) that give it |
| Day20.CountFrom | src/day_20.py:38-44 | the pairs whose first cell is path[i] add their savings to the tally |
| Day20.SumBig | src/day_20.py:53 | summing the counts of the savings of at least 100 gives the number of such pairs |
| Day20.Part1 | src/day_20.py:49-53 | part_1 is the number of cheats saving at least 100 along the parsed path |
| Day21.CellsListed | src/day_21.py:28-38 | the key cells written out: the numeric pad lacks (0, 3), the directional pad lacks (0, 0) |
| Day21.CellsAreKeyCells | src/day_21.py:52 | `keypad.values()` holds exactly the cells of the keys |
| Day21.KeysDistinct | src/day_21.py:28-38 | no key appears twice in a keypad |
| Day21.LookupAt | src/day_21.py:74 | `keypad[key]` finds a key at its entry |
| Day21.MoveIndex | src/day_21.py:41-46 | each move key has its entry in the direction table |
| Day21.PopEntry | src/day_21.py:54-64 | popping an entry yields its path plus "A" when it stands on the end, then queues its children |
| Day21.PopQueue | src/day_21.py:54-64 | one iteration keeps "yielded so far + still to come" equal and shrinks the remaining work |
| Day21.FindPaths | src/day_21.py:49-64 | find_paths yields the paths of the reference enumeration |
| Day21.Search | src/day_21.py:54-64 | the search loop yields every path the enumeration from the start entry gives |
| Day21.PushChildren | src/day_21.py:60-64 | the inner loop queues one entry per direction whose next cell is a key cell not yet visited |
| Day21.Trace | src/day_21.py:61 | replaying moves from a cell passes one cell per move, starting at that cell |
| Day21.ReachesStep | src/day_21.py:60-64 | a path that starts with a move is that move followed by a path from the next cell |
| Day21.PathsFromSound | src/day_21.py:54-64 | everything yielded from an entry is its path so far followed by a simple path to the end |
| Day21.PathsFromComplete | src/day_21.py:54-64 | every such path is yielded |
| Day21.FindPathsIff | src/day_21.py:49-64 | a string is yielded exactly when it is a repeat-free walk of moves over key cells from start to end, followed by "A" |
| Day21.YieldedKeystrokes | src/day_21.py:58 | every yielded string is zero or more moves then "A", all keys of the directional pad |
| Day21.YieldedNonEmpty | src/day_21.py:49-64 | between two key cells at least one path is yielded |
| Day21.GapIsNoKey | src/day_21.py:28-38 | the gap of each pad is no key cell |
| Day21.ReplayAvoidsGap | src/day_21.py:62 | replaying a yielded path stays on key cells, so it never crosses the gap |
| Day21.YieldedLengthBound | src/day_21.py:62-64 | a yielded path never revisits a cell, so it has at most one keystroke per key of the pad |
| Day21.CellCounts | src/day_21.py:28-38 | the numeric pad has eleven key cells and the directional pad five |
| Day21.CellsCounted | src/day_21.py:52 | distinct keys sit on distinct cells, so there are as many cells as keys |
| Day21.NoReturn | src/day_21.py:62 | once the end is visited and left behind, nothing more is yielded |
| Day21.SameKeyOnlyPress | src/day_21.py:57-58 | from a key to itself the only path yielded is "A" |
| Day21.ShortestIsMinimum | src/day_21.py:72-83 | no paths raise NoSolutionError; otherwise the result is the cost of one path and no path costs less |
| Day21.PathBetweenCostPositive | src/day_21.py:68-83 | every key transition costs at least one press |
| Day21.PathCostAtLeastLength | src/day_21.py:87-91 | a code costs at least one press per key |
| Day21.DepthZeroCostsLength | src/day_21.py:69-70 | with no keypad in between a code costs its length |
| Day21.SameKeyCostsOne | src/day_21.py:68-83 | pressing the key the arm rests on costs one press at every depth |
| Day21.ActivateCostsOne | src/day_21.py:87-91 | typing "A" on the directional pad costs one press at every depth |
| Day21.SameKeyStep | src/day_21.py:74-78 | above depth zero, staying on a key means typing "A" one keypad further out |
| Day21.PressOnce | src/day_21.py:89-90 | a one-key code is one transition from "A", where the arm starts |
| Day21.DepthOneIsShortestPath | src/day_21.py:72-83 | one keypad above, a transition costs the length of the shortest yielded path |
| Day21.PathCostAppend | src/day_21.py:87-91 | paths end in "A", so typing one after another costs the sum of typing each |
| Day21.UnknownKeyFails | src/day_21.py:74 | a key the keypad lacks raises KeyError once an arm must move to it |
| Day21.ShortestErrPersists | src/day_21.py:74-78 | an exception while costing a path is the exception of the whole minimum |
| Day21.PathCostErrPersists | src/day_21.py:89-90 | an exception while costing a prefix of the code is the exception of the whole code |
| Day21.PathCache.constructor | src/day_21.py:67-68 | the two caches start empty |
| Day21.PathCache.GetPathBetween | src/day_21.py:67-83 | get_path_between returns the cost of the transition, and every cached entry stays that cost |
| Day21.PathCache.CheapestPath | src/day_21.py:74-83 | the cheapest of the paths between two cells, one keypad further out |
| Day21.PathCache.MinPathCost | src/day_21.py:74-83 | the loop over the yielded paths keeps the cheapest cost so far |
| Day21.PathCache.GetPath | src/day_21.py:86-91 | get_path returns the cost of typing the code, and every cached entry stays that cost |
| Day21.PathCache.SumPath | src/day_21.py:88-91 | the loop of get_path adds the costs of each consecutive pair of keys |
| Day21.SumComplexity | src/day_21.py:96-102 | the loop of part_1 adds each code's cost times its number |
| Day21.TotalComplexityGrows | src/day_21.py:100 | a code that succeeds adds its complexity to the total |
| Day21.TotalComplexityErrPersists | src/day_21.py:98-100 | an exception on one code is the exception of the whole total |
| Day21.Part1 | src/day_21.py:94-102 | part_1 is the total complexity with three keypads in the chain |
| Day21.Part2 | src/day_21.py:105-113 | part_2 is the total complexity with twenty-six keypads in the chain |
| Day22.Mix | src/day_22.py:8-9 | Python's `^` on integers of either sign: the magnitudes are xor-ed and the result is negative exactly when one operand is |
| Day22.MixCommutes | src/day_22.py:8-9 | mixing is symmetric |
| Day22.MixSelf | src/day_22.py:8-9 | a number mixed with itself is 0 |
| Day22.ExampleMix | src/day_22.py:80-81 | mix(42, 15) is 37 |
| Day22.Prune | src/day_22.py:12-13 | prune is the remainder below 16777216 that differs from n by a multiple of it |
| Day22.ExamplePrune | src/day_22.py:84-85 | prune(100000000) is 16113920 |
| Day22.Stages | src/day_22.py:23-25 | every stage of secret_number leaves a number below 2 ** 24 |
| Day22.Secret | src/day_22.py:20-27 | a secret number is below 2 ** 24 |
| Day22.SecretIs | src/day_22.py:20-27 | a secret worked out stage by stage, with each mix and prune written out, is secret_number's result |
| Day22.ExampleSecretsStart | src/day_22.py:71-77 | the first five of the ten secrets after 123 are 15887950, 16495136, 527345, 704524, 1553684 |
| Day22.ExampleSecretsEnd | src/day_22.py:71-77 | the last five are 12683156, 11100544, 12249484, 7753432, 5908254 |
| Day22.Cost | src/day_22.py:30-31 | the price is the secret's last decimal digit |
| Day22.Evolve | src/day_22.py:39-40 | a secret after at least one step is below 2 ** 24 |
| Day22.EvolveShift | src/day_22.py:39-40 | evolving k + 1 times is evolving k times from the first secret |
| Day22.NumbersRead | src/day_22.py:37 | `map(int, ...)` fails exactly when some line is not a number, and otherwise reads every line in order |
| Day22.Finals | src/day_22.py:37-41 | there is one final secret per buyer |
| Day22.Evolved | src/day_22.py:38-40 | the inner loop computes a buyer's 2000th secret |
| Day22.FinalsExtend | src/day_22.py:37-41 | the finals of one more buyer end with that buyer's 2000th secret |
| Day22.Part1 | src/day_22.py:34-43 | part_1 is the parse error or the sum of every buyer's 2000th secret |
| Day22.SumFinalsBounded | src/day_22.py:43 | the sum lies in [0, 2 ** 24 times the number of buyers) |
| Day22.Prices | src/day_22.py:53-56 | a buyer's prices are that of the seed and of the next k secrets |
| Day22.Changes | src/day_22.py:57 | there is one price change between each two consecutive prices |
| Day22.Recent | src/day_22.py:51 | `deque(maxlen=4)` holds the last (up to) four entries |
| Day22.PushRecent | src/day_22.py:57 | appending to the bounded deque keeps it equal to the last four entries |
| Day22.Window | src/day_22.py:58 | a window is four price changes |
| Day22.WindowsPrefix | src/day_22.py:54-60 | every window of a prefix of the prices is a window of the whole run |
| Day22.SalesGrow | src/day_22.py:58-59 | one more price records at most its own window |
| Day22.SalesHas | src/day_22.py:58-59 | a window is recorded exactly when it occurs in the run |
| Day22.SalesFirst | src/day_22.py:58-59 | the recorded price is the one at the window's first occurrence |
| Day22.RecentWindow | src/day_22.py:57-58 | the deque's four changes are the run's last window |
| Day22.ChangesExtend | src/day_22.py:57 | extending a run of prices adds one change |
| Day22.Record | src/day_22.py:57-60 | one round keeps the deque equal to the last four changes and the record equal to the first price of each window seen |
| Day22.Sell | src/day_22.py:50-60 | the inner loop records for one buyer the first price of every window of four changes |
| Day22.Buyers | src/day_22.py:49-60 | there is one record per buyer |
| Day22.MarketIs | src/day_22.py:62-63 | the market holds the windows some buyer sees, each with the sum of the buyers' first prices for it |
| Day22.MarketEmpty | src/day_22.py:49-65 | the market is empty exactly when there is no buyer, as 2000 secrets always give a window |
| Day22.Deposit | src/day_22.py:62-63 | the loop adds one buyer's sales to the bananas |
| Day22.Largest | src/day_22.py:65 | `max(bananas.values())` raises ValueError exactly on an empty dict and is otherwise the largest value |
| Day22.Part2 | src/day_22.py:46-65 | part_2 is the largest total one window earns over all buyers, or ValueError for a bad line or no buyers |
| Day23.LinkRead | src/day_23.py:9 | a link written `a-b` reads back as the pair when neither name holds a dash |
| Day23.LinksRead | src/day_23.py:9-10 | reading fails exactly when some line is not two names joined by one dash; otherwise every line is read in order |
| Day23.NetworkNames | src/day_23.py:8-12 | the graph holds exactly the computers the links name |
| Day23.NetworkLinks | src/day_23.py:10-12 | b is a neighbour of a exactly when some link joins them |
| Day23.NetworkSymmetric | src/day_23.py:11-12 | the graph map_input builds is undirected |
| Day23.MapInput | src/day_23.py:7-14 | the loop over the links builds the graph of the links |
| Day23.GroupsAreTriangles | src/day_23.py:24-30 | three different computers form a group exactly when each two are connected |
| Day23.GroupsSmall | src/day_23.py:30 | every group found has two or three computers |
| Day23.Combinations | src/day_23.py:28-30 | the pairs of v's neighbours add exactly the groups closed at v |
| Day23.Pair | src/day_23.py:28-30 | the pairs with a given first neighbour add exactly the groups they close |
| Day23.GroupsOfThree | src/day_23.py:19-30 | the loop over graph.items() finds every group; the `checked` skip never fires as `checked` stays empty |
| Day23.ChiefsAdd | src/day_23.py:32-34 | one more group adds one to the count exactly when it has a computer whose name starts with 't' |
| Day23.ChiefsNone | src/day_23.py:32-34 | the count is at most the number of groups, and zero exactly when no group has a 't' computer |
| Day23.CountChiefs | src/day_23.py:32-34 | the loop counts the groups with a 't' computer |
| Day23.Part1 | src/day_23.py:17-36 | part_1 is the reading error or the number of groups of three with a 't' computer |
| Day24.ParseOp | src/day_24.py:18-22 | parse_op accepts exactly AND, OR and XOR, and raises ValueError on anything else |
| Day24.RuleLineRead | src/day_24.py:31-33 | a gate written `a OP b -> c` reads back as the rule when no wire name holds a space |
| Day24.UnknownOp | src/day_24.py:31-32 | a gate line whose operator is none of the three is a ValueError |
| Day24.RulesFail | src/day_24.py:30-33 | reading the gates fails exactly when some line does |
| Day24.RulesRead | src/day_24.py:29-33 | every rule is stored under its own output wire, the key order lists each key once, and each line's output wire is a key |
| Day24.ParseInput | src/day_24.py:12-35 | parse_input stores every rule under its output wire, in first-insertion key order |
| Day24.ReadWires | src/day_24.py:24-27 | the first loop reads each wire's starting value |
| Day24.FailureStays | src/day_24.py:25-27 | once a wire line fails, reading fails with that error whatever follows |
| Day24.RuleFailureStays | src/day_24.py:30-33 | once a gate line fails, reading fails with that error whatever follows |
| Day24.ReadRules | src/day_24.py:29-33 | the second loop reads the gates |
| Day24.Parse | src/day_24.py:12-35 | parse_input, with its loops, reads the puzzle as specified |
| Day24.Evaluate | src/day_24.py:38-54 | apply_rule only adds wires, among them the gate's output and inputs, and never changes a wire other than its output |
| Day24.Input | src/day_24.py:41-44 | evaluating a missing input puts it on a wire and changes no existing wire |
| Day24.Apply | src/day_24.py:38-54 | the recursive apply_rule computes the reference evaluation |
| Day24.EvaluateSettled | src/day_24.py:38-54 | on settled wires evaluating keeps them settled, and a gate already on a wire is recomputed to the same value |
| Day24.SettledAgain | src/day_24.py:46-52 | a gate already on settled wires holds its value and its inputs need no evaluation |
| Day24.SettledWrite | src/day_24.py:46-52 | writing a gate's value with its inputs on wires keeps the wires settled |
| Day24.InputSettled | src/day_24.py:41-44 | evaluating a missing input keeps settled wires settled |
| Day24.RunSettles | src/day_24.py:60-61 | a run that ends without an error leaves settled wires settled |
| Day24.RunCovers | src/day_24.py:60-61 | a run that ends without an error has put every gate it evaluated on a wire |
| Day24.RunKeeps | src/day_24.py:60-61 | a run only adds wires |
| Day24.Undriven | src/day_24.py:24-27 | starting wires that no gate drives are settled |
| Day24.Evaluated | src/day_24.py:60-61 | the loop of part_1 over the rules computes the reference run |
| Day24.CircuitSettles | src/day_24.py:57-61 | when no gate drives a starting wire, a run without error leaves each gate's output holding its operator applied to its inputs |
| Day24.BelowIrreflexive | src/day_24.py:63 | no name sorts below itself |
| Day24.BelowTransitive | src/day_24.py:63 | the string order is transitive |
| Day24.BelowTotal | src/day_24.py:63 | any two different names are ordered one way or the other |
| Day24.LeastExists | src/day_24.py:63 | every non-empty set of names has exactly one least name |
| Day24.SortedNamesIncreasing | src/day_24.py:63 | sorted lists the names once each, in increasing order |
| Day24.SortedNamesUnique | src/day_24.py:63 | an increasing list of exactly the names is the sorted one |
| Day24.ZWires | src/day_24.py:63 | the z-wires are wires |
| Day24.Bits | src/day_24.py:64 | there is one bit per z-wire |
| Day24.LowestBit | src/day_24.py:63-67 | reading fails exactly when no wire starts with 'z'; otherwise the lowest bit of the number is the value of the first z-wire by name |
| Day24.Part1 | src/day_24.py:57-67 | part_1 is the reference answer of the puzzle |
| Day25.FilledBound | src/day_25.py:15 | no column holds more '#' cells than there are rows; it holds that many exactly when all are '#', none exactly when none are |
| Day25.Item | src/day_25.py:13-15 | an item reads exactly when the block's lines are at least as long as the first, and is then the columns' heights |
| Day25.Columns | src/day_25.py:15 | one height per column of the first line, each between -1 and one less than the number of lines |
| Day25.SchematicsErr | src/day_25.py:13-19 | reading fails exactly when some block is not rectangular |
| Day25.SchematicsRead | src/day_25.py:13-21 | every block's item is among the keys when it starts with '#' and among the locks otherwise, in order |
| Day25.ParseInput | src/day_25.py:9-21 | parse_input reads the blocks as specified |
| Day25.SchematicsFail | src/day_25.py:13-19 | once a block fails, reading fails whatever follows |
| Day25.CheckFit | src/day_25.py:24-28 | a key at least as wide as the lock fits exactly when every column sum is at most five; a narrower key raises IndexError unless a column before its end overlaps |
| Day25.FitsSymmetric | src/day_25.py:24-28 | for schematics of the same width fits(lock, key) is fits(key, lock) |
| Day25.Fits | src/day_25.py:24-28 | the loop of fits decides the column test |
| Day25.Product | src/day_25.py:36 | product(keys, locks) has one pair per key and lock |
| Day25.ProductAt | src/day_25.py:36 | pair k * len(locks) + l is key k with lock l |
| Day25.Tally | src/day_25.py:34-38 | the count never exceeds the number of pairs |
| Day25.TallyCounts | src/day_25.py:34-40 | when all schematics are equally wide the count is the number of pairs that fit |
| Day25.Part1 | src/day_25.py:31-40 | part_1 is the reference answer of the puzzle |
| Day25.Count | src/day_25.py:34-40 | the loop over the product counts as the reference does |
| Day25.TallyFail | src/day_25.py:36-38 | once a pair raises, the count raises whatever follows |
| Day25.ExampleKey | src/day_25.py:93-101 | the key schematic of the parse test, given as its lines, reads as the heights 0, 5, 3, 4, 3 |
| Day25.ExampleKeyColumn | src/day_25.py:93-101 | its columns hold 1, 6, 4, 5, 4 '#' cells |
| Day25.ExampleLock | src/day_25.py:104-112 | the lock schematic of the parse test, given as its lines, reads as the heights 5, 0, 2, 1, 3 |
| Day25.ExampleLockColumn | src/day_25.py:104-112 | its columns hold 6, 1, 3, 2, 4 '#' cells |
| Day25.ExampleFits | src/day_25.py:50-90 | on the parsed example's two keys and three locks, key 0 fits lock 2 and key 1 fits locks 1 and 2 |
| Day25.ExampleCount | src/day_25.py:115-117 | on the parsed example heights, three of the six pairs fit |
| Day25.ExamplePairs | src/day_25.py:36-38 | on the parsed example heights, the six pairs are all five wide, and the fitting ones are pairs 2, 4 and 5 |

## Left out

**Input reading.** These parsers are not modelled; the model takes their result as parameters:
- day 1: the two columns are read from the text; Part1 takes the (first, last) number of each line.
- day 2: the reports.
- day 5: process_input.
- day 7: parse_input.
- day 11: parse_input.
- day 13: parse_input and parse_line, which uses a regular expression.
- day 14: parse_input, which uses a regular expression.
- day 16: parse_input; the walls, start and end are given.

**Stubs.** part_2 is `pass` in the source, so there is nothing to model, on days 1, 5, 8, 9, 10,
12, 15, 17, 18, 19, 20, 23, 24 and 25.

**Arithmetic and output:**
- Floating point and complex numbers: the positions held as `complex` are integer points, and
  day 13's float solution is floor division on integers.
- Python's recursion limit is not modelled. A RecursionError appears on two days: on day 7,
  as the error of `calculate` on a calibration with no values, which recurses without end; and
  on day 24, as the error for a gate that needs its own output.
- `int()` on text with surrounding whitespace, underscores or non-ASCII digits is not
  modelled; only an optional sign and ASCII digits are read.
- The debugging output is not modelled: the `draw` methods of days 15 and 18, progress
  printing, and the `__main__` blocks.

**Examples not proved.** These test expectations need evaluating far more steps than a proof
can unfold, so only the general properties are proved:
- day 3: 161 and 48.
- day 4: 18 and 9.
- day 5: 143.
- day 6: 41, 6 and test_looping_error.
- day 7: 3749 and 11387; the single calibration 3267 is proved.
- day 8: 14.
- day 9: 1928 and test_sort_blocks; the disk map 12101 is proved.
- day 10: 36.
- day 11: 55312; one blink is proved.
- day 12: 1930.
- day 16: 7036, 11048 and 45.
- day 18: 22.
- day 20: the histogram.
- day 21: 126384 and the single-code totals.
- day 22: 37327623 and 23.
- day 23: 7.
- day 24: 4 and 2024.

**Weakened or restricted contracts:**
- Day14.Part2: the unbounded `count()` loop takes a `limit`; None means no distinct-positions
  second was found below it.
- Day14.Part1: the robots must be distinct objects. A list holding one robot twice would move
  it twice per second.
- Day16.SolveMaze: proves soundness only. Every reported score is the cost of a legal walk,
  and no kept arrival scores less than the best. That the best is the cheapest walk is not
  proved.
- Day16.SolveMaze: the heap loop takes a `fuel` bound (None when it runs out). The order among
  entries of equal score, which decides which equal-score walks are kept, is not modelled.
- Day16.Part1: inherits SolveMaze's soundness-only contract.
- Day16.Part2: inherits SolveMaze's soundness-only contract.
- Day17.RunProgram: registers and program values are naturals, and the loop takes a `fuel`
  bound. Negative register values are left out (the `Natural` requirement of Day17.Part1), as
  is a program with a negative number.
- Day17.Part1: requires every register and program value to be non-negative.
- Day19.Solve: requires no empty towel. With one, the source's `solve` calls itself on the same
  pattern until Python's recursion limit.
- Day19.Part1: inherits that requirement.
- Day20.FollowTrack: the source loops forever when the path gets stuck before E. The model
  stops and reports Stuck, and Day20.Part1 returns None there.
- Day21.FindPaths: yields its paths in depth-first order, not the heap order of the source.
  Only the set of paths matters to the minimum taken from them.
- Day21.PathCache.GetPath: states that the caches only grow and every entry stays correct, not
  which entries a call adds. As with Python's `@cache`, a call that raises stores nothing.
- Day23.Chief: a computer with an empty name counts as not starting with 't'. Python would
  raise IndexError there, depending on set iteration order.
- Day23.GroupsOfThree: requires the graph to be undirected, which map_input guarantees
  (Day23.NetworkSymmetric).
- Day24.CircuitSettles: is stated for runs that end without an error. No lemma shows that an
  acyclic circuit always ends without an error.
- Day18.Search: the set of history cells and the grid drawing are not modelled; they only
  feed the drawing.
