/**
 * Disk fragmenter (src/day_09.py): a disk map of digits alternates file and free runs; part_1
 * moves file blocks one at a time from the end into the leftmost free block and sums
 * position * file id.
 */
module Day09 {
  import opened Common

  /** A block of the disk: part of the file with this id, or free ("."). */
  datatype Block = File(id: nat) | Free

  datatype Failure = ValueError

  /** The characters `str.strip()` removes: those `str.isspace()` holds for. */
  predicate IsSpace(c: char) {
    ('\t' <= c <= '\r') || ('\U{001C}' <= c <= ' ') || c == '\U{0085}' || c == '\U{00A0}' || c == '\U{1680}'
    || ('\U{2000}' <= c <= '\U{200A}') || c == '\U{2028}' || c == '\U{2029}' || c == '\U{202F}'
    || c == '\U{205F}' || c == '\U{3000}'
  }

  function StripStart(s: string): (r: string)
    ensures r == [] || !IsSpace(r[0])
  {
    if s != [] && IsSpace(s[0]) then StripStart(s[1..]) else s
  }

  function StripEnd(s: string): (r: string)
    ensures r == [] || !IsSpace(r[|r| - 1])
  {
    if s != [] && IsSpace(s[|s| - 1]) then StripEnd(s[..|s| - 1]) else s
  }

  function Strip(s: string): string {
    StripEnd(StripStart(s))
  }

  function Repeat(b: Block, n: nat): (r: seq<Block>)
    ensures |r| == n && forall i :: 0 <= i < n ==> r[i] == b
  {
    if n == 0 then [] else Repeat(b, n - 1) + [b]
  }

  /** The block of the i-th run: runs alternate file, free, file, ... and file ids count up from 0. */
  function RunBlock(i: nat): Block {
    if i % 2 == 0 then File(i / 2) else Free
  }

  /** Run 2k is file k and run 2k + 1 is free. */
  lemma RunBlocks(k: nat)
    ensures RunBlock(2 * k) == File(k) && RunBlock(2 * k + 1) == Free
  {
  }

  /** The blocks of a disk map of digits. */
  function Layout(digits: string): seq<Block>
    requires AllDigits(digits)
  {
    if digits == [] then []
    else
      var n := |digits| - 1;
      Layout(digits[..n]) + Repeat(RunBlock(n), (digits[n] - '0') as nat)
  }

  function DigitSum(digits: string): nat
    requires AllDigits(digits)
  {
    if digits == [] then 0 else DigitSum(digits[..|digits| - 1]) + (digits[|digits| - 1] - '0') as nat
  }

  /** parse_input: `int(size)` for each character of the stripped text, extending by that many blocks. */
  method ParseInput(puzzle: string) returns (r: Result<seq<Block>, Failure>)
    ensures AllDigits(Strip(puzzle)) ==> r == Ok(Layout(Strip(puzzle)))
    ensures !AllDigits(Strip(puzzle)) ==> r == Err(ValueError)
  {
    var s := Strip(puzzle);
    var blocks := [];
    var id := 0;
    var isFile := true;
    for i := 0 to |s|
      invariant AllDigits(s[..i]) && blocks == Layout(s[..i])
      invariant if isFile then i == 2 * id else i + 1 == 2 * id
    {
      if !IsDigit(s[i]) {
        return Err(ValueError);
      }
      var value := if isFile then File(id) else Free;
      RunBlocks(if isFile then id else id - 1);
      LayoutPrefix(s, i);
      blocks := blocks + Repeat(value, (s[i] - '0') as nat);
      if isFile {
        id := id + 1;
      }
      isFile := !isFile;
    }
    assert s[..|s|] == s;
    return Ok(blocks);
  }

  /** The layout of one more character of a text of digits. */
  lemma LayoutPrefix(s: string, i: nat)
    requires i < |s| && AllDigits(s[..i]) && IsDigit(s[i])
    ensures AllDigits(s[..i + 1])
    ensures Layout(s[..i + 1]) == Layout(s[..i]) + Repeat(RunBlock(i), (s[i] - '0') as nat)
  {
    assert s[..i + 1] == s[..i] + [s[i]];
    LayoutSnoc(s[..i], s[i]);
  }

  /** The layout has one block per unit of the digits: its length is their sum. */
  lemma {:induction false} LayoutLength(digits: string)
    requires AllDigits(digits)
    ensures |Layout(digits)| == DigitSum(digits)
  {
    if digits != [] {
      LayoutLength(digits[..|digits| - 1]);
    }
  }

  /** Run k of the layout starts after the digits before it and holds the k-th run's block. */
  lemma {:induction false} LayoutRuns(digits: string, k: nat, j: nat)
    requires AllDigits(digits) && k < |digits| && j < (digits[k] - '0') as nat
    ensures DigitSum(digits[..k]) + j < |Layout(digits)|
    ensures Layout(digits)[DigitSum(digits[..k]) + j] == RunBlock(k)
  {
    var n := |digits| - 1;
    var init := digits[..n];
    LayoutLength(init);
    if k == n {
      assert digits[..k] == init;
    } else {
      assert init[..k] == digits[..k];
      LayoutRuns(init, k, j);
    }
  }

  function FreeCount(blocks: seq<Block>): nat {
    multiset(blocks)[Free]
  }

  /** No file block after a free one. */
  predicate Compacted(blocks: seq<Block>) {
    forall i, j :: 0 <= i < j < |blocks| && blocks[i].Free? ==> blocks[j].Free?
  }

  /**
   * The disk after compaction: a file block in front stays, a free block at the back stays, and
   * otherwise the leftmost free block takes the rightmost file block; what lies between is
   * compacted the same way.
   */
  function Compact(s: seq<Block>): seq<Block>
    decreases |s|
  {
    if s == [] then []
    else if s[0].File? then [s[0]] + Compact(s[1..])
    else if s[|s| - 1].Free? then Compact(s[..|s| - 1]) + [Free]
    else [s[|s| - 1]] + Compact(s[1..|s| - 1]) + [Free]
  }

  lemma CompactFront(s: seq<Block>)
    requires s != [] && s[0].File?
    ensures Compact(s) == [s[0]] + Compact(s[1..])
  {
  }

  lemma CompactBack(s: seq<Block>)
    requires s != [] && s[0].Free? && s[|s| - 1].Free?
    ensures Compact(s) == Compact(s[..|s| - 1]) + [Free]
  {
  }

  lemma CompactMove(s: seq<Block>)
    requires s != [] && s[0].Free? && s[|s| - 1].File?
    ensures Compact(s) == [s[|s| - 1]] + Compact(s[1..|s| - 1]) + [Free]
  {
  }

  /** Compaction keeps the blocks, moved about. */
  lemma {:induction false} CompactPermutes(s: seq<Block>)
    ensures |Compact(s)| == |s| && multiset(Compact(s)) == multiset(s)
    decreases |s|
  {
    if s == [] {
    } else if s[0].File? {
      CompactPermutes(s[1..]);
      PermutesFront(s);
    } else if s[|s| - 1].Free? {
      CompactPermutes(s[..|s| - 1]);
      PermutesBack(s);
    } else {
      CompactPermutes(s[1..|s| - 1]);
      PermutesMove(s);
    }
  }

  lemma PermutesFront(s: seq<Block>)
    requires s != [] && s[0].File?
    requires var t := s[1..]; |Compact(t)| == |t| && multiset(Compact(t)) == multiset(t)
    ensures |Compact(s)| == |s| && multiset(Compact(s)) == multiset(s)
  {
    var t := s[1..];
    CompactFront(s);
    assert s == [s[0]] + t;
  }

  lemma PermutesBack(s: seq<Block>)
    requires s != [] && s[0].Free? && s[|s| - 1].Free?
    requires var t := s[..|s| - 1]; |Compact(t)| == |t| && multiset(Compact(t)) == multiset(t)
    ensures |Compact(s)| == |s| && multiset(Compact(s)) == multiset(s)
  {
    var t := s[..|s| - 1];
    CompactBack(s);
    assert s == t + [Free];
  }

  lemma PermutesMove(s: seq<Block>)
    requires s != [] && s[0].Free? && s[|s| - 1].File?
    requires var t := s[1..|s| - 1]; |Compact(t)| == |t| && multiset(Compact(t)) == multiset(t)
    ensures |Compact(s)| == |s| && multiset(Compact(s)) == multiset(s)
  {
    CompactMove(s);
    EndsSwapped(s, Compact(s), Compact(s[1..|s| - 1]));
  }

  /** Swapping the two end blocks around a rearranged middle rearranges the whole. */
  lemma EndsSwapped(s: seq<Block>, c: seq<Block>, m: seq<Block>)
    requires |s| >= 2 && s[0].Free? && c == [s[|s| - 1]] + m + [Free]
    requires |m| == |s| - 2 && multiset(m) == multiset(s[1..|s| - 1])
    ensures |c| == |s| && multiset(c) == multiset(s)
  {
    assert s == [Free] + s[1..|s| - 1] + [s[|s| - 1]];
  }

  /** Compaction leaves no file block after a free one. */
  lemma {:induction false} CompactCompacts(s: seq<Block>)
    ensures Compacted(Compact(s))
    decreases |s|
  {
    if s == [] {
    } else if s[0].File? {
      CompactCompacts(s[1..]);
      FileInFront(s[0], Compact(s[1..]));
    } else if s[|s| - 1].Free? {
      CompactCompacts(s[..|s| - 1]);
      FreeBehind(Compact(s[..|s| - 1]));
    } else {
      var mid := s[1..|s| - 1];
      CompactCompacts(mid);
      FreeBehind(Compact(mid));
      FileInFront(s[|s| - 1], Compact(mid) + [Free]);
    }
  }

  lemma FileInFront(b: Block, t: seq<Block>)
    requires b.File? && Compacted(t)
    ensures Compacted([b] + t)
  {
    var u := [b] + t;
    forall i, j | 0 <= i < j < |u| && u[i].Free?
      ensures u[j].Free?
    {
      assert u[i] == t[i - 1] && u[j] == t[j - 1];
    }
  }

  lemma FreeBehind(t: seq<Block>)
    requires Compacted(t)
    ensures Compacted(t + [Free])
  {
  }

  /**
   * A file block among the first |s| - FreeCount(s) positions, where the files end up, is never
   * moved: only file blocks beyond that region are moved into free blocks before it.
   */
  lemma {:induction false} CompactKeepsFiles(s: seq<Block>, i: int)
    requires 0 <= i < |s| - FreeCount(s) && s[i].File?
    ensures |Compact(s)| == |s| && Compact(s)[i] == s[i]
    decreases |s|
  {
    CompactPermutes(s);
    if s[0].File? {
      if i > 0 {
        KeepsFront(s, i);
        CompactKeepsFiles(s[1..], i - 1);
        KeptFront(s, i);
      } else {
        CompactFront(s);
      }
    } else if s[|s| - 1].Free? {
      KeepsBack(s, i);
      CompactKeepsFiles(s[..|s| - 1], i);
      KeptBack(s, i);
    } else {
      KeepsMove(s, i);
      CompactKeepsFiles(s[1..|s| - 1], i - 1);
      KeptMove(s, i);
    }
  }

  lemma KeptFront(s: seq<Block>, i: int)
    requires 0 < i < |s| && s[0].File?
    requires var t := s[1..]; |Compact(t)| == |t| && Compact(t)[i - 1] == s[i]
    ensures Compact(s)[i] == s[i]
  {
    CompactFront(s);
  }

  lemma KeptBack(s: seq<Block>, i: int)
    requires 0 <= i < |s| - 1 && s[0].Free? && s[|s| - 1].Free?
    requires var t := s[..|s| - 1]; |Compact(t)| == |t| && Compact(t)[i] == s[i]
    ensures Compact(s)[i] == s[i]
  {
    CompactBack(s);
  }

  lemma KeptMove(s: seq<Block>, i: int)
    requires 0 < i < |s| - 1 && s[0].Free? && s[|s| - 1].File?
    requires var t := s[1..|s| - 1]; |Compact(t)| == |t| && Compact(t)[i - 1] == s[i]
    ensures Compact(s)[i] == s[i]
  {
    CompactMove(s);
  }

  /** The file region of the rest, after a file block in front. */
  lemma KeepsFront(s: seq<Block>, i: int)
    requires 0 < i < |s| - FreeCount(s) && s[0].File?
    ensures var t := s[1..]; 0 <= i - 1 < |t| - FreeCount(t) && t[i - 1] == s[i]
  {
    var t := s[1..];
    assert s == [s[0]] + t;
    assert FreeCount(t) == FreeCount(s);
  }

  /** The file region without a free block at the back. */
  lemma KeepsBack(s: seq<Block>, i: int)
    requires 0 <= i < |s| - FreeCount(s) && s[|s| - 1].Free?
    ensures var t := s[..|s| - 1]; i < |t| - FreeCount(t) && t[i] == s[i]
  {
    var t := s[..|s| - 1];
    assert s == t + [Free];
    assert FreeCount(t) == FreeCount(s) - 1;
  }

  /** The file region of what lies between a free block in front and a file block at the back. */
  lemma KeepsMove(s: seq<Block>, i: int)
    requires 0 <= i < |s| - FreeCount(s) && s[i].File? && s[0].Free? && s[|s| - 1].File?
    ensures var t := s[1..|s| - 1]; 0 <= i - 1 < |t| - FreeCount(t) && t[i - 1] == s[i]
  {
    var t := s[1..|s| - 1];
    assert s == [s[0]] + t + [s[|s| - 1]];
    assert FreeCount(t) == FreeCount(s) - 1;
  }

  /** Compaction of at most one block changes nothing. */
  lemma CompactShort(s: seq<Block>)
    requires |s| <= 1
    ensures Compact(s) == s
  {
    if s != [] && s[0].Free? {
      assert s[..0] == [];
    }
  }

  /** Compacting ignores free blocks at the back. */
  lemma {:induction false} CompactFreeBack(s: seq<Block>)
    ensures Compact(s + [Free]) == Compact(s) + [Free]
    decreases |s|
  {
    var t := s + [Free];
    if s != [] && s[0].File? {
      assert t[1..] == s[1..] + [Free];
      CompactFreeBack(s[1..]);
    } else {
      assert t[..|t| - 1] == s;
    }
  }

  /** Compacting ignores file blocks in front. */
  lemma {:induction false} CompactFilesFront(f: seq<Block>, s: seq<Block>)
    requires forall i :: 0 <= i < |f| ==> f[i].File?
    ensures Compact(f + s) == f + Compact(s)
    decreases |f|
  {
    if f != [] {
      var t := f + s;
      assert t[0] == f[0] && t[1..] == f[1..] + s;
      CompactFilesFront(f[1..], s);
    } else {
      assert f + s == s;
    }
  }

  lemma {:induction false} CompactFreesBack(s: seq<Block>, b: seq<Block>)
    requires forall i :: 0 <= i < |b| ==> b[i].Free?
    ensures Compact(s + b) == Compact(s) + b
    decreases |b|
  {
    if b != [] {
      var init := b[..|b| - 1];
      assert s + b == (s + init) + [Free];
      CompactFreeBack(s + init);
      CompactFreesBack(s, init);
      assert b == init + [Free];
    } else {
      assert s + b == s;
    }
  }

  /** sort_blocks' loop state: file blocks before `left`, free blocks after `right`. */
  ghost predicate Scanned(a: seq<Block>, left: int, right: int) {
    0 <= left <= right + 1 <= |a|
    && (forall i :: 0 <= i < left ==> a[i].File?)
    && (forall i :: right < i < |a| ==> a[i].Free?)
  }

  /** With the scans' blocks settled, compacting the disk is compacting what lies between them. */
  lemma Between(a: seq<Block>, left: int, right: int)
    requires Scanned(a, left, right)
    ensures Compact(a) == a[..left] + Compact(a[left..right + 1]) + a[right + 1..]
  {
    var f, m, b := a[..left], a[left..right + 1], a[right + 1..];
    assert a == f + (m + b);
    CompactFilesFront(f, m + b);
    CompactFreesBack(m, b);
  }

  /** Moving the last block, a file, into the first, a free one, does not change the compaction. */
  lemma SwappedEnds(x: seq<Block>, y: seq<Block>)
    requires |x| >= 2 && x[0].Free? && x[|x| - 1].File?
    requires y == [x[|x| - 1]] + x[1..|x| - 1] + [Free]
    ensures Compact(y) == Compact(x)
  {
    var mid := x[1..|x| - 1];
    CompactMove(x);
    CompactFront(y);
    assert y[1..] == mid + [Free];
    CompactFreeBack(mid);
  }

  /** The swap moves the rightmost file block into the leftmost free block, as compaction does. */
  lemma SwapStep(a: seq<Block>, b: seq<Block>, left: int, right: int)
    requires Scanned(a, left, right) && left < right && a[left].Free? && a[right].File?
    requires b == a[left := a[right]][right := a[left]]
    ensures Scanned(b, left + 1, right - 1) && Compact(b) == Compact(a)
  {
    SwapScanned(a, b, left, right);
    SwappedSlice(a, b, left, right);
    SwapCompacts(a, b, left, right);
  }

  /** The swap settles one more block at each end and leaves the blocks outside the scans alone. */
  lemma SwapScanned(a: seq<Block>, b: seq<Block>, left: int, right: int)
    requires Scanned(a, left, right) && left < right && a[left].Free? && a[right].File?
    requires b == a[left := a[right]][right := a[left]]
    ensures Scanned(b, left, right) && Scanned(b, left + 1, right - 1)
    ensures b[..left] == a[..left] && b[right + 1..] == a[right + 1..]
  {
  }

  /** Compacting the swapped disk: the blocks outside the scans are shared and the middle's compaction is unchanged. */
  lemma SwapCompacts(a: seq<Block>, b: seq<Block>, left: int, right: int)
    requires Scanned(a, left, right) && Scanned(b, left, right) && left < right
    requires b[..left] == a[..left] && b[right + 1..] == a[right + 1..]
    requires var x, y := a[left..right + 1], b[left..right + 1];
      x[0].Free? && x[|x| - 1].File? && y == [x[|x| - 1]] + x[1..|x| - 1] + [Free]
    ensures Compact(b) == Compact(a)
  {
    Between(a, left, right);
    Between(b, left, right);
    SwappedEnds(a[left..right + 1], b[left..right + 1]);
  }

  /** Between the scans, the swap moves the last block to the front and a free block to the back. */
  lemma SwappedSlice(a: seq<Block>, b: seq<Block>, left: int, right: int)
    requires 0 <= left < right < |a| && a[left].Free?
    requires b == a[left := a[right]][right := a[left]]
    ensures var x, y := a[left..right + 1], b[left..right + 1];
      |x| >= 2 && y == [x[|x| - 1]] + x[1..|x| - 1] + [Free]
  {
    var x, y := a[left..right + 1], b[left..right + 1];
    var z := [x[|x| - 1]] + x[1..|x| - 1] + [Free];
    assert |y| == |z|;
    forall k | 0 <= k < |y|
      ensures y[k] == z[k]
    {
      if 0 < k < |y| - 1 {
        assert z[k] == x[k];
      }
    }
  }

  /** When the scans meet, the copy is its own compaction. */
  lemma Met(a: seq<Block>, left: int, right: int)
    requires Scanned(a, left, right) && left >= right
    ensures Compact(a) == a
  {
    Between(a, left, right);
    CompactShort(a[left..right + 1]);
    assert a == a[..left] + a[left..right + 1] + a[right + 1..];
  }

  /**
   * sort_blocks: on a copy, `left` looks for a free block and `right` for a file block, and the
   * two are swapped until the two scans meet.
   */
  method SortBlocks(blocks: seq<Block>) returns (r: seq<Block>)
    ensures r == Compact(blocks)
  {
    var a := new Block[|blocks|](i requires 0 <= i < |blocks| => blocks[i]);
    assert a[..] == blocks;
    var left, right := 0, |blocks| - 1;
    ghost var g := blocks;
    while left < right
      invariant a[..] == g && Scanned(g, left, right) && Compact(g) == Compact(blocks)
      decreases right - left + 1
    {
      while left < right && a[left] != Free
        invariant Scanned(g, left, right)
        modifies {}
      {
        left := left + 1;
      }
      while left < right && a[right] == Free
        invariant Scanned(g, left, right)
        invariant left < right ==> g[left] == Free
        modifies {}
      {
        right := right - 1;
      }
      if left < right {
        ghost var cur := g;
        a[left], a[right] := a[right], a[left];
        g := cur[left := cur[right]][right := cur[left]];
        SwapStep(cur, g, left, right);
        left, right := left + 1, right - 1;
      }
    }
    Met(g, left, right);
    r := a[..];
  }

  /** `checksum`: Σ position * id over the file blocks. */
  function Checksum(blocks: seq<Block>): nat {
    if blocks == [] then 0
    else
      var n := |blocks| - 1;
      Checksum(blocks[..n]) + match blocks[n] case Free => 0 case File(id) => n * id
  }

  /** checksum's loop, skipping free blocks. */
  method ComputeChecksum(blocks: seq<Block>) returns (value: nat)
    ensures value == Checksum(blocks)
  {
    value := 0;
    for position := 0 to |blocks|
      invariant value == Checksum(blocks[..position])
    {
      assert blocks[..position + 1][..position] == blocks[..position];
      if blocks[position] == Free {
        continue;
      }
      value := value + position * blocks[position].id;
    }
    assert blocks[..|blocks|] == blocks;
  }

  /** Free blocks add nothing: a disk with no file block has checksum 0, and trailing free space is ignored. */
  lemma {:induction false} FreeAddsNothing(blocks: seq<Block>, k: nat)
    ensures Checksum(blocks + Repeat(Free, k)) == Checksum(blocks)
  {
    if k > 0 {
      var s := blocks + Repeat(Free, k);
      assert s[..|s| - 1] == blocks + Repeat(Free, k - 1);
      FreeAddsNothing(blocks, k - 1);
    } else {
      assert blocks + Repeat(Free, 0) == blocks;
    }
  }

  /** part_1: parse, compact, checksum. */
  method Part1(puzzle: string) returns (r: Result<nat, Failure>)
    ensures AllDigits(Strip(puzzle)) ==> r == Ok(Checksum(Compact(Layout(Strip(puzzle)))))
    ensures !AllDigits(Strip(puzzle)) ==> r == Err(ValueError)
  {
    var blocks := ParseInput(puzzle);
    if blocks.Err? {
      return Err(ValueError);
    }
    var moved := SortBlocks(blocks.value);
    var value := ComputeChecksum(moved);
    return Ok(value);
  }

  /** One more digit adds its run at the end of the layout. */
  lemma LayoutSnoc(init: string, c: char)
    requires AllDigits(init) && IsDigit(c)
    ensures AllDigits(init + [c])
    ensures Layout(init + [c]) == Layout(init) + Repeat(RunBlock(|init|), (c - '0') as nat)
  {
    assert (init + [c])[..|init|] == init;
  }

  lemma LayoutOf12()
    ensures Layout("12") == [File(0), Free, Free]
  {
    LayoutSnoc("", '1');
    assert "" + ['1'] == "1";
    assert Layout("1") == [File(0)];
    LayoutSnoc("1", '2');
    assert "1" + ['2'] == "12";
    assert Repeat(Free, 2) == Repeat(Free, 1) + [Free];
  }

  lemma LayoutOf1210()
    ensures Layout("1210") == [File(0), Free, Free, File(1)]
  {
    LayoutOf12();
    LayoutSnoc("12", '1');
    assert "12" + ['1'] == "121";
    assert Layout("121") == [File(0), Free, Free, File(1)];
    LayoutSnoc("121", '0');
    assert "121" + ['0'] == "1210";
  }

  /** The disk map "12101": file 0, two free blocks, file 1, no free block, file 2. */
  lemma SmallLayout()
    ensures Layout("12101") == [File(0), Free, Free, File(1), File(2)]
  {
    LayoutOf1210();
    LayoutSnoc("1210", '1');
    assert "1210" + ['1'] == "12101";
  }

  /** On "12101", file 2 moves into the first free block, then file 1 into the second; the checksum is 4. */
  lemma SmallExample()
    ensures Compact(Layout("12101")) == [File(0), File(2), File(1), Free, Free]
    ensures Checksum(Compact(Layout("12101"))) == 4
  {
    SmallLayout();
    var s := [File(0), Free, Free, File(1), File(2)];
    CompactFront(s);
    var t := s[1..];
    assert t == [Free, Free, File(1), File(2)];
    CompactMove(t);
    var u := t[1..|t| - 1];
    assert u == [Free, File(1)];
    CompactMove(u);
    assert u[1..|u| - 1] == [];
    SmallChecksum();
  }

  lemma SmallChecksum()
    ensures Checksum([File(0), File(2), File(1), Free, Free]) == 4
  {
    var r := [File(0), File(2), File(1), Free, Free];
    assert r[..4] == [File(0), File(2), File(1), Free];
    assert r[..4][..3] == [File(0), File(2), File(1)];
    assert r[..4][..3][..2] == [File(0), File(2)];
    assert [File(0), File(2)][..1] == [File(0)];
    assert [File(0)][..0] == [];
    assert Checksum([File(0)]) == 0;
    assert Checksum([File(0), File(2)]) == 2;
    assert Checksum([File(0), File(2), File(1)]) == 4;
    assert Checksum(r[..4]) == 4;
  }
}
