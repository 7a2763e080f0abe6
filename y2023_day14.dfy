/**
 * Advent of Code 2023, day 14: round rocks on a platform roll until they
 * hit a cube-shaped rock or the edge.
 *
 * Every tilt is described line by line: for a direction, a line is a
 * column (north, south) or a row (west, east), read from the edge the rocks
 * roll toward, so position 0 is where the first rock comes to rest. The
 * cubes split a line into lanes; the lane behind a cube (or behind the edge,
 * which the program treats as a virtual cube just outside the grid) ends at
 * the next cube, and tilting packs all its round rocks against its start.
 */
module Y2023Day14 {
  import opened Common

  datatype Tile = Empty | Round | Cube

  datatype Direction = N | E | S | W

  // ---------------------------------------------------------------------
  // One line

  /** The number of round rocks in `s`. */
  function Rounds(s: seq<Tile>): nat
  {
    if s == [] then 0 else (if s[0] == Round then 1 else 0) + Rounds(s[1..])
  }

  lemma {:induction false} RoundsBound(s: seq<Tile>)
    ensures Rounds(s) <= |s|
  {
    if s != [] {
      RoundsBound(s[1..]);
    }
  }

  lemma {:induction false} RoundsAppend(s: seq<Tile>, t: seq<Tile>)
    ensures Rounds(s + t) == Rounds(s) + Rounds(t)
  {
    if s == [] {
      assert s + t == t;
    } else {
      assert (s + t)[1..] == s[1..] + t;
      RoundsAppend(s[1..], t);
    }
  }

  /** None of the first `k` cells of `s` holds a cube. */
  predicate NoCubeBefore(s: seq<Tile>, k: int)
  {
    forall i :: 0 <= i < k && i < |s| ==> s[i] != Cube
  }

  /** The length of the lane at the start of `s`: the index of its first cube, or `|s|`. */
  function FirstCube(s: seq<Tile>): (k: nat)
    ensures k <= |s| && NoCubeBefore(s, k)
    ensures k < |s| ==> s[k] == Cube
  {
    if s == [] || s[0] == Cube then 0 else 1 + FirstCube(s[1..])
  }

  /** A lane ends exactly at the first cube: the end is determined by the two properties above. */
  lemma FirstCubeUnique(s: seq<Tile>, k: nat)
    requires k <= |s| && NoCubeBefore(s, k)
    requires k < |s| ==> s[k] == Cube
    ensures FirstCube(s) == k
  {
  }

  /** A lane of `len` cells holding `n` round rocks, all packed at its start. */
  function Packed(n: nat, len: nat): (r: seq<Tile>)
    ensures |r| == len
    ensures forall i :: 0 <= i < len ==> r[i] == (if i < n then Round else Empty)
  {
    if len == 0 then [] else if n > 0 then [Round] + Packed(n - 1, len - 1) else [Empty] + Packed(0, len - 1)
  }

  /** The line after tilting: in every lane the round rocks move to the lane's start. */
  function Settle(s: seq<Tile>): (r: seq<Tile>)
    ensures |r| == |s|
    decreases |s|
  {
    var k := FirstCube(s);
    Packed(Rounds(s[..k]), k) + (if k < |s| then [Cube] + Settle(s[k + 1..]) else [])
  }

  /** The number of round rocks in each lane of the line, lane by lane. */
  function LaneCounts(s: seq<Tile>): (r: seq<nat>)
    ensures |r| >= 1
    decreases |s|
  {
    var k := FirstCube(s);
    [Rounds(s[..k])] + (if k < |s| then LaneCounts(s[k + 1..]) else [])
  }

  function SumNat(s: seq<nat>): nat
  {
    if s == [] then 0 else s[0] + SumNat(s[1..])
  }

  /** Settling moves no cube: a cell holds a cube afterwards exactly when it did before. */
  lemma {:induction false} SettleCubes(s: seq<Tile>)
    ensures forall i :: 0 <= i < |s| ==> (Settle(s)[i] == Cube <==> s[i] == Cube)
    decreases |s|
  {
    var k := FirstCube(s);
    if k < |s| {
      SettleCubes(s[k + 1..]);
      forall i | 0 <= i < |s|
        ensures Settle(s)[i] == Cube <==> s[i] == Cube
      {
        if i < k {
          assert s[..k][i] == s[i];
        } else if i > k {
          assert s[k + 1..][i - k - 1] == s[i];
        }
      }
    } else {
      assert s[..k] == s;
    }
  }

  lemma {:induction false} PackedRounds(n: nat, len: nat)
    requires n <= len
    ensures Rounds(Packed(n, len)) == n
  {
    if len > 0 {
      PackedRounds(if n > 0 then n - 1 else 0, len - 1);
      assert Packed(n, len)[1..] == Packed(if n > 0 then n - 1 else 0, len - 1);
    }
  }

  /** Splitting a line at a cell that holds no round rock splits its count. */
  lemma RoundsAround(s: seq<Tile>, k: nat)
    requires k < |s| && s[k] != Round
    ensures Rounds(s) == Rounds(s[..k]) + Rounds(s[k + 1..])
  {
    assert s == s[..k] + ([s[k]] + s[k + 1..]);
    RoundsAppend(s[..k], [s[k]] + s[k + 1..]);
    assert ([s[k]] + s[k + 1..])[1..] == s[k + 1..];
  }

  lemma SettleUnfold(s: seq<Tile>)
    ensures FirstCube(s) < |s| ==> Settle(s) == Packed(Rounds(s[..FirstCube(s)]), FirstCube(s)) + [Cube] + Settle(s[FirstCube(s) + 1..])
    ensures FirstCube(s) == |s| ==> Settle(s) == Packed(Rounds(s), |s|)
  {
    var k := FirstCube(s);
    if k < |s| {
      var packed, rest := Packed(Rounds(s[..k]), k), Settle(s[k + 1..]);
      assert Settle(s) == packed + ([Cube] + rest);
      AppendAssoc(packed, [Cube], rest);
    } else {
      assert s[..k] == s;
    }
  }

  /** Settling keeps every round rock: the line holds as many afterwards as before. */
  lemma {:induction false} SettleRounds(s: seq<Tile>)
    ensures Rounds(Settle(s)) == Rounds(s)
    decreases |s|
  {
    var k := FirstCube(s);
    RoundsBound(s[..k]);
    PackedRounds(Rounds(s[..k]), k);
    SettleUnfold(s);
    if k < |s| {
      SettleRounds(s[k + 1..]);
      RoundsAround(s, k);
      RoundsAround(Settle(s), k);
      assert Settle(s)[..k] == Packed(Rounds(s[..k]), k);
      assert Settle(s)[k + 1..] == Settle(s[k + 1..]);
    } else {
      assert s[..k] == s;
    }
  }

  lemma LaneCountsUnfold(s: seq<Tile>)
    ensures LaneCounts(s)[0] == Rounds(s[..FirstCube(s)])
    ensures FirstCube(s) < |s| ==> LaneCounts(s)[1..] == LaneCounts(s[FirstCube(s) + 1..])
    ensures FirstCube(s) == |s| ==> LaneCounts(s)[1..] == [] && s[..FirstCube(s)] == s
  {
  }

  /** The lane counts account for every round rock of the line, once. */
  lemma {:induction false} LaneCountsSum(s: seq<Tile>)
    ensures SumNat(LaneCounts(s)) == Rounds(s)
    decreases |s|
  {
    var k := FirstCube(s);
    LaneCountsUnfold(s);
    if k < |s| {
      LaneCountsSum(s[k + 1..]);
      RoundsAround(s, k);
    }
  }

  /** No round rock of a settled line can roll further: it never has an empty cell in front of it. */
  predicate Stable(s: seq<Tile>)
  {
    forall i :: 0 < i < |s| && s[i] == Round ==> s[i - 1] != Empty
  }

  lemma {:induction false} SettleStable(s: seq<Tile>)
    ensures Stable(Settle(s))
    decreases |s|
  {
    var k := FirstCube(s);
    if k < |s| {
      SettleStable(s[k + 1..]);
    }
  }

  /** Two lines of one length with the cubes in the same places. */
  predicate SameCubes(a: seq<Tile>, b: seq<Tile>)
  {
    |a| == |b| && forall i :: 0 <= i < |a| ==> (a[i] == Cube <==> b[i] == Cube)
  }

  /**
   * Two lines with the cubes in the same places and the same lane counts
   * settle to the same line: the counts are a complete record of the
   * settled line.
   */
  lemma {:induction false} LaneCountsDetermine(a: seq<Tile>, b: seq<Tile>)
    requires SameCubes(a, b)
    requires LaneCounts(a) == LaneCounts(b)
    ensures Settle(a) == Settle(b)
    decreases |a|
  {
    var k := FirstCube(a);
    FirstCubeUnique(b, k);
    var n := LaneCounts(a)[0];
    LaneCountsUnfold(a);
    LaneCountsUnfold(b);
    SettleAt(a, k, n);
    SettleAt(b, k, n);
    if k < |a| {
      var a', b' := a[k + 1..], b[k + 1..];
      SameCubesAfter(a, b, k);
      var ca, cb := LaneCounts(a), LaneCounts(b);
      assert LaneCounts(a') == ca[1..];
      assert LaneCounts(b') == cb[1..];
      LaneCountsDetermine(a', b');
    }
  }

  /** `SettleUnfold` at a known lane end and count. */
  lemma SettleAt(s: seq<Tile>, k: nat, n: nat)
    requires k == FirstCube(s) && n == Rounds(s[..k])
    ensures k < |s| ==> Settle(s) == Packed(n, k) + [Cube] + Settle(s[k + 1..])
    ensures k == |s| ==> Settle(s) == Packed(n, k)
  {
    SettleUnfold(s);
  }

  lemma SameCubesAfter(a: seq<Tile>, b: seq<Tile>, k: nat)
    requires SameCubes(a, b) && k < |a|
    ensures SameCubes(a[k + 1..], b[k + 1..])
  {
    var a', b' := a[k + 1..], b[k + 1..];
    forall i | 0 <= i < |a'|
      ensures a'[i] == Cube <==> b'[i] == Cube
    {
      assert a'[i] == a[k + 1 + i] && b'[i] == b[k + 1 + i];
    }
  }

  /** Lines with the cubes in the same places have equally many lanes. */
  lemma {:induction false} LaneCountsLength(a: seq<Tile>, b: seq<Tile>)
    requires SameCubes(a, b)
    ensures |LaneCounts(a)| == |LaneCounts(b)|
    decreases |a|
  {
    var k := FirstCube(a);
    FirstCubeUnique(b, k);
    LaneCountsUnfold(a);
    LaneCountsUnfold(b);
    if k < |a| {
      SameCubesAfter(a, b, k);
      LaneCountsLength(a[k + 1..], b[k + 1..]);
    }
  }

  lemma RoundsSnoc(s: seq<Tile>, t: Tile)
    ensures Rounds(s + [t]) == Rounds(s) + (if t == Round then 1 else 0)
  {
    RoundsAppend(s, [t]);
    assert [t][1..] == [];
  }

  /** Extending a stretch of the line by one cell adds that cell's round rock, if any. */
  lemma RoundsStep(line: seq<Tile>, s: int, next: int)
    requires 0 <= s <= next < |line|
    ensures Rounds(line[s..next + 1]) == Rounds(line[s..next]) + (if line[next] == Round then 1 else 0)
  {
    assert line[s..next + 1] == line[s..next] + [line[next]];
    RoundsSnoc(line[s..next], line[next]);
  }

  /** The lane that starts at `s` and ends before the cube at `next`, in the settled line. */
  lemma LaneStep(line: seq<Tile>, s: nat, next: nat, count: nat)
    requires s <= next < |line| && next == s + FirstCube(line[s..])
    requires count == Rounds(line[s..next])
    ensures line[next] == Cube
    ensures Settle(line[s..]) == Packed(count, next - s) + [Cube] + Settle(line[next + 1..])
    ensures LaneCounts(line[s..]) == [count] + LaneCounts(line[next + 1..])
  {
    var t := line[s..];
    assert t[..next - s] == line[s..next];
    assert t[next - s + 1..] == line[next + 1..];
    SettleUnfold(t);
    LaneCountsUnfold(t);
  }

  /** The last lane of the line, which ends at the far edge. */
  lemma LaneLast(line: seq<Tile>, s: nat, count: nat)
    requires s <= |line| && |line| == s + FirstCube(line[s..])
    requires count == Rounds(line[s..])
    ensures Settle(line[s..]) == Packed(count, |line| - s)
    ensures LaneCounts(line[s..]) == [count]
  {
    SettleUnfold(line[s..]);
    LaneCountsUnfold(line[s..]);
  }

  // ---------------------------------------------------------------------
  // The platform

  /** `g` holds `|g|` rows of `w` cells each; `g[y][x]` is column x of row y. */
  predicate Rect(g: seq<seq<Tile>>, w: nat)
  {
    forall y :: 0 <= y < |g| ==> |g[y]| == w
  }

  /** The number of cells on a line of direction `dir` of a platform `h` high and `w` wide. */
  function LineLen(dir: Direction, h: int, w: int): int
  {
    if dir == N || dir == S then h else w
  }

  /** The number of lines of direction `dir`. */
  function LineCount(dir: Direction, h: int, w: int): int
  {
    if dir == N || dir == S then w else h
  }

  /**
   * The row of position `p` of line `l` when tilting toward `dir`; position
   * -1 is the virtual cube just outside the edge the rocks roll toward.
   */
  function Row(dir: Direction, h: int, w: int, l: int, p: int): int
  {
    match dir
    case N => p
    case S => h - 1 - p
    case W => l
    case E => l
  }

  /** The column of position `p` of line `l` when tilting toward `dir`. */
  function Col(dir: Direction, h: int, w: int, l: int, p: int): int
  {
    match dir
    case N => l
    case S => l
    case W => p
    case E => w - 1 - p
  }

  /** The line through cell (`y`, `x`) when tilting toward `dir`. */
  function LineIdx(dir: Direction, y: int, x: int): int
  {
    if dir == N || dir == S then x else y
  }

  /** The position of cell (`y`, `x`) on its line when tilting toward `dir`. */
  function PosIdx(dir: Direction, h: int, w: int, y: int, x: int): int
  {
    match dir
    case N => y
    case S => h - 1 - y
    case W => x
    case E => w - 1 - x
  }

  /** Line `l` of the platform, read from the edge the rocks roll toward. */
  function LineOf(g: seq<seq<Tile>>, w: nat, dir: Direction, l: nat): (line: seq<Tile>)
    requires Rect(g, w) && l < LineCount(dir, |g|, w)
    ensures |line| == LineLen(dir, |g|, w)
    ensures forall p :: 0 <= p < |line| ==> line[p] == g[Row(dir, |g|, w, l, p)][Col(dir, |g|, w, l, p)]
  {
    seq(LineLen(dir, |g|, w), p requires 0 <= p < LineLen(dir, |g|, w) => g[Row(dir, |g|, w, l, p)][Col(dir, |g|, w, l, p)])
  }

  /** The platform after tilting toward `dir`: every line settled. */
  function TiltGrid(g: seq<seq<Tile>>, w: nat, dir: Direction): (r: seq<seq<Tile>>)
    requires Rect(g, w)
    ensures |r| == |g| && Rect(r, w)
  {
    seq(|g|, y requires 0 <= y < |g| =>
      seq(w, x requires 0 <= x < w => Settle(LineOf(g, w, dir, LineIdx(dir, y, x)))[PosIdx(dir, |g|, w, y, x)]))
  }

  /** The lane counts of every line, line after line. */
  function LineCounts(g: seq<seq<Tile>>, w: nat, dir: Direction): (r: seq<seq<nat>>)
    requires Rect(g, w)
    ensures |r| == LineCount(dir, |g|, w)
    ensures forall l :: 0 <= l < |r| ==> r[l] == LaneCounts(LineOf(g, w, dir, l))
  {
    seq(LineCount(dir, |g|, w), l requires 0 <= l < LineCount(dir, |g|, w) => LaneCounts(LineOf(g, w, dir, l)))
  }

  /** The counts of several lines, one after the other. */
  function Flatten(xs: seq<seq<nat>>): seq<nat>
  {
    if xs == [] then [] else Flatten(xs[..|xs| - 1]) + xs[|xs| - 1]
  }

  lemma {:induction false} FlattenPrefix(xs: seq<seq<nat>>, l: nat)
    requires l < |xs|
    ensures Flatten(xs[..l + 1]) == Flatten(xs[..l]) + xs[l]
  {
    assert xs[..l + 1][..l] == xs[..l];
  }

  /** The count vector `tilt` returns: all lane counts, line after line. */
  function AllCounts(g: seq<seq<Tile>>, w: nat, dir: Direction): seq<nat>
    requires Rect(g, w)
  {
    Flatten(LineCounts(g, w, dir))
  }

  /** The cells of an array as rows. */
  function Contents(tiles: array2<Tile>): (g: seq<seq<Tile>>)
    reads tiles
    ensures |g| == tiles.Length0 && Rect(g, tiles.Length1)
    ensures forall y, x :: 0 <= y < tiles.Length0 && 0 <= x < tiles.Length1 ==> g[y][x] == tiles[y, x]
  {
    seq(tiles.Length0, y requires 0 <= y < tiles.Length0 reads tiles =>
      seq(tiles.Length1, x requires 0 <= x < tiles.Length1 reads tiles => tiles[y, x]))
  }

  /** The cell at position `p` of line `l`; `Empty` outside the platform. */
  function At(tiles: array2<Tile>, dir: Direction, l: int, p: int): Tile
    reads tiles
  {
    var y, x := Row(dir, tiles.Length0, tiles.Length1, l, p), Col(dir, tiles.Length0, tiles.Length1, l, p);
    if 0 <= y < tiles.Length0 && 0 <= x < tiles.Length1 then tiles[y, x] else Empty
  }

  /** Position `q` of line `k` is on the platform. */
  predicate OnPlatform(dir: Direction, h: int, w: int, k: int, q: int)
  {
    0 <= k < LineCount(dir, h, w) && 0 <= q < LineLen(dir, h, w)
  }

  /** Writes `v` into position `p` of line `l`; every other cell keeps its value. */
  method SetAt(tiles: array2<Tile>, dir: Direction, l: int, p: int, v: Tile)
    requires OnPlatform(dir, tiles.Length0, tiles.Length1, l, p)
    modifies tiles
    ensures forall k, q :: OnPlatform(dir, tiles.Length0, tiles.Length1, k, q) ==>
      At(tiles, dir, k, q) == if k == l && q == p then v else old(At(tiles, dir, k, q))
  {
    tiles[Row(dir, tiles.Length0, tiles.Length1, l, p), Col(dir, tiles.Length0, tiles.Length1, l, p)] := v;
  }

  /** One step of the scan: a round rock at position `next` is counted and removed. */
  method ScanCell(tiles: array2<Tile>, dir: Direction, l: int, s: int, next: int, count: int, ghost line: seq<Tile>)
    returns (count': int)
    requires OnPlatform(dir, tiles.Length0, tiles.Length1, l, next)
    requires 0 <= s <= next < |line| && At(tiles, dir, l, next) == line[next] != Cube
    requires count == Rounds(line[s..next])
    modifies tiles
    ensures count' == Rounds(line[s..next + 1])
    ensures forall k, q :: OnPlatform(dir, tiles.Length0, tiles.Length1, k, q) ==>
      At(tiles, dir, k, q) == if k == l && q == next then Empty else old(At(tiles, dir, k, q))
  {
    RoundsStep(line, s, next);
    count' := count;
    if At(tiles, dir, l, next) == Round {
      count' := count + 1;
      SetAt(tiles, dir, l, next, Empty);
    }
  }

  /**
   * The first half of `tilt` for one lane: walks from position `s` to the
   * next cube or the edge, counting the round rocks and emptying their cells.
   */
  method ScanLane(tiles: array2<Tile>, dir: Direction, l: int, s: int, ghost line: seq<Tile>) returns (count: int, next: int)
    requires 0 <= l < LineCount(dir, tiles.Length0, tiles.Length1)
    requires 0 <= s <= |line| == LineLen(dir, tiles.Length0, tiles.Length1)
    requires forall p :: s <= p < |line| ==> At(tiles, dir, l, p) == line[p]
    modifies tiles
    ensures s <= next <= |line| && next == s + FirstCube(line[s..]) && count == Rounds(line[s..next])
    ensures forall k, q :: OnPlatform(dir, tiles.Length0, tiles.Length1, k, q) ==>
      At(tiles, dir, k, q) == if k == l && s <= q < next then Empty else old(At(tiles, dir, k, q))
  {
    var h, w := tiles.Length0, tiles.Length1;
    next, count := s, 0;
    while next < LineLen(dir, h, w) && At(tiles, dir, l, next) != Cube
      invariant s <= next <= |line|
      invariant forall p :: s <= p < next ==> line[p] != Cube
      invariant count == Rounds(line[s..next])
      invariant forall k, q :: OnPlatform(dir, h, w, k, q) ==>
        At(tiles, dir, k, q) == if k == l && s <= q < next then Empty else old(At(tiles, dir, k, q))
    {
      assert At(tiles, dir, l, next) == old(At(tiles, dir, l, next)) == line[next];
      count := ScanCell(tiles, dir, l, s, next, count, line);
      next := next + 1;
    }
    if next < |line| {
      assert At(tiles, dir, l, next) == old(At(tiles, dir, l, next)) == line[next];
    }
    LaneEnd(line, s, next);
  }

  /** A walk from `s` over non-cubes that stops at a cube or the end has crossed one lane. */
  lemma LaneEnd(line: seq<Tile>, s: int, next: int)
    requires 0 <= s <= next <= |line|
    requires forall p :: s <= p < next ==> line[p] != Cube
    requires next < |line| ==> line[next] == Cube
    ensures next == s + FirstCube(line[s..])
  {
    var rest := line[s..];
    forall i | 0 <= i < next - s ensures rest[i] != Cube
    {
      assert rest[i] == line[s + i];
    }
    FirstCubeUnique(rest, next - s);
  }

  /** The second half of `tilt` for one lane: `count` round rocks placed from position `s` on. */
  method FillLane(tiles: array2<Tile>, dir: Direction, l: int, s: int, count: int)
    requires 0 <= l < LineCount(dir, tiles.Length0, tiles.Length1)
    requires 0 <= s && 0 <= count && s + count <= LineLen(dir, tiles.Length0, tiles.Length1)
    modifies tiles
    ensures forall k, q :: OnPlatform(dir, tiles.Length0, tiles.Length1, k, q) ==>
      At(tiles, dir, k, q) == if k == l && s <= q < s + count then Round else old(At(tiles, dir, k, q))
  {
    var h, w := tiles.Length0, tiles.Length1;
    for t := 0 to count
      invariant forall k, q :: OnPlatform(dir, h, w, k, q) ==>
        At(tiles, dir, k, q) == if k == l && s <= q < s + t then Round else old(At(tiles, dir, k, q))
    {
      SetAt(tiles, dir, l, s + t, Round);
    }
  }

  /** One lane of `tilt`: its round rocks end up packed against the cube (or edge) behind it. */
  method RollLane(tiles: array2<Tile>, dir: Direction, l: int, s: int, ghost line: seq<Tile>) returns (count: int, next: int)
    requires 0 <= l < LineCount(dir, tiles.Length0, tiles.Length1)
    requires 0 <= s <= |line| == LineLen(dir, tiles.Length0, tiles.Length1)
    requires forall p :: s <= p < |line| ==> At(tiles, dir, l, p) == line[p]
    modifies tiles
    ensures s <= next <= |line| && next == s + FirstCube(line[s..]) && count == Rounds(line[s..next])
    ensures forall k, q :: OnPlatform(dir, tiles.Length0, tiles.Length1, k, q) ==>
      At(tiles, dir, k, q) == if k == l && s <= q < next then Packed(count, next - s)[q - s] else old(At(tiles, dir, k, q))
  {
    count, next := ScanLane(tiles, dir, l, s, line);
    RoundsBound(line[s..next]);
    FillLane(tiles, dir, l, s, count);
  }

  /** Line `l` of the platform as it stands, read from the edge the rocks roll toward. */
  function LineView(tiles: array2<Tile>, dir: Direction, l: int): (line: seq<Tile>)
    reads tiles
    ensures |line| == LineLen(dir, tiles.Length0, tiles.Length1)
    ensures forall q :: 0 <= q < |line| ==> line[q] == At(tiles, dir, l, q)
  {
    seq(LineLen(dir, tiles.Length0, tiles.Length1), q reads tiles => At(tiles, dir, l, q))
  }

  /** After the lanes before position `s`: their counts, then those of the rest, are the line's. */
  predicate CountedBefore(line: seq<Tile>, s: int, counts: seq<nat>)
    requires 0 <= s <= |line|
  {
    counts + LaneCounts(line[s..]) == LaneCounts(line)
  }

  /** From a lane start `s` on, the settled line is the rest of the line settled. */
  predicate SettlesFrom(line: seq<Tile>, s: int)
    requires 0 <= s <= |line|
  {
    Settle(line)[s..] == Settle(line[s..])
  }

  /** The settled line, lane by lane: a lane ending at a cube. */
  lemma LaneAdvance(line: seq<Tile>, s: int, next: int, count: nat, counts: seq<nat>, s': int, counts': seq<nat>)
    requires 0 <= s <= next < |line| && next == s + FirstCube(line[s..])
    requires count == Rounds(line[s..next])
    requires SettlesFrom(line, s) && CountedBefore(line, s, counts)
    requires s' == next + 1 && counts' == counts + [count]
    ensures SettlesFrom(line, s') && CountedBefore(line, s', counts')
    ensures forall q :: s <= q < s' ==> Settle(line)[q] == if q < next then Packed(count, next - s)[q - s] else line[q]
  {
    LaneStep(line, s, next, count);
    LaneAdvanceCounts(line, s, next, count, counts);
    LaneAdvanceCells(line, s, next, count);
  }

  /** After one lane ending at a cube, the counts so far and the rest still make up the line's. */
  lemma LaneAdvanceCounts(line: seq<Tile>, s: int, next: int, count: nat, counts: seq<nat>)
    requires 0 <= s <= next < |line|
    requires LaneCounts(line[s..]) == [count] + LaneCounts(line[next + 1..])
    requires CountedBefore(line, s, counts)
    ensures CountedBefore(line, next + 1, counts + [count])
  {
    AppendAssoc(counts, [count], LaneCounts(line[next + 1..]));
  }

  /** After one lane ending at a cube, the settled line still agrees with the settled rest. */
  lemma LaneAdvanceCells(line: seq<Tile>, s: int, next: int, count: nat)
    requires 0 <= s <= next < |line| && line[next] == Cube
    requires Settle(line[s..]) == Packed(count, next - s) + [Cube] + Settle(line[next + 1..])
    requires SettlesFrom(line, s)
    ensures SettlesFrom(line, next + 1)
    ensures forall q :: s <= q <= next ==> Settle(line)[q] == if q < next then Packed(count, next - s)[q - s] else line[q]
  {
    var tail := Settle(line)[s..];
    var packed := Packed(count, next - s);
    assert |packed| == next - s;
    assert Settle(line)[next + 1..] == tail[next + 1 - s..];
    forall q | s <= q <= next
      ensures Settle(line)[q] == if q < next then packed[q - s] else line[q]
    {
      assert Settle(line)[q] == tail[q - s];
    }
  }

  /** The settled line, lane by lane: the last lane, ending at the far edge. */
  lemma LaneFinish(line: seq<Tile>, s: int, count: nat, counts: seq<nat>)
    requires 0 <= s <= |line| && |line| == s + FirstCube(line[s..])
    requires count == Rounds(line[s..|line|])
    requires SettlesFrom(line, s) && CountedBefore(line, s, counts)
    ensures forall q :: s <= q < |line| ==> Settle(line)[q] == Packed(count, |line| - s)[q - s]
    ensures counts + [count] == LaneCounts(line)
  {
    assert line[s..|line|] == line[s..];
    LaneLast(line, s, count);
    forall q | s <= q < |line|
      ensures Settle(line)[q] == Packed(count, |line| - s)[q - s]
    {
      assert Settle(line)[q] == Settle(line)[s..][q - s];
    }
  }

  /**
   * One lane of line `l`, from position `s` on, followed by the bookkeeping
   * that ties it to the settled line. Unless the lane ended at the far edge
   * (`done`), the next lane starts at `s'`, just past the cube that ended it.
   */
  method NextLane(tiles: array2<Tile>, dir: Direction, l: int, s: int, ghost line: seq<Tile>, counts: seq<nat>)
    returns (done: bool, s': int, counts': seq<nat>)
    requires 0 <= l < LineCount(dir, tiles.Length0, tiles.Length1)
    requires 0 <= s <= |line| == LineLen(dir, tiles.Length0, tiles.Length1)
    requires forall p :: s <= p < |line| ==> At(tiles, dir, l, p) == line[p]
    requires SettlesFrom(line, s) && CountedBefore(line, s, counts)
    modifies tiles
    ensures s < s' <= |line| + 1
    ensures done ==> s' == |line| + 1 && counts' == LaneCounts(line)
    ensures !done ==> s' <= |line| && SettlesFrom(line, s') && CountedBefore(line, s', counts')
    ensures forall k, q :: OnPlatform(dir, tiles.Length0, tiles.Length1, k, q) ==>
      At(tiles, dir, k, q) == if k == l && s <= q < s' then Settle(line)[q] else old(At(tiles, dir, k, q))
  {
    var count, next := RollLane(tiles, dir, l, s, line);
    s', counts' := next + 1, counts + [count];
    done := next == LineLen(dir, tiles.Length0, tiles.Length1);
    if done {
      LaneFinish(line, s, count, counts);
    } else {
      LaneAdvance(line, s, next, count, counts, s', counts');
    }
  }

  /**
   * `tilt` restricted to line `l`: lane after lane, from the virtual cube
   * outside the edge to the far edge, the round rocks are packed against the
   * cube behind them; the counts of the lanes are returned in order.
   */
  method TiltLine(tiles: array2<Tile>, dir: Direction, l: int) returns (counts: seq<nat>)
    requires 0 <= l < LineCount(dir, tiles.Length0, tiles.Length1)
    modifies tiles
    ensures counts == LaneCounts(old(LineView(tiles, dir, l)))
    ensures forall k, q :: OnPlatform(dir, tiles.Length0, tiles.Length1, k, q) ==>
      At(tiles, dir, k, q) == if k == l then Settle(old(LineView(tiles, dir, l)))[q] else old(At(tiles, dir, k, q))
  {
    ghost var line := LineView(tiles, dir, l);
    counts := TiltLanes(tiles, dir, l, line);
  }

  /** `TiltLine` on the line `line` that line `l` of the array holds. */
  method TiltLanes(tiles: array2<Tile>, dir: Direction, l: int, ghost line: seq<Tile>) returns (counts: seq<nat>)
    requires 0 <= l < LineCount(dir, tiles.Length0, tiles.Length1)
    requires |line| == LineLen(dir, tiles.Length0, tiles.Length1)
    requires forall p :: 0 <= p < |line| ==> At(tiles, dir, l, p) == line[p]
    modifies tiles
    ensures counts == LaneCounts(line)
    ensures forall k, q :: OnPlatform(dir, tiles.Length0, tiles.Length1, k, q) ==>
      At(tiles, dir, k, q) == if k == l then Settle(line)[q] else old(At(tiles, dir, k, q))
  {
    var s, done := 0, false;
    counts := [];
    while !done
      invariant 0 <= s <= |line| + 1
      invariant !done ==> s <= |line| && SettlesFrom(line, s) && CountedBefore(line, s, counts)
      invariant done ==> s == |line| + 1 && counts == LaneCounts(line)
      invariant forall k, q :: OnPlatform(dir, tiles.Length0, tiles.Length1, k, q) ==>
        At(tiles, dir, k, q) == if k == l && q < s then Settle(line)[q] else old(At(tiles, dir, k, q))
      decreases |line| + 1 - s
    {
      done, s, counts := NextLane(tiles, dir, l, s, line, counts);
    }
  }

  /** Every cell of the platform lies on exactly one line of each direction. */
  lemma CellOnLine(dir: Direction, h: int, w: int, y: int, x: int)
    requires 0 <= y < h && 0 <= x < w
    ensures OnPlatform(dir, h, w, LineIdx(dir, y, x), PosIdx(dir, h, w, y, x))
    ensures Row(dir, h, w, LineIdx(dir, y, x), PosIdx(dir, h, w, y, x)) == y
    ensures Col(dir, h, w, LineIdx(dir, y, x), PosIdx(dir, h, w, y, x)) == x
  {
  }

  /** Reading a line of the array gives the same line as reading it from the rows it holds. */
  lemma {:induction false} LineViewOf(tiles: array2<Tile>, dir: Direction, l: int, g: seq<seq<Tile>>)
    requires |g| == tiles.Length0 && Rect(g, tiles.Length1) && 0 <= l < LineCount(dir, |g|, tiles.Length1)
    requires forall q :: 0 <= q < LineLen(dir, |g|, tiles.Length1) ==> At(tiles, dir, l, q) == LineOf(g, tiles.Length1, dir, l)[q]
    ensures LineView(tiles, dir, l) == LineOf(g, tiles.Length1, dir, l)
  {
  }

  /** An array whose every line is the settled line of `g` holds `g` tilted. */
  lemma {:induction false} TiltedContents(tiles: array2<Tile>, dir: Direction, g: seq<seq<Tile>>)
    requires |g| == tiles.Length0 && Rect(g, tiles.Length1)
    requires forall k, q :: OnPlatform(dir, tiles.Length0, tiles.Length1, k, q) ==>
      At(tiles, dir, k, q) == Settle(LineOf(g, tiles.Length1, dir, k))[q]
    ensures Contents(tiles) == TiltGrid(g, tiles.Length1, dir)
  {
    var h, w := tiles.Length0, tiles.Length1;
    var c, t := Contents(tiles), TiltGrid(g, w, dir);
    forall y | 0 <= y < h
      ensures c[y] == t[y]
    {
      forall x | 0 <= x < w
        ensures c[y][x] == t[y][x]
      {
        CellOnLine(dir, h, w, y, x);
        assert c[y][x] == At(tiles, dir, LineIdx(dir, y, x), PosIdx(dir, h, w, y, x));
      }
    }
  }

  /** Lines 0 to `l` - 1 of the array hold the settled lines of `g`, the others those of `g`. */
  ghost predicate TiltedBefore(tiles: array2<Tile>, dir: Direction, g: seq<seq<Tile>>, l: int)
    requires |g| == tiles.Length0 && Rect(g, tiles.Length1)
    reads tiles
  {
    forall k, q :: OnPlatform(dir, tiles.Length0, tiles.Length1, k, q) ==>
      At(tiles, dir, k, q) == if k < l then Settle(LineOf(g, tiles.Length1, dir, k))[q] else LineOf(g, tiles.Length1, dir, k)[q]
  }

  /** One round of `tilt`'s loop: line `l` is settled and its lane counts appended. */
  method TiltNext(tiles: array2<Tile>, dir: Direction, l: int, ghost g: seq<seq<Tile>>, counts: seq<nat>)
    returns (counts': seq<nat>)
    requires |g| == tiles.Length0 && Rect(g, tiles.Length1) && 0 <= l < LineCount(dir, |g|, tiles.Length1)
    requires TiltedBefore(tiles, dir, g, l) && counts == Flatten(LineCounts(g, tiles.Length1, dir)[..l])
    modifies tiles
    ensures TiltedBefore(tiles, dir, g, l + 1) && counts' == Flatten(LineCounts(g, tiles.Length1, dir)[..l + 1])
  {
    LineViewOf(tiles, dir, l, g);
    var c := TiltLine(tiles, dir, l);
    counts' := counts + c;
    FlattenPrefix(LineCounts(g, tiles.Length1, dir), l);
  }

  /**
   * `tilt`: every line of the platform is settled toward `dir`; the lane
   * counts are returned line after line.
   */
  method Tilt(tiles: array2<Tile>, dir: Direction) returns (counts: seq<nat>)
    modifies tiles
    ensures Contents(tiles) == TiltGrid(old(Contents(tiles)), tiles.Length1, dir)
    ensures counts == AllCounts(old(Contents(tiles)), tiles.Length1, dir)
  {
    ghost var g := Contents(tiles);
    counts := [];
    for l := 0 to LineCount(dir, tiles.Length0, tiles.Length1)
      invariant TiltedBefore(tiles, dir, g, l) && counts == Flatten(LineCounts(g, tiles.Length1, dir)[..l])
    {
      counts := TiltNext(tiles, dir, l, g, counts);
    }
    TiltedContents(tiles, dir, g);
    assert LineCounts(g, tiles.Length1, dir)[..LineCount(dir, tiles.Length0, tiles.Length1)] == LineCounts(g, tiles.Length1, dir);
  }

  // ---------------------------------------------------------------------
  // Tilting the platform as a whole

  /** The cells of the platform that hold a cube, as (row, column) pairs. */
  ghost function Cubes(g: seq<seq<Tile>>, w: nat): set<(int, int)>
    requires Rect(g, w)
  {
    set y, x | 0 <= y < |g| && 0 <= x < w && g[y][x] == Cube :: (y, x)
  }

  /** Each line of the tilted platform is the settled line. */
  lemma {:induction false} LineOfTilt(g: seq<seq<Tile>>, w: nat, dir: Direction, l: nat)
    requires Rect(g, w) && l < LineCount(dir, |g|, w)
    ensures LineOf(TiltGrid(g, w, dir), w, dir, l) == Settle(LineOf(g, w, dir, l))
  {
    var t, line := TiltGrid(g, w, dir), LineOf(g, w, dir, l);
    forall p | 0 <= p < LineLen(dir, |g|, w)
      ensures LineOf(t, w, dir, l)[p] == Settle(line)[p]
    {
      var y, x := Row(dir, |g|, w, l, p), Col(dir, |g|, w, l, p);
      assert LineIdx(dir, y, x) == l && PosIdx(dir, |g|, w, y, x) == p;
    }
  }

  /** Tilting moves no cube. */
  lemma {:induction false} TiltKeepsCubes(g: seq<seq<Tile>>, w: nat, dir: Direction)
    requires Rect(g, w)
    ensures Cubes(TiltGrid(g, w, dir), w) == Cubes(g, w)
  {
    var t := TiltGrid(g, w, dir);
    forall y, x | 0 <= y < |g| && 0 <= x < w
      ensures g[y][x] == Cube <==> t[y][x] == Cube
    {
      var l := LineIdx(dir, y, x);
      CellOnLine(dir, |g|, w, y, x);
      SettleCubes(LineOf(g, w, dir, l));
    }
    assert forall c :: c in Cubes(t, w) <==> c in Cubes(g, w);
  }

  /** Tilting keeps every round rock in its line: no rock is lost or made. */
  lemma {:induction false} TiltKeepsRounds(g: seq<seq<Tile>>, w: nat, dir: Direction, l: nat)
    requires Rect(g, w) && l < LineCount(dir, |g|, w)
    ensures Rounds(LineOf(TiltGrid(g, w, dir), w, dir, l)) == Rounds(LineOf(g, w, dir, l))
  {
    LineOfTilt(g, w, dir, l);
    SettleRounds(LineOf(g, w, dir, l));
  }

  lemma {:induction false} SameCubesOnLine(a: seq<seq<Tile>>, b: seq<seq<Tile>>, w: nat, dir: Direction, l: nat)
    requires Rect(a, w) && Rect(b, w) && |a| == |b| && Cubes(a, w) == Cubes(b, w)
    requires l < LineCount(dir, |a|, w)
    ensures SameCubes(LineOf(a, w, dir, l), LineOf(b, w, dir, l))
  {
    var la, lb := LineOf(a, w, dir, l), LineOf(b, w, dir, l);
    forall p | 0 <= p < |la|
      ensures la[p] == Cube <==> lb[p] == Cube
    {
      var y, x := Row(dir, |a|, w, l, p), Col(dir, |a|, w, l, p);
      assert la[p] == Cube <==> (y, x) in Cubes(a, w);
      assert lb[p] == Cube <==> (y, x) in Cubes(b, w);
    }
  }

  lemma {:induction false} AppendSplit(a: seq<nat>, b: seq<nat>, c: seq<nat>, d: seq<nat>)
    requires a + b == c + d && |a| == |c|
    ensures a == c && b == d
  {
    assert a == (a + b)[..|a|] && c == (c + d)[..|c|];
    assert b == (a + b)[|a|..] && d == (c + d)[|c|..];
  }

  lemma {:induction false} FlattenLength(xs: seq<seq<nat>>, ys: seq<seq<nat>>)
    requires |xs| == |ys| && forall i :: 0 <= i < |xs| ==> |xs[i]| == |ys[i]|
    ensures |Flatten(xs)| == |Flatten(ys)|
  {
    if xs != [] {
      FlattenLength(xs[..|xs| - 1], ys[..|ys| - 1]);
    }
  }

  /** Count vectors made of pieces of equal lengths are equal only piece by piece. */
  lemma {:induction false} FlattenSplit(xs: seq<seq<nat>>, ys: seq<seq<nat>>)
    requires |xs| == |ys| && forall i :: 0 <= i < |xs| ==> |xs[i]| == |ys[i]|
    requires Flatten(xs) == Flatten(ys)
    ensures xs == ys
  {
    if xs != [] {
      var n := |xs| - 1;
      FlattenLength(xs[..n], ys[..n]);
      AppendSplit(Flatten(xs[..n]), xs[n], Flatten(ys[..n]), ys[n]);
      FlattenSplit(xs[..n], ys[..n]);
      assert xs == xs[..n] + [xs[n]] && ys == ys[..n] + [ys[n]];
    }
  }

  /**
   * The key of the cycle cache: two platforms with the cubes in the same
   * places and the same count vector for a tilt end up identical after it.
   */
  lemma {:induction false} CountsDetermineTilt(a: seq<seq<Tile>>, b: seq<seq<Tile>>, w: nat, dir: Direction)
    requires Rect(a, w) && Rect(b, w) && |a| == |b| && Cubes(a, w) == Cubes(b, w)
    requires AllCounts(a, w, dir) == AllCounts(b, w, dir)
    ensures TiltGrid(a, w, dir) == TiltGrid(b, w, dir)
  {
    var ta, tb := TiltGrid(a, w, dir), TiltGrid(b, w, dir);
    var xs, ys := LineCounts(a, w, dir), LineCounts(b, w, dir);
    forall l | 0 <= l < |xs|
      ensures |xs[l]| == |ys[l]|
    {
      SameCubesOnLine(a, b, w, dir, l);
      LaneCountsLength(LineOf(a, w, dir, l), LineOf(b, w, dir, l));
    }
    FlattenSplit(xs, ys);
    forall y | 0 <= y < |a|
      ensures ta[y] == tb[y]
    {
      forall x | 0 <= x < w
        ensures ta[y][x] == tb[y][x]
      {
        var l := LineIdx(dir, y, x);
        CellOnLine(dir, |a|, w, y, x);
        SameCubesOnLine(a, b, w, dir, l);
        LaneCountsDetermine(LineOf(a, w, dir, l), LineOf(b, w, dir, l));
      }
    }
  }

  // ---------------------------------------------------------------------
  // Spin cycles

  /** The order of the tilts in one spin cycle. */
  const Directions: seq<Direction> := [N, W, S, E]

  /** The platform after the first `t` tilts of a spin cycle. */
  function PartCycle(g: seq<seq<Tile>>, w: nat, t: nat): (r: seq<seq<Tile>>)
    requires Rect(g, w) && t <= 4
    ensures |r| == |g| && Rect(r, w)
  {
    if t == 0 then g else TiltGrid(PartCycle(g, w, t - 1), w, Directions[t - 1])
  }

  /** The platform after `n` spin cycles. */
  function Spin(g: seq<seq<Tile>>, w: nat, n: nat): (r: seq<seq<Tile>>)
    requires Rect(g, w)
    ensures |r| == |g| && Rect(r, w)
  {
    if n == 0 then g else PartCycle(Spin(g, w, n - 1), w, 4)
  }

  /** The cache key of cycle `n`: the counts of its last tilt, toward the east. */
  function Key(g: seq<seq<Tile>>, w: nat, n: nat): seq<nat>
    requires Rect(g, w) && n >= 1
  {
    AllCounts(PartCycle(Spin(g, w, n - 1), w, 3), w, E)
  }

  lemma {:induction false} PartCycleKeepsCubes(g: seq<seq<Tile>>, w: nat, t: nat)
    requires Rect(g, w) && t <= 4
    ensures Cubes(PartCycle(g, w, t), w) == Cubes(g, w)
  {
    if t > 0 {
      PartCycleKeepsCubes(g, w, t - 1);
      TiltKeepsCubes(PartCycle(g, w, t - 1), w, Directions[t - 1]);
    }
  }

  /** Spinning moves no cube. */
  lemma {:induction false} SpinKeepsCubes(g: seq<seq<Tile>>, w: nat, n: nat)
    requires Rect(g, w)
    ensures Cubes(Spin(g, w, n), w) == Cubes(g, w)
  {
    if n > 0 {
      var n' := n - 1;
      SpinKeepsCubes(g, w, n');
      SpinNext(g, w, n', n);
      PartCycleKeepsCubes(Spin(g, w, n'), w, 4);
    }
  }

  /** Two platforms with the same cubes and the same key end the cycle identical. */
  lemma {:induction false} CycleKeyDetermines(a: seq<seq<Tile>>, b: seq<seq<Tile>>, w: nat)
    requires Rect(a, w) && Rect(b, w) && |a| == |b| && Cubes(a, w) == Cubes(b, w)
    requires AllCounts(PartCycle(a, w, 3), w, E) == AllCounts(PartCycle(b, w, 3), w, E)
    ensures PartCycle(a, w, 4) == PartCycle(b, w, 4)
  {
    PartCycleKeepsCubes(a, w, 3);
    PartCycleKeepsCubes(b, w, 3);
    CountsDetermineTilt(PartCycle(a, w, 3), PartCycle(b, w, 3), w, E);
  }

  /** Cycle `m` starts from the platform after cycle `n` = `m` - 1. */
  lemma SpinNext(g: seq<seq<Tile>>, w: nat, n: nat, m: nat)
    requires Rect(g, w) && m == n + 1
    ensures Spin(g, w, m) == PartCycle(Spin(g, w, n), w, 4)
    ensures Key(g, w, m) == AllCounts(PartCycle(Spin(g, w, n), w, 3), w, E)
  {
    SpinSucc(g, w, n, m);
    KeySucc(g, w, n, m);
  }

  lemma SpinSucc(g: seq<seq<Tile>>, w: nat, n: nat, m: nat)
    requires Rect(g, w) && m == n + 1
    ensures Spin(g, w, m) == PartCycle(Spin(g, w, n), w, 4)
  {
  }

  lemma KeySucc(g: seq<seq<Tile>>, w: nat, n: nat, m: nat)
    requires Rect(g, w) && m == n + 1
    ensures Key(g, w, m) == AllCounts(PartCycle(Spin(g, w, n), w, 3), w, E)
  {
    assert Spin(g, w, m - 1) == Spin(g, w, n);
  }


  /** Equal keys mean equal platforms: the key is a complete record of the state after a cycle. */
  lemma {:induction false} KeyDetermines(g: seq<seq<Tile>>, w: nat, i: nat, j: nat)
    requires Rect(g, w) && i >= 1 && j >= 1
    requires Key(g, w, i) == Key(g, w, j)
    ensures Spin(g, w, i) == Spin(g, w, j)
  {
    var i', j' := i - 1, j - 1;
    SpinNext(g, w, i', i);
    SpinNext(g, w, j', j);
    SpinKeepsCubes(g, w, i');
    SpinKeepsCubes(g, w, j');
    CycleKeyDetermines(Spin(g, w, i'), Spin(g, w, j'), w);
  }

  lemma {:induction false} SpinAdd(g: seq<seq<Tile>>, w: nat, a: nat, b: nat)
    requires Rect(g, w)
    ensures Spin(g, w, a + b) == Spin(Spin(g, w, a), w, b)
  {
    if b > 0 {
      SpinAdd(g, w, a, b - 1);
    }
  }

  /** Once cycle `i` repeats cycle `j`, every whole number of periods later is the same platform again. */
  lemma {:induction false} SpinPeriodic(g: seq<seq<Tile>>, w: nat, j: nat, i: nat, m: nat)
    requires Rect(g, w) && j < i && Spin(g, w, i) == Spin(g, w, j)
    ensures Spin(g, w, i + m * (i - j)) == Spin(g, w, i)
  {
    if m > 0 {
      var d, m' := i - j, m - 1;
      var k := i + m' * d;
      SpinPeriodic(g, w, j, i, m');
      SpinAdd(g, w, k, d);
      SpinAdd(g, w, j, d);
      MulStep(i, m, d);
    }
  }

  lemma MulStep(i: int, m: int, d: int)
    ensures i + (m - 1) * d + d == i + m * d
  {
  }

  /** One spin cycle: the platform is tilted north, west, south and east; the east counts are returned. */
  method Cycle(tiles: array2<Tile>) returns (key: seq<nat>)
    modifies tiles
    ensures Contents(tiles) == PartCycle(old(Contents(tiles)), tiles.Length1, 4)
    ensures key == AllCounts(PartCycle(old(Contents(tiles)), tiles.Length1, 3), tiles.Length1, E)
  {
    ghost var g := Contents(tiles);
    key := [];
    for t := 0 to |Directions|
      invariant Contents(tiles) == PartCycle(g, tiles.Length1, t)
      invariant t > 0 ==> key == AllCounts(PartCycle(g, tiles.Length1, t - 1), tiles.Length1, Directions[t - 1])
    {
      key := Tilt(tiles, Directions[t]);
    }
  }

  lemma DivBounds(rem: nat, diff: nat)
    requires diff > 0
    ensures 0 <= (rem / diff) * diff <= rem && rem - (rem / diff) * diff < diff
  {
    assert rem == (rem / diff) * diff + rem % diff;
  }

  /**
   * The jump of `spin_cycle` once cycle `i` repeats cycle `j`: as many whole
   * periods as fit before `cycles`, so that less than one period is left.
   */
  function Skip(i: nat, j: nat, cycles: nat): (r: nat)
    requires j < i <= cycles
    ensures i <= r <= cycles && cycles - r < i - j
  {
    var diff, rem := i - j, cycles - i;
    DivBounds(rem, diff);
    i + (rem / diff) * diff
  }

  /** Skipping whole periods leads to the same platform. */
  lemma SkipPeriods(g: seq<seq<Tile>>, w: nat, j: nat, i: nat, cycles: nat)
    requires Rect(g, w) && j < i <= cycles && Spin(g, w, i) == Spin(g, w, j)
    ensures Spin(g, w, Skip(i, j, cycles)) == Spin(g, w, i)
  {
    var m := (cycles - i) / (i - j);
    SpinPeriodic(g, w, j, i, m);
    assert Skip(i, j, cycles) == i + m * (i - j);
  }

  /**
   * `spin_cycle`: runs `cycles` spin cycles. The key of every cycle is
   * remembered with the first cycle that produced it; when a key comes
   * back, whole periods are skipped.
   */
  method SpinCycle(tiles: array2<Tile>, cycles: nat)
    requires cycles >= 1
    modifies tiles
    ensures Contents(tiles) == Spin(old(Contents(tiles)), tiles.Length1, cycles)
  {
    ghost var g := Contents(tiles);
    ghost var w := tiles.Length1;
    var cache: map<seq<nat>, nat> := map[];
    var i := 0;
    while true
      invariant 0 <= i < cycles
      invariant Contents(tiles) == Spin(g, w, i)
      invariant forall key :: key in cache ==> 1 <= cache[key] <= i && Key(g, w, cache[key]) == key
      decreases cycles - i
    {
      ghost var prev := i;
      i := i + 1;
      var k := Cycle(tiles);
      SpinNext(g, w, prev, i);
      var j;
      if k in cache {
        j := cache[k];
      } else {
        cache := cache[k := i];
        j := i;
      }
      if i != j {
        KeyDetermines(g, w, i, j);
        SkipPeriods(g, w, j, i, cycles);
        i := Skip(i, j, cycles);
      }
      if i == cycles {
        break;
      }
    }
  }

  // ---------------------------------------------------------------------
  // Load on the north support beams

  /**
   * `calc_load_internal` on the rest `s` of a column, from the current row
   * down to the south edge; the next round rock found counts `load`, and the
   * row under a cube counts `|s|` - 1, the number of rows from it to the edge.
   */
  function LoadInternal(s: seq<Tile>, load: int): int
  {
    if s == [] then 0
    else match s[0]
      case Round => load + LoadInternal(s[1..], load - 1)
      case Cube => LoadInternal(s[1..], |s| - 1)
      case Empty => LoadInternal(s[1..], load)
  }

  /** The sum of `calc_load_internal` over the first `n` columns, each starting with the platform's height. */
  function LoadColumns(g: seq<seq<Tile>>, w: nat, n: nat): int
    requires Rect(g, w) && n <= w
  {
    if n == 0 then 0 else LoadColumns(g, w, n - 1) + LoadInternal(LineOf(g, w, N, n - 1), |g|)
  }

  /** `calc_load`, the answer of part one. */
  function CalcLoad(g: seq<seq<Tile>>, w: nat): int
    requires Rect(g, w)
  {
    LoadColumns(g, w, w)
  }

  /** The load of a column read from the top: a round rock in row `i` weighs `base` - `i`. */
  function ColumnLoad(s: seq<Tile>, base: int): int
  {
    if s == [] then 0 else (if s[0] == Round then base else 0) + ColumnLoad(s[1..], base - 1)
  }

  /** The load of the whole platform: every round rock weighs the number of rows from it to the south edge. */
  function NorthLoad(g: seq<seq<Tile>>, w: nat): int
    requires Rect(g, w)
  {
    NorthLoadColumns(g, w, w)
  }

  function NorthLoadColumns(g: seq<seq<Tile>>, w: nat, n: nat): int
    requires Rect(g, w) && n <= w
  {
    if n == 0 then 0 else NorthLoadColumns(g, w, n - 1) + ColumnLoad(LineOf(g, w, N, n - 1), |g|)
  }

  /** `n` round rocks packed from a row of weight `load` down: `load` + (`load` - 1) + ... */
  function Staircase(n: nat, load: int): int
  {
    if n == 0 then 0 else load + Staircase(n - 1, load - 1)
  }

  lemma {:induction false} ColumnLoadAppend(a: seq<Tile>, b: seq<Tile>, base: int)
    ensures ColumnLoad(a + b, base) == ColumnLoad(a, base) + ColumnLoad(b, base - |a|)
  {
    if a != [] {
      assert (a + b)[1..] == a[1..] + b;
      ColumnLoadAppend(a[1..], b, base - 1);
    } else {
      assert a + b == b;
    }
  }

  lemma {:induction false} PackedLoad(n: nat, len: nat, base: int)
    requires n <= len
    ensures ColumnLoad(Packed(n, len), base) == Staircase(n, base)
  {
    if len > 0 {
      var n' := if n > 0 then n - 1 else 0;
      assert Packed(n, len)[1..] == Packed(n', len - 1);
      PackedLoad(n', len - 1, base - 1);
    }
  }

  /**
   * `calc_load_internal` over one lane: the lane's round rocks count as if
   * packed from the current load down, and the next lane starts below its
   * cube with the load of the row under the cube.
   */
  lemma {:induction false} InternalLane(s: seq<Tile>, load: int)
    ensures var k := FirstCube(s);
      LoadInternal(s, load) ==
        Staircase(Rounds(s[..k]), load) + (if k < |s| then LoadInternal(s[k + 1..], |s| - k - 1) else 0)
  {
    if s != [] && s[0] != Cube {
      var s', load' := s[1..], if s[0] == Round then load - 1 else load;
      var k, k' := FirstCube(s), FirstCube(s');
      assert k == k' + 1;
      InternalLane(s', load');
      assert s[..k][1..] == s'[..k'];
      if k' < |s'| {
        assert s[k + 1..] == s'[k' + 1..];
      }
    }
  }

  /** The step of `InternalSettled` for a lane that ends at a cube. */
  lemma LoadLaneStep(s: seq<Tile>, k: nat, n: nat)
    requires k == FirstCube(s) < |s| && n == Rounds(s[..k])
    requires LoadInternal(s[k + 1..], |s| - k - 1) == ColumnLoad(Settle(s[k + 1..]), |s| - k - 1)
    ensures LoadInternal(s, |s|) == ColumnLoad(Settle(s), |s|)
  {
    InternalLaneAt(s, k, n);
    SettledLaneLoad(s, k, n);
  }

  lemma InternalLaneAt(s: seq<Tile>, k: nat, n: nat)
    requires k == FirstCube(s) < |s| && n == Rounds(s[..k])
    ensures LoadInternal(s, |s|) == Staircase(n, |s|) + LoadInternal(s[k + 1..], |s| - k - 1)
  {
    InternalLane(s, |s|);
  }

  /** The load of a tilted column: the packed first lane, then the tilted rest below the cube. */
  lemma SettledLaneLoad(s: seq<Tile>, k: nat, n: nat)
    requires k == FirstCube(s) < |s| && n == Rounds(s[..k])
    ensures ColumnLoad(Settle(s), |s|) == Staircase(n, |s|) + ColumnLoad(Settle(s[k + 1..]), |s| - k - 1)
  {
    SettleAt(s, k, n);
    RoundsBound(s[..k]);
    var packed, settled := Packed(n, k), Settle(s[k + 1..]);
    var head := packed + [Cube];
    assert Settle(s) == head + settled;
    PackedLoad(n, k, |s|);
    ColumnLoadAppend(head, settled, |s|);
    ColumnLoadAppend(packed, [Cube], |s|);
    assert |head| == k + 1;
    assert ColumnLoad([Cube], |s| - k) == 0 by {
      assert [Cube][1..] == [];
    }
  }


  /** `calc_load_internal` from a lane start is the load of the rest of the column tilted north. */
  lemma {:induction false} InternalSettled(s: seq<Tile>)
    ensures LoadInternal(s, |s|) == ColumnLoad(Settle(s), |s|)
    decreases |s|
  {
    var k := FirstCube(s);
    if k < |s| {
      InternalSettled(s[k + 1..]);
      LoadLaneStep(s, k, Rounds(s[..k]));
    } else {
      InternalLane(s, |s|);
      SettleUnfold(s);
      RoundsBound(s);
      PackedLoad(Rounds(s), |s|, |s|);
      assert s[..k] == s;
    }
  }

  /** Part one computes the load of the platform tilted north, column by column. */
  lemma {:induction false} CalcLoadTilted(g: seq<seq<Tile>>, w: nat, n: nat)
    requires Rect(g, w) && n <= w
    ensures LoadColumns(g, w, n) == NorthLoadColumns(TiltGrid(g, w, N), w, n)
  {
    if n > 0 {
      var c := n - 1;
      var t := TiltGrid(g, w, N);
      CalcLoadTilted(g, w, c);
      InternalSettled(LineOf(g, w, N, c));
      LineOfTilt(g, w, N, c);
      ColumnsNext(g, t, w, c, n);
    }
  }

  lemma ColumnsNext(g: seq<seq<Tile>>, t: seq<seq<Tile>>, w: nat, c: nat, n: nat)
    requires Rect(g, w) && Rect(t, w) && |t| == |g| && n == c + 1 <= w
    ensures LoadColumns(g, w, n) == LoadColumns(g, w, c) + LoadInternal(LineOf(g, w, N, c), |g|)
    ensures NorthLoadColumns(t, w, n) == NorthLoadColumns(t, w, c) + ColumnLoad(LineOf(t, w, N, c), |g|)
  {
  }

  /** Part one computes the load of the platform tilted north, without tilting it. */
  lemma PartATilted(g: seq<seq<Tile>>, w: nat)
    requires Rect(g, w)
    ensures CalcLoad(g, w) == NorthLoad(TiltGrid(g, w, N), w)
  {
    CalcLoadTilted(g, w, w);
  }

  /**
   * Part two: a copy of the platform is spun a billion times, then every
   * round rock adds the number of rows from it to the south edge.
   */
  method PartB(tiles: array2<Tile>) returns (load: int)
    ensures load == NorthLoad(Spin(Contents(tiles), tiles.Length1, 1000000000), tiles.Length1)
  {
    ghost var g := Contents(tiles);
    var copy := new Tile[tiles.Length0, tiles.Length1]((y, x) reads tiles =>
      if 0 <= y < tiles.Length0 && 0 <= x < tiles.Length1 then tiles[y, x] else Empty);
    forall y | 0 <= y < tiles.Length0
      ensures Contents(copy)[y] == g[y]
    {
      assert forall x :: 0 <= x < tiles.Length1 ==> Contents(copy)[y][x] == g[y][x];
    }
    assert Contents(copy) == g;
    SpinCycle(copy, 1000000000);
    assert Contents(tiles) == g;
    load := NorthLoad(Contents(copy), copy.Length1);
  }

  // ---------------------------------------------------------------------
  // Where the lanes start

  /** The cubes among the first `k` cells of row `y`, as (column, row) pairs, left to right. */
  function RowCubes(row: seq<Tile>, y: int, k: nat): (r: seq<(int, int)>)
    requires k <= |row|
    ensures forall p :: p in r <==> p.1 == y && 0 <= p.0 < k && row[p.0] == Cube
  {
    if k == 0 then [] else RowCubes(row, y, k - 1) + (if row[k - 1] == Cube then [(k - 1, y)] else [])
  }

  /** The cubes of the first `n` rows, row after row. */
  function GridCubes(g: seq<seq<Tile>>, w: nat, n: nat): (r: seq<(int, int)>)
    requires Rect(g, w) && n <= |g|
    ensures forall p :: p in r <==> 0 <= p.1 < n && 0 <= p.0 < w && g[p.1][p.0] == Cube
  {
    if n == 0 then [] else GridCubes(g, w, n - 1) + RowCubes(g[n - 1], n - 1, w)
  }

  /**
   * `cube_rocks`: the cubes of the platform as (column, row) pairs, then a
   * virtual cube just outside every cell of the west, east, north and south
   * edges.
   */
  function CubeRocks(g: seq<seq<Tile>>, w: nat): (r: seq<(int, int)>)
    requires Rect(g, w)
    ensures |r| >= 2 * |g| + 2 * w
    ensures forall p :: p in r <==>
      (0 <= p.1 < |g| && 0 <= p.0 < w && g[p.1][p.0] == Cube) ||
      ((p.0 == -1 || p.0 == w) && 0 <= p.1 < |g|) ||
      ((p.1 == -1 || p.1 == |g|) && 0 <= p.0 < w)
  {
    GridCubes(g, w, |g|) + ColumnOf(-1, |g|) + ColumnOf(w, |g|) + RowOf(-1, w) + RowOf(|g|, w)
  }

  /** The cells (`x`, 0) to (`x`, `n` - 1). */
  function ColumnOf(x: int, n: nat): (r: seq<(int, int)>)
    ensures |r| == n && forall p :: p in r <==> p.0 == x && 0 <= p.1 < n
  {
    if n == 0 then [] else ColumnOf(x, n - 1) + [(x, n - 1)]
  }

  /** The cells (0, `y`) to (`n` - 1, `y`). */
  function RowOf(y: int, n: nat): (r: seq<(int, int)>)
    ensures |r| == n && forall p :: p in r <==> p.1 == y && 0 <= p.0 < n
  {
    if n == 0 then [] else RowOf(y, n - 1) + [(n - 1, y)]
  }

  /**
   * Every lane of the line model starts at an entry of `cube_rocks`: the
   * position just outside the edge the rocks roll toward, or a cube.
   */
  lemma LaneStartsListed(g: seq<seq<Tile>>, w: nat, dir: Direction, l: nat, p: int)
    requires Rect(g, w) && l < LineCount(dir, |g|, w)
    requires p == -1 || (0 <= p < LineLen(dir, |g|, w) && LineOf(g, w, dir, l)[p] == Cube)
    ensures (Col(dir, |g|, w, l, p), Row(dir, |g|, w, l, p)) in CubeRocks(g, w)
  {
  }
}
