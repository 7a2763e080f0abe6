/**
 * Year 2023, day 22: sand bricks fall onto each other.  The bricks are
 * sorted, dropped in order onto a height map, then each brick's supporters
 * are recorded, and removing a brick topples every later brick whose
 * supporters have all fallen.
 */
module Y2023Day22 {
  import opened Common

  const I32_MIN: int := -0x8000_0000
  const I32_MAX: int := 0x7fff_ffff

  type Point = (int, int, int)

  /** A brick as its two opposite corners. */
  datatype Brick = Brick(lower: Point, upper: Point)

  predicate InI32(b: Brick)
  {
    I32_MIN <= b.lower.0 <= I32_MAX && I32_MIN <= b.lower.1 <= I32_MAX && I32_MIN <= b.lower.2 <= I32_MAX
    && I32_MIN <= b.upper.0 <= I32_MAX && I32_MIN <= b.upper.1 <= I32_MAX && I32_MIN <= b.upper.2 <= I32_MAX
  }

  /** The corners are ordered componentwise: `lower` is the minimum and `upper` the maximum. */
  predicate Normal(b: Brick)
  {
    b.lower.0 <= b.upper.0 && b.lower.1 <= b.upper.1 && b.lower.2 <= b.upper.2
  }

  /** The brick occupies at least one column, so its footprint has a highest cell below it. */
  predicate Footprint(b: Brick)
  {
    b.lower.0 <= b.upper.0 && b.lower.1 <= b.upper.1
  }

  /** The brick stands on the cell (x, y). */
  predicate Covers(b: Brick, x: int, y: int)
  {
    b.lower.0 <= x <= b.upper.0 && b.lower.1 <= y <= b.upper.1
  }

  // ---------------------------------------------------------------------
  // Ordering

  function Cmp(a: int, b: int): int
  {
    if a < b then -1 else if a > b then 1 else 0
  }

  /** Comparisons chained with `then_with`: the first one that is not equal decides. */
  function LexCmp(x: seq<int>, y: seq<int>): (r: int)
    requires |x| == |y|
    ensures -1 <= r <= 1
    ensures r == 0 <==> x == y
  {
    if x == [] then 0
    else
      var c := Cmp(x[0], y[0]);
      assert x == [x[0]] + x[1..] && y == [y[0]] + y[1..];
      if c != 0 then c else LexCmp(x[1..], y[1..])
  }

  lemma {:induction false} LexAntisymmetric(x: seq<int>, y: seq<int>)
    requires |x| == |y|
    ensures LexCmp(y, x) == -LexCmp(x, y)
  {
    if x != [] && x[0] == y[0] {
      LexAntisymmetric(x[1..], y[1..]);
    }
  }

  lemma {:induction false} LexTransitive(x: seq<int>, y: seq<int>, z: seq<int>)
    requires |x| == |y| == |z| && LexCmp(x, y) <= 0 && LexCmp(y, z) <= 0
    ensures LexCmp(x, z) <= 0
  {
    if x != [] && x[0] == y[0] == z[0] {
      LexTransitive(x[1..], y[1..], z[1..]);
    }
  }

  /** The sort key: `lower.z`, `lower.x`, `lower.y`, `upper.z`, `upper.x`, `upper.y`, in that priority. */
  function Key(b: Brick): seq<int>
  {
    [b.lower.2, b.lower.0, b.lower.1, b.upper.2, b.upper.0, b.upper.1]
  }

  /** The brick order: a total order in which only equal bricks compare equal. */
  function Compare(a: Brick, b: Brick): (r: int)
    ensures -1 <= r <= 1
    ensures r == 0 <==> a == b
  {
    var (ka, kb) := (Key(a), Key(b));
    assert ka == kb ==> a == b by {
      if ka == kb {
        assert ka[0] == kb[0] && ka[1] == kb[1] && ka[2] == kb[2];
        assert ka[3] == kb[3] && ka[4] == kb[4] && ka[5] == kb[5];
      }
    }
    LexCmp(ka, kb)
  }

  lemma CompareAntisymmetric(a: Brick, b: Brick)
    ensures Compare(b, a) == -Compare(a, b)
  {
    LexAntisymmetric(Key(a), Key(b));
  }

  predicate Le(a: Brick, b: Brick)
  {
    Compare(a, b) <= 0
  }

  lemma LeTransitive(a: Brick, b: Brick, c: Brick)
    requires Le(a, b) && Le(b, c)
    ensures Le(a, c)
  {
    LexTransitive(Key(a), Key(b), Key(c));
  }

  /** A brick with a lower bottom comes first. */
  lemma LowerFirst(a: Brick, b: Brick)
    requires a.lower.2 < b.lower.2
    ensures Compare(a, b) == -1
  {
  }

  // ---------------------------------------------------------------------
  // Sorting

  predicate Sorted(s: seq<Brick>)
  {
    forall i, j | 0 <= i < j < |s| :: Le(s[i], s[j])
  }

  /** `b` put into its place in the sorted `s`. */
  function Insert(b: Brick, s: seq<Brick>): (r: seq<Brick>)
    ensures |r| == |s| + 1
  {
    if s == [] || Le(b, s[0]) then [b] + s else [s[0]] + Insert(b, s[1..])
  }

  lemma {:induction false} InsertCounts(b: Brick, s: seq<Brick>)
    ensures multiset(Insert(b, s)) == multiset(s) + multiset{b}
  {
    if s != [] && !Le(b, s[0]) {
      InsertCounts(b, s[1..]);
      assert s == [s[0]] + s[1..];
    }
  }

  lemma InsertFront(b: Brick, s: seq<Brick>)
    requires Sorted(s) && (s == [] || Le(b, s[0]))
    ensures Sorted([b] + s)
  {
    var r := [b] + s;
    forall i, j | 0 <= i < j < |r|
      ensures Le(r[i], r[j])
    {
      if i == 0 && j > 1 {
        LeTransitive(b, s[0], s[j - 1]);
      }
    }
  }

  lemma InsertBehind(a: Brick, b: Brick, t: seq<Brick>, rest: seq<Brick>)
    requires Sorted(rest) && multiset(rest) == multiset(t) + multiset{b}
    requires Le(a, b) && forall k | 0 <= k < |t| :: Le(a, t[k])
    ensures Sorted([a] + rest)
  {
    var r := [a] + rest;
    forall i, j | 0 <= i < j < |r|
      ensures Le(r[i], r[j])
    {
      if i == 0 {
        assert rest[j - 1] in multiset(rest);
        if rest[j - 1] != b {
          assert rest[j - 1] in multiset(t);
        }
      } else {
        assert r[i] == rest[i - 1] && r[j] == rest[j - 1];
      }
    }
  }

  lemma {:induction false} InsertSorted(b: Brick, s: seq<Brick>)
    requires Sorted(s)
    ensures Sorted(Insert(b, s))
  {
    if s == [] || Le(b, s[0]) {
      InsertFront(b, s);
    } else {
      var t := s[1..];
      InsertSorted(b, t);
      InsertCounts(b, t);
      CompareAntisymmetric(b, s[0]);
      assert forall k | 0 <= k < |t| :: Le(s[0], t[k]) by {
        forall k | 0 <= k < |t|
          ensures Le(s[0], t[k])
        {
          assert t[k] == s[k + 1];
        }
      }
      InsertBehind(s[0], b, t, Insert(b, t));
    }
  }

  /** `sort_unstable`: the sorted permutation of the bricks. */
  function Sort(s: seq<Brick>): (r: seq<Brick>)
    ensures Sorted(r) && multiset(r) == multiset(s) && |r| == |s|
  {
    if s == [] then []
    else
      var init := Sort(s[..|s| - 1]);
      InsertSorted(s[|s| - 1], init);
      InsertCounts(s[|s| - 1], init);
      assert s == s[..|s| - 1] + [s[|s| - 1]];
      Insert(s[|s| - 1], init)
  }

  /**
   * Two non-empty sorted sequences with the same bricks start with the same
   * brick: each first brick is at most the other, and only equal bricks
   * compare equal.
   */
  lemma SortedSameFirst(s: seq<Brick>, t: seq<Brick>)
    requires s != [] && t != [] && Sorted(s) && Sorted(t) && multiset(s) == multiset(t)
    ensures s[0] == t[0]
  {
    assert s[0] in multiset(t) && t[0] in multiset(s);
    var i :| 0 <= i < |t| && t[i] == s[0];
    var j :| 0 <= j < |s| && s[j] == t[0];
    assert Le(t[0], t[i]) && Le(s[0], s[j]);
    CompareAntisymmetric(s[0], t[0]);
  }

  lemma SortedTail(s: seq<Brick>)
    requires s != [] && Sorted(s)
    ensures Sorted(s[1..]) && multiset(s[1..]) == multiset(s) - multiset{s[0]}
  {
    assert s == [s[0]] + s[1..];
  }

  /**
   * Two sorted sequences with the same bricks are equal: because only equal
   * bricks compare equal, an unstable sort has exactly one possible result.
   */
  lemma {:induction false} SortedUnique(s: seq<Brick>, t: seq<Brick>)
    requires Sorted(s) && Sorted(t) && multiset(s) == multiset(t)
    ensures s == t
    decreases |s|
  {
    if s != [] {
      assert |t| == |multiset(t)| == |s| > 0;
      SortedSameFirst(s, t);
      SortedTail(s);
      SortedTail(t);
      SortedUnique(s[1..], t[1..]);
      assert s == [s[0]] + s[1..] && t == [t[0]] + t[1..];
    }
  }

  // ---------------------------------------------------------------------
  // The tower area and the height maps

  /** The smallest and largest `x` and `y` any brick reaches. */
  datatype Area = Area(minX: int, minY: int, maxX: int, maxY: int)

  /** The fold of `get_tower_area`, starting from the extreme `i32` values. */
  function TowerArea(bricks: seq<Brick>): (r: Area)
    ensures r.minX <= I32_MAX && r.minY <= I32_MAX && I32_MIN <= r.maxX && I32_MIN <= r.maxY
    ensures forall k | 0 <= k < |bricks| :: Inside(r, bricks[k])
  {
    if bricks == [] then Area(I32_MAX, I32_MAX, I32_MIN, I32_MIN)
    else
      var a := TowerArea(bricks[..|bricks| - 1]);
      var b := bricks[|bricks| - 1];
      Area(Min(a.minX, b.lower.0), Min(a.minY, b.lower.1), Max(a.maxX, b.upper.0), Max(a.maxY, b.upper.1))
  }

  /** Each bound of the area is reached by some brick, unless it kept its starting value. */
  lemma {:induction false} TowerAreaTight(bricks: seq<Brick>)
    ensures var r := TowerArea(bricks);
      && (r.minX == I32_MAX || exists k | 0 <= k < |bricks| :: bricks[k].lower.0 == r.minX)
      && (r.minY == I32_MAX || exists k | 0 <= k < |bricks| :: bricks[k].lower.1 == r.minY)
      && (r.maxX == I32_MIN || exists k | 0 <= k < |bricks| :: bricks[k].upper.0 == r.maxX)
      && (r.maxY == I32_MIN || exists k | 0 <= k < |bricks| :: bricks[k].upper.1 == r.maxY)
  {
    if bricks != [] {
      var init := bricks[..|bricks| - 1];
      TowerAreaTight(init);
      assert forall k | 0 <= k < |init| :: init[k] == bricks[k];
    }
  }

  /** The footprint of `b` lies within the area. */
  predicate Inside(area: Area, b: Brick)
  {
    area.minX <= b.lower.0 && b.upper.0 <= area.maxX && area.minY <= b.lower.1 && b.upper.1 <= area.maxY
  }

  predicate InArea(area: Area, x: int, y: int)
  {
    area.minX <= x <= area.maxX && area.minY <= y <= area.maxY
  }

  predicate Proper(area: Area)
  {
    area.minX <= area.maxX && area.minY <= area.maxY
  }

  function Width(area: Area): int
  {
    area.maxX - area.minX + 1
  }

  function Depth(area: Area): int
  {
    area.maxY - area.minY + 1
  }

  /** The column of the wrapping height map that holds `x`. */
  function SlotX(area: Area, x: int): (r: int)
    requires Proper(area)
    ensures 0 <= r < Width(area)
  {
    x % Width(area)
  }

  /** The row of the wrapping height map that holds `y`. */
  function SlotY(area: Area, y: int): (r: int)
    requires Proper(area)
    ensures 0 <= r < Depth(area)
  {
    y % Depth(area)
  }

  /** Within one period, the Euclidean remainder tells values apart. */
  lemma WrapInjective(a: int, b: int, lo: int, n: int)
    requires n > 0 && lo <= a < lo + n && lo <= b < lo + n && a % n == b % n
    ensures a == b
  {
    var k := a / n - b / n;
    assert a - b == k * n by {
      assert (a / n) * n - (b / n) * n == k * n;
    }
    if k >= 1 {
      MulMono(1, k, n);
    } else if k <= -1 {
      MulMono(k, -1, n);
    }
  }

  /** Distinct cells of the area use distinct cells of the height map. */
  lemma SlotsApart(area: Area, x: int, y: int)
    requires Proper(area) && InArea(area, x, y)
    ensures forall cx | area.minX <= cx <= area.maxX && cx != x :: SlotX(area, cx) != SlotX(area, x)
    ensures forall cy | area.minY <= cy <= area.maxY && cy != y :: SlotY(area, cy) != SlotY(area, y)
  {
    forall cx | area.minX <= cx <= area.maxX && SlotX(area, cx) == SlotX(area, x)
      ensures cx == x
    {
      WrapInjective(cx, x, area.minX, Width(area));
    }
    forall cy | area.minY <= cy <= area.maxY && SlotY(area, cy) == SlotY(area, y)
      ensures cy == y
    {
      WrapInjective(cy, y, area.minY, Depth(area));
    }
  }

  // ---------------------------------------------------------------------
  // Falling

  /** The index of the last of `placed` standing on (x, y), or -1. */
  function LastIdx(placed: seq<Brick>, x: int, y: int): (r: int)
    ensures -1 <= r < |placed|
  {
    if placed == [] then -1
    else if Covers(placed[|placed| - 1], x, y) then |placed| - 1
    else LastIdx(placed[..|placed| - 1], x, y)
  }

  /** `LastIdx` finds the last brick on the column, and -1 exactly when there is none. */
  lemma {:induction false} LastIdxIsLast(placed: seq<Brick>, x: int, y: int)
    ensures var r := LastIdx(placed, x, y);
      && (r >= 0 ==> Covers(placed[r], x, y))
      && forall k | r < k < |placed| :: !Covers(placed[k], x, y)
  {
    if placed != [] && !Covers(placed[|placed| - 1], x, y) {
      LastIdxIsLast(placed[..|placed| - 1], x, y);
    }
  }

  /** The height of the column (x, y): the top of the last brick standing on it, or the ground, 0. */
  function Top(placed: seq<Brick>, x: int, y: int): int
  {
    var j := LastIdx(placed, x, y);
    if j < 0 then 0 else placed[j].upper.2
  }

  /** One more brick changes exactly the columns it stands on. */
  lemma TopAppend(placed: seq<Brick>, nb: Brick, x: int, y: int)
    ensures LastIdx(placed + [nb], x, y) == if Covers(nb, x, y) then |placed| else LastIdx(placed, x, y)
    ensures Top(placed + [nb], x, y) == if Covers(nb, x, y) then nb.upper.2 else Top(placed, x, y)
  {
    assert (placed + [nb])[..|placed|] == placed;
  }

  /** The highest column among x, ly..=uy. */
  function ColumnMax(placed: seq<Brick>, x: int, ly: int, uy: int): (r: int)
    requires ly <= uy
    decreases uy - ly
  {
    var t := Top(placed, x, uy);
    if uy == ly then t else Max(ColumnMax(placed, x, ly, uy - 1), t)
  }

  lemma {:induction false} ColumnMaxIsMax(placed: seq<Brick>, x: int, ly: int, uy: int)
    requires ly <= uy
    ensures forall cy | ly <= cy <= uy :: Top(placed, x, cy) <= ColumnMax(placed, x, ly, uy)
    ensures exists cy | ly <= cy <= uy :: Top(placed, x, cy) == ColumnMax(placed, x, ly, uy)
    decreases uy - ly
  {
    if uy > ly {
      ColumnMaxIsMax(placed, x, ly, uy - 1);
      var cy :| ly <= cy <= uy - 1 && Top(placed, x, cy) == ColumnMax(placed, x, ly, uy - 1);
      if Top(placed, x, uy) < ColumnMax(placed, x, ly, uy - 1) {
        assert Top(placed, x, cy) == ColumnMax(placed, x, ly, uy);
      } else {
        assert Top(placed, x, uy) == ColumnMax(placed, x, ly, uy);
      }
    } else {
      assert Top(placed, x, uy) == ColumnMax(placed, x, ly, uy);
    }
  }

  /** The highest column in the rectangle lx..=ux by ly..=uy. */
  function AreaMax(placed: seq<Brick>, lx: int, ux: int, ly: int, uy: int): (r: int)
    requires lx <= ux && ly <= uy
    decreases ux - lx
  {
    var c := ColumnMax(placed, ux, ly, uy);
    if ux == lx then c else Max(AreaMax(placed, lx, ux - 1, ly, uy), c)
  }

  /** `AreaMax` is the height of the highest column of the rectangle. */
  lemma {:induction false} AreaMaxIsMax(placed: seq<Brick>, lx: int, ux: int, ly: int, uy: int)
    requires lx <= ux && ly <= uy
    ensures forall cx, cy | lx <= cx <= ux && ly <= cy <= uy :: Top(placed, cx, cy) <= AreaMax(placed, lx, ux, ly, uy)
    ensures exists cx, cy | lx <= cx <= ux && ly <= cy <= uy :: Top(placed, cx, cy) == AreaMax(placed, lx, ux, ly, uy)
    decreases ux - lx
  {
    ColumnMaxIsMax(placed, ux, ly, uy);
    if ux > lx {
      AreaMaxIsMax(placed, lx, ux - 1, ly, uy);
    }
  }

  /** `b` dropped onto `placed`: it keeps its footprint and height and rests one above the highest column under it. */
  function Land(placed: seq<Brick>, b: Brick): (r: Brick)
    requires Footprint(b)
    ensures r.lower.0 == b.lower.0 && r.lower.1 == b.lower.1 && r.upper.0 == b.upper.0 && r.upper.1 == b.upper.1
    ensures r.upper.2 - r.lower.2 == b.upper.2 - b.lower.2
  {
    var ground := AreaMax(placed, b.lower.0, b.upper.0, b.lower.1, b.upper.1) + 1;
    Brick((b.lower.0, b.lower.1, ground), (b.upper.0, b.upper.1, ground + (b.upper.2 - b.lower.2)))
  }

  predicate AllFootprints(s: seq<Brick>)
  {
    forall k | 0 <= k < |s| :: Footprint(s[k])
  }

  /** The bricks dropped in order, each onto the ones dropped before it. */
  function Fall(s: seq<Brick>): (r: seq<Brick>)
    requires AllFootprints(s)
    ensures |r| == |s| && AllFootprints(r)
  {
    if s == [] then []
    else
      var p := Fall(s[..|s| - 1]);
      p + [Land(p, s[|s| - 1])]
  }

  /** Dropping a prefix gives a prefix: each brick lands where `Land` puts it on the bricks before it. */
  lemma {:induction false} FallPrefix(s: seq<Brick>, i: nat)
    requires AllFootprints(s) && i <= |s|
    ensures Fall(s)[..i] == Fall(s[..i])
    ensures i < |s| ==> Fall(s)[i] == Land(Fall(s[..i]), s[i])
    decreases |s|
  {
    if i == |s| {
      assert s[..i] == s;
    } else {
      var init := s[..|s| - 1];
      assert Fall(s) == Fall(init) + [Land(Fall(init), s[|s| - 1])];
      if i < |s| - 1 {
        assert init[..i] == s[..i] && init[i] == s[i];
        FallPrefix(init, i);
        assert Fall(s)[..i] == Fall(init)[..i];
        assert Fall(s)[i] == Fall(init)[i];
      } else {
        assert s[..i] == init;
      }
    }
  }

  /** The height map holds every column's height. */
  ghost predicate Heights(hm: array2<int>, area: Area, placed: seq<Brick>)
    reads hm
  {
    Proper(area) && hm.Length0 == Width(area) && hm.Length1 == Depth(area)
    && forall x, y | InArea(area, x, y) :: hm[SlotX(area, x), SlotY(area, y)] == Top(placed, x, y)
  }

  /** The columns of `nb` before column `x`, and those of column `x` before row `y`. */
  predicate Before(nb: Brick, cx: int, cy: int, x: int, y: int)
  {
    Covers(nb, cx, cy) && (cx < x || (cx == x && cy < y))
  }

  /** The height map while `nb` is being written into it, up to (x, y). */
  ghost predicate Raised(hm: array2<int>, area: Area, placed: seq<Brick>, nb: Brick, x: int, y: int)
    reads hm
  {
    Proper(area) && hm.Length0 == Width(area) && hm.Length1 == Depth(area)
    && forall cx, cy | InArea(area, cx, cy) ::
         hm[SlotX(area, cx), SlotY(area, cy)] == if Before(nb, cx, cy, x, y) then nb.upper.2 else Top(placed, cx, cy)
  }

  method StartHeights(area: Area) returns (hm: array2<int>)
    requires Proper(area)
    ensures fresh(hm) && Heights(hm, area, [])
  {
    hm := new int[Width(area), Depth(area)]((_, _) => 0);
  }

  /** The highest column under x, ly..=uy, read from the height map. */
  method ColumnHighest(hm: array2<int>, area: Area, ghost placed: seq<Brick>, x: int, ly: int, uy: int) returns (m: int)
    requires Heights(hm, area, placed) && InArea(area, x, ly) && InArea(area, x, uy) && ly <= uy
    ensures m == ColumnMax(placed, x, ly, uy)
  {
    m := hm[SlotX(area, x), SlotY(area, ly)];
    for y := ly + 1 to uy + 1
      invariant m == ColumnMax(placed, x, ly, y - 1)
    {
      m := Max(m, hm[SlotX(area, x), SlotY(area, y)]);
    }
  }

  /** The highest column under the footprint of `b`. */
  method HighestUnder(hm: array2<int>, area: Area, ghost placed: seq<Brick>, b: Brick) returns (m: int)
    requires Heights(hm, area, placed) && Footprint(b) && Inside(area, b)
    ensures m == AreaMax(placed, b.lower.0, b.upper.0, b.lower.1, b.upper.1)
  {
    m := ColumnHighest(hm, area, placed, b.lower.0, b.lower.1, b.upper.1);
    for x := b.lower.0 + 1 to b.upper.0 + 1
      invariant m == AreaMax(placed, b.lower.0, x - 1, b.lower.1, b.upper.1)
    {
      m := Widen(hm, area, placed, b, x, m);
    }
  }

  /** The highest column under the footprint of `b` up to column `x`, from the one up to column `x - 1`. */
  method Widen(hm: array2<int>, area: Area, ghost placed: seq<Brick>, b: Brick, x: int, m: int) returns (m': int)
    requires Heights(hm, area, placed) && Footprint(b) && Inside(area, b) && b.lower.0 < x <= b.upper.0
    requires m == AreaMax(placed, b.lower.0, x - 1, b.lower.1, b.upper.1)
    ensures m' == AreaMax(placed, b.lower.0, x, b.lower.1, b.upper.1)
  {
    var c := ColumnHighest(hm, area, placed, x, b.lower.1, b.upper.1);
    m' := Max(m, c);
  }

  /** Writes the top of `nb` into column `x` of its footprint. */
  method RaiseColumn(hm: array2<int>, area: Area, ghost placed: seq<Brick>, nb: Brick, x: int)
    requires Raised(hm, area, placed, nb, x, nb.lower.1) && Footprint(nb) && Inside(area, nb)
    requires nb.lower.0 <= x <= nb.upper.0
    modifies hm
    ensures Raised(hm, area, placed, nb, x + 1, nb.lower.1)
  {
    for y := nb.lower.1 to nb.upper.1 + 1
      invariant Raised(hm, area, placed, nb, x, y)
    {
      SlotsApart(area, x, y);
      hm[SlotX(area, x), SlotY(area, y)] := nb.upper.2;
    }
  }

  /** Writes the top of `nb` into every column of its footprint. */
  method Raise(hm: array2<int>, area: Area, ghost placed: seq<Brick>, nb: Brick)
    requires Heights(hm, area, placed) && Footprint(nb) && Inside(area, nb)
    modifies hm
    ensures Heights(hm, area, placed + [nb])
  {
    for x := nb.lower.0 to nb.upper.0 + 1
      invariant Raised(hm, area, placed, nb, x, nb.lower.1)
    {
      RaiseColumn(hm, area, placed, nb, x);
    }
    forall cx, cy | InArea(area, cx, cy)
      ensures hm[SlotX(area, cx), SlotY(area, cy)] == Top(placed + [nb], cx, cy)
    {
      TopAppend(placed, nb, cx, cy);
    }
  }

  /** One brick dropped onto the height map, which then records it. */
  method Drop(hm: array2<int>, area: Area, ghost placed: seq<Brick>, b: Brick) returns (nb: Brick)
    requires Heights(hm, area, placed) && Footprint(b) && Inside(area, b)
    modifies hm
    ensures nb == Land(placed, b) && Heights(hm, area, placed + [nb])
  {
    var top := HighestUnder(hm, area, placed, b);
    var ground := top + 1;
    nb := Brick((b.lower.0, b.lower.1, ground), (b.upper.0, b.upper.1, ground + (b.upper.2 - b.lower.2)));
    Raise(hm, area, placed, nb);
  }

  /** Sorting keeps the bricks, so it keeps their footprints. */
  lemma SortFootprints(input: seq<Brick>)
    requires AllFootprints(input)
    ensures AllFootprints(Sort(input))
  {
    var sorted := Sort(input);
    forall k | 0 <= k < |sorted|
      ensures Footprint(sorted[k])
    {
      assert sorted[k] in multiset(input);
    }
  }

  /** The sorted bricks dropped in order onto a height map that starts flat. */
  method SimulateFall(input: seq<Brick>) returns (bricks: seq<Brick>)
    requires AllFootprints(input)
    ensures AllFootprints(Sort(input)) && bricks == Fall(Sort(input))
  {
    SortFootprints(input);
    var sorted := Sort(input);
    if |sorted| == 0 {
      return [];
    }
    bricks := FallInPlace(sorted);
  }

  /** Each brick, in order, replaced by where it lands on those before it. */
  method FallInPlace(sorted: seq<Brick>) returns (bricks: seq<Brick>)
    requires AllFootprints(sorted) && sorted != []
    ensures bricks == Fall(sorted)
  {
    var area := TowerArea(sorted);
    var hm := StartHeights(area);
    bricks := sorted;
    for i := 0 to |sorted|
      invariant |bricks| == |sorted|
      invariant bricks[..i] == Fall(sorted[..i])
      invariant forall k | i <= k < |sorted| :: bricks[k] == sorted[k]
      invariant Heights(hm, area, bricks[..i])
    {
      ghost var placed := bricks[..i];
      var b := bricks[i];
      assert b == sorted[i];
      var nb := Drop(hm, area, placed, b);
      bricks := bricks[i := nb];
      assert bricks[..i + 1] == placed + [nb];
      assert sorted[..i + 1][..i] == sorted[..i] && sorted[..i + 1][i] == sorted[i];
    }
    assert sorted[..|sorted|] == sorted;
  }

  // ---------------------------------------------------------------------
  // Supports

  /** The column (x, y) is topped by a brick whose top is one below the bottom of `b`. */
  predicate RestsOn(placed: seq<Brick>, b: Brick, x: int, y: int)
  {
    LastIdx(placed, x, y) >= 0 && Top(placed, x, y) == b.lower.2 - 1
  }

  /** The supporters of `b` found in the columns of its footprint before (x, y). */
  ghost function SupportsBefore(placed: seq<Brick>, b: Brick, x: int, y: int): set<nat>
  {
    set cx, cy | b.lower.0 <= cx <= b.upper.0 && b.lower.1 <= cy <= b.upper.1
                 && (cx < x || (cx == x && cy < y)) && RestsOn(placed, b, cx, cy)
      :: LastIdx(placed, cx, cy) as nat
  }

  /** The bricks of `placed` that `b` rests on: the topmost brick of a column under it, one below it. */
  ghost function SupportOf(placed: seq<Brick>, b: Brick): set<nat>
  {
    SupportsBefore(placed, b, b.upper.0 + 1, b.lower.1)
  }

  /** Each brick's supporters among the bricks before it. */
  ghost function Supports(f: seq<Brick>): (r: seq<set<nat>>)
    ensures |r| == |f|
  {
    seq(|f|, i requires 0 <= i < |f| => SupportOf(f[..i], f[i]))
  }

  lemma SupportsStep(placed: seq<Brick>, b: Brick, x: int, y: int)
    requires Covers(b, x, y)
    ensures SupportsBefore(placed, b, x, y + 1)
         == SupportsBefore(placed, b, x, y) + if RestsOn(placed, b, x, y) then {LastIdx(placed, x, y) as nat} else {}
  {
    if RestsOn(placed, b, x, y) {
      assert LastIdx(placed, x, y) as nat in SupportsBefore(placed, b, x, y + 1);
    }
  }

  lemma SupportsNextColumn(placed: seq<Brick>, b: Brick, x: int)
    ensures SupportsBefore(placed, b, x, b.upper.1 + 1) == SupportsBefore(placed, b, x + 1, b.lower.1)
  {
  }

  /** Every cell of the support height map holds the height and the topmost brick of its column. */
  ghost predicate Cells(hm: array2<(int, int)>, area: Area, placed: seq<Brick>)
    reads hm
  {
    Proper(area) && hm.Length0 == Width(area) && hm.Length1 == Depth(area)
    && forall x, y | InArea(area, x, y) :: hm[SlotX(area, x), SlotY(area, y)] == (Top(placed, x, y), LastIdx(placed, x, y))
  }

  /** The support height map while brick `|placed|`, that is `b`, is being written into it, up to (x, y). */
  ghost predicate Marked(hm: array2<(int, int)>, area: Area, placed: seq<Brick>, b: Brick, x: int, y: int)
    reads hm
  {
    Proper(area) && hm.Length0 == Width(area) && hm.Length1 == Depth(area)
    && forall cx, cy | InArea(area, cx, cy) ::
         hm[SlotX(area, cx), SlotY(area, cy)]
           == if Before(b, cx, cy, x, y) then (b.upper.2, |placed|) else (Top(placed, cx, cy), LastIdx(placed, cx, cy))
  }

  method StartCells(area: Area) returns (hm: array2<(int, int)>)
    requires Proper(area)
    ensures fresh(hm) && Cells(hm, area, [])
  {
    hm := new (int, int)[Width(area), Depth(area)]((_, _) => (0, -1));
  }

  /** Collects the supporters of `b` in column `x` of its footprint and marks the column as its. */
  method SupportColumn(hm: array2<(int, int)>, area: Area, ghost placed: seq<Brick>, b: Brick, i: int, x: int, support: set<nat>)
    returns (support': set<nat>)
    requires i == |placed|
    requires Marked(hm, area, placed, b, x, b.lower.1) && Footprint(b) && Inside(area, b) && b.lower.0 <= x <= b.upper.0
    requires support == SupportsBefore(placed, b, x, b.lower.1)
    modifies hm
    ensures Marked(hm, area, placed, b, x + 1, b.lower.1) && support' == SupportsBefore(placed, b, x + 1, b.lower.1)
  {
    support' := support;
    for y := b.lower.1 to b.upper.1 + 1
      invariant Marked(hm, area, placed, b, x, y) && support' == SupportsBefore(placed, b, x, y)
    {
      var (h, s) := hm[SlotX(area, x), SlotY(area, y)];
      SupportsStep(placed, b, x, y);
      if s >= 0 && h == b.lower.2 - 1 {
        support' := support' + {s as nat};
      }
      SlotsApart(area, x, y);
      hm[SlotX(area, x), SlotY(area, y)] := (b.upper.2, i);
    }
    SupportsNextColumn(placed, b, x);
  }

  /** The supporters of `b`, with `b` then recorded in the support height map. */
  method SupportOfBrick(hm: array2<(int, int)>, area: Area, ghost placed: seq<Brick>, b: Brick, i: int) returns (support: set<nat>)
    requires i == |placed|
    requires Cells(hm, area, placed) && Footprint(b) && Inside(area, b)
    modifies hm
    ensures support == SupportOf(placed, b) && Cells(hm, area, placed + [b])
  {
    support := {};
    for x := b.lower.0 to b.upper.0 + 1
      invariant Marked(hm, area, placed, b, x, b.lower.1) && support == SupportsBefore(placed, b, x, b.lower.1)
    {
      support := SupportColumn(hm, area, placed, b, i, x, support);
    }
    forall cx, cy | InArea(area, cx, cy)
      ensures hm[SlotX(area, cx), SlotY(area, cy)] == (Top(placed + [b], cx, cy), LastIdx(placed + [b], cx, cy))
    {
      TopAppend(placed, b, cx, cy);
    }
  }

  /**
   * Every brick's supporters, found with a height map that records each
   * column's height and topmost brick.
   */
  method BuildSupportStructure(bricks: seq<Brick>) returns (support: seq<set<nat>>)
    requires AllFootprints(bricks)
    ensures support == Supports(bricks)
  {
    if |bricks| == 0 {
      return [];
    }
    var area := TowerArea(bricks);
    var hm := StartCells(area);
    support := [];
    for i := 0 to |bricks|
      invariant |support| == i
      invariant forall k | 0 <= k < i :: support[k] == SupportOf(bricks[..k], bricks[k])
      invariant Cells(hm, area, bricks[..i])
    {
      var s := SupportOfBrick(hm, area, bricks[..i], bricks[i], i);
      support := support + [s];
      assert bricks[..i + 1] == bricks[..i] + [bricks[i]];
    }
  }

  /** Each brick's supporters come before it. */
  lemma SupportsEarlier(f: seq<Brick>)
    ensures forall i, k | 0 <= i < |f| && k in Supports(f)[i] :: k < i
  {
  }

  // ---------------------------------------------------------------------
  // The fallen tower

  predicate AllNormal(s: seq<Brick>)
  {
    forall k | 0 <= k < |s| :: Normal(s[k])
  }

  /** The footprints of the two bricks share a column. */
  predicate Overlap(a: Brick, b: Brick)
  {
    a.lower.0 <= b.upper.0 && b.lower.0 <= a.upper.0 && a.lower.1 <= b.upper.1 && b.lower.1 <= a.upper.1
  }

  /** Of two bricks sharing a column, the later one lies wholly above the earlier one. */
  predicate Stacked(f: seq<Brick>)
  {
    forall j, k | 0 <= j < k < |f| && Overlap(f[j], f[k]) :: f[j].upper.2 < f[k].lower.2
  }

  /** No brick reaches below height 1, the lowest level above the ground. */
  predicate Grounded(f: seq<Brick>)
  {
    forall k | 0 <= k < |f| :: f[k].lower.2 >= 1
  }

  lemma SortNormal(input: seq<Brick>)
    requires AllNormal(input)
    ensures AllNormal(Sort(input))
  {
    var sorted := Sort(input);
    forall k | 0 <= k < |sorted|
      ensures Normal(sorted[k])
    {
      assert sorted[k] in multiset(input);
    }
  }

  /** In a stacked tower a column is as high as every brick standing on it. */
  lemma TopAtLeast(p: seq<Brick>, j: nat, x: int, y: int)
    requires Stacked(p) && AllNormal(p) && j < |p| && Covers(p[j], x, y)
    ensures p[j].upper.2 <= Top(p, x, y)
  {
    LastIdxIsLast(p, x, y);
    var r := LastIdx(p, x, y);
    if r != j {
      assert Overlap(p[j], p[r]);
    }
  }

  lemma TopNonNegative(p: seq<Brick>, x: int, y: int)
    requires AllNormal(p) && Grounded(p)
    ensures Top(p, x, y) >= 0
  {
  }

  /** A brick dropped onto a stacked tower lands above every brick it shares a column with. */
  lemma LandAbove(p: seq<Brick>, b: Brick, j: nat)
    requires Stacked(p) && AllNormal(p) && Footprint(b) && j < |p| && Overlap(p[j], b)
    ensures p[j].upper.2 < Land(p, b).lower.2
  {
    var cx, cy := Max(p[j].lower.0, b.lower.0), Max(p[j].lower.1, b.lower.1);
    AreaMaxIsMax(p, b.lower.0, b.upper.0, b.lower.1, b.upper.1);
    TopAtLeast(p, j, cx, cy);
  }

  /** Dropping the bricks builds a stacked tower on the ground. */
  lemma {:induction false} FallStacked(s: seq<Brick>)
    requires AllNormal(s)
    ensures Stacked(Fall(s)) && AllNormal(Fall(s)) && Grounded(Fall(s))
  {
    if s != [] {
      var init := s[..|s| - 1];
      FallStacked(init);
      var p := Fall(init);
      var nb := Land(p, s[|s| - 1]);
      assert Fall(s) == p + [nb];
      forall j | 0 <= j < |p| && Overlap(p[j], nb)
        ensures p[j].upper.2 < nb.lower.2
      {
        LandAbove(p, s[|s| - 1], j);
      }
      TopNonNegative(p, s[|s| - 1].upper.0, s[|s| - 1].upper.1);
      AreaMaxIsMax(p, s[|s| - 1].lower.0, s[|s| - 1].upper.0, s[|s| - 1].lower.1, s[|s| - 1].upper.1);
    }
  }

  /** Every dropped brick lies on the ground or directly on top of an earlier brick sharing a column. */
  lemma FallRests(s: seq<Brick>, i: nat)
    requires AllNormal(s) && i < |s|
    ensures var f := Fall(s);
      f[i].lower.2 == 1 || exists j | 0 <= j < i :: Overlap(f[j], f[i]) && f[j].upper.2 + 1 == f[i].lower.2
  {
    var f := Fall(s);
    FallPrefix(s, i);
    var p := f[..i];
    var b := s[i];
    AreaMaxIsMax(p, b.lower.0, b.upper.0, b.lower.1, b.upper.1);
    var cx, cy :| b.lower.0 <= cx <= b.upper.0 && b.lower.1 <= cy <= b.upper.1
                 && Top(p, cx, cy) == AreaMax(p, b.lower.0, b.upper.0, b.lower.1, b.upper.1);
    LastIdxIsLast(p, cx, cy);
    var r := LastIdx(p, cx, cy);
    if r >= 0 {
      assert p[r] == f[r];
      assert Overlap(f[r], f[i]) && f[r].upper.2 + 1 == f[i].lower.2;
    }
  }

  /**
   * In a stacked tower the supporters of a brick are exactly the earlier
   * bricks sharing a column with it whose top is just below its bottom.
   */
  lemma SupporterBelow(f: seq<Brick>, i: nat, j: int)
    requires i < |f| && j in Supports(f)[i]
    ensures 0 <= j < i && Overlap(f[j], f[i]) && f[j].upper.2 + 1 == f[i].lower.2
  {
    var p, b := f[..i], f[i];
    assert Supports(f)[i] == SupportOf(p, b);
    var cx, cy :| b.lower.0 <= cx <= b.upper.0 && b.lower.1 <= cy <= b.upper.1
                  && RestsOn(p, b, cx, cy) && j == LastIdx(p, cx, cy);
    LastIdxIsLast(p, cx, cy);
    assert p[j] == f[j] && Covers(f[j], cx, cy);
  }

  lemma BelowSupporter(f: seq<Brick>, i: nat, j: int)
    requires Stacked(f) && AllNormal(f) && i < |f|
    requires 0 <= j < i && Overlap(f[j], f[i]) && f[j].upper.2 + 1 == f[i].lower.2
    ensures j in Supports(f)[i]
  {
    var p, b := f[..i], f[i];
    var cx, cy := Max(f[j].lower.0, b.lower.0), Max(f[j].lower.1, b.lower.1);
    LastIdxIsLast(p, cx, cy);
    var r := LastIdx(p, cx, cy);
    assert p[j] == f[j];
    if r != j {
      assert j < r && p[r] == f[r];
      assert Overlap(f[j], f[r]) && Overlap(f[r], b);
    }
    assert RestsOn(p, b, cx, cy);
    assert LastIdx(p, cx, cy) as nat in SupportsBefore(p, b, b.upper.0 + 1, b.lower.1);
    assert Supports(f)[i] == SupportOf(p, b);
  }

  /**
   * In a stacked tower the supporters of a brick are exactly the earlier
   * bricks sharing a column with it whose top is just below its bottom.
   */
  lemma SupportsExact(f: seq<Brick>, i: nat, j: int)
    requires Stacked(f) && AllNormal(f) && i < |f|
    ensures j in Supports(f)[i] <==> 0 <= j < i && Overlap(f[j], f[i]) && f[j].upper.2 + 1 == f[i].lower.2
  {
    if j in Supports(f)[i] {
      SupporterBelow(f, i, j);
    }
    if 0 <= j < i && Overlap(f[j], f[i]) && f[j].upper.2 + 1 == f[i].lower.2 {
      BelowSupporter(f, i, j);
    }
  }

  /** The fallen tower depends only on which bricks there are, not on the order they are given in. */
  lemma FallIgnoresOrder(a: seq<Brick>, b: seq<Brick>)
    requires AllFootprints(a) && multiset(a) == multiset(b)
    ensures Sort(a) == Sort(b) && AllFootprints(Sort(a)) && Fall(Sort(a)) == Fall(Sort(b))
  {
    SortFootprints(a);
    SortedUnique(Sort(a), Sort(b));
  }

  /** In the fallen tower every brick lies on the ground or has a supporter. */
  lemma FallSupported(input: seq<Brick>, i: nat)
    requires AllNormal(input) && i < |input|
    ensures AllFootprints(Sort(input))
    ensures var f := Fall(Sort(input)); f[i].lower.2 == 1 || Supports(f)[i] != {}
  {
    SortNormal(input);
    var f := Fall(Sort(input));
    FallStacked(Sort(input));
    FallRests(Sort(input), i);
    if f[i].lower.2 != 1 {
      var j :| 0 <= j < i && Overlap(f[j], f[i]) && f[j].upper.2 + 1 == f[i].lower.2;
      SupportsExact(f, i, j);
    }
  }

  // ---------------------------------------------------------------------
  // Chain reaction

  /** The bricks down once `removed` is gone, having looked at the bricks from `removed + 1` up to `i - 1`. */
  function Toppled(support: seq<set<nat>>, removed: nat, i: nat): (f: set<nat>)
    requires i <= |support|
    ensures removed in f
    ensures forall k | k in f :: k == removed || removed < k < i
  {
    if i <= removed + 1 then {removed}
    else
      var f := Toppled(support, removed, i - 1);
      if support[i - 1] != {} && support[i - 1] <= f then f + {i - 1} else f
  }

  /** At most the removed brick and each brick looked at are down. */
  lemma {:induction false} ToppledSize(support: seq<set<nat>>, removed: nat, i: nat)
    requires i <= |support|
    ensures |Toppled(support, removed, i)| <= if i <= removed + 1 then 1 else i - removed
  {
    if i > removed + 1 {
      ToppledSize(support, removed, i - 1);
    }
  }

  /** The other bricks that fall when `removed` is taken out. */
  function Chain(support: seq<set<nat>>, removed: nat): (c: set<nat>)
    ensures forall k | k in c :: removed < k < |support|
    ensures removed < |support| ==> |c| < |support| - removed
    ensures removed >= |support| ==> c == {}
  {
    ToppledSize(support, removed, |support|);
    Toppled(support, removed, |support|) - {removed}
  }

  /** Looks at each later brick once, in order, and lets it fall when all its supporters have. */
  method EvaluateChainReaction(support: seq<set<nat>>, removed: nat) returns (fallen: set<nat>)
    ensures fallen == Chain(support, removed)
  {
    fallen := {removed};
    if removed + 1 <= |support| {
      for i := removed + 1 to |support|
        invariant fallen == Toppled(support, removed, i)
      {
        var s := support[i];
        if s != {} && s <= fallen {
          fallen := fallen + {i};
        }
      }
    }
    fallen := fallen - {removed};
  }

  /** Looking further never changes the verdict on bricks already looked at. */
  lemma {:induction false} ToppledStable(support: seq<set<nat>>, removed: nat, i: nat, i': nat)
    requires i <= i' <= |support|
    ensures forall k | k < i :: k in Toppled(support, removed, i) <==> k in Toppled(support, removed, i')
    decreases i' - i
  {
    if i < i' {
      ToppledStable(support, removed, i, i' - 1);
    }
  }

  /**
   * When every brick's supporters come before it, a later brick falls
   * exactly when it has supporters and all of them are gone.
   */
  lemma ChainFalls(support: seq<set<nat>>, removed: nat, j: nat)
    requires forall i, k | 0 <= i < |support| && k in support[i] :: k < i
    requires removed < j < |support|
    ensures j in Chain(support, removed) <==> support[j] != {} && support[j] <= Chain(support, removed) + {removed}
  {
    ToppledStable(support, removed, j + 1, |support|);
    ToppledStable(support, removed, j, |support|);
    var t := Toppled(support, removed, |support|);
    assert j in t <==> j in Toppled(support, removed, j + 1);
    assert support[j] <= Toppled(support, removed, j) <==> support[j] <= t by {
      assert forall k | k in support[j] :: k < j;
    }
    assert t == Chain(support, removed) + {removed};
  }

  /** Nothing else falls exactly when no brick rests on `removed` alone. */
  lemma {:induction false} ToppledAlone(support: seq<set<nat>>, removed: nat, i: nat)
    requires i <= |support|
    ensures Toppled(support, removed, i) == {removed} <==> forall j | removed < j < i :: support[j] != {removed}
  {
    if i > removed + 1 {
      ToppledAlone(support, removed, i - 1);
      var f := Toppled(support, removed, i - 1);
      if f == {removed} {
        assert support[i - 1] != {} && support[i - 1] <= f <==> support[i - 1] == {removed};
      } else {
        assert f <= Toppled(support, removed, i);
      }
    }
  }

  /** A brick can be disintegrated safely: no later brick rests on it alone. */
  predicate Disintegrable(support: seq<set<nat>>, i: nat)
  {
    forall j | i < j < |support| :: support[j] != {i}
  }

  lemma ChainEmpty(support: seq<set<nat>>, removed: nat)
    ensures Chain(support, removed) == {} <==> Disintegrable(support, removed)
  {
    ToppledAlone(support, removed, |support|);
  }

  /** The number of the first `k` bricks that can be disintegrated. */
  function CountDisintegrable(support: seq<set<nat>>, k: nat): (count: nat)
    requires k <= |support|
    ensures count <= k
  {
    if k == 0 then 0 else CountDisintegrable(support, k - 1) + if Disintegrable(support, k - 1) then 1 else 0
  }

  /** The number of other bricks falling, summed over the first `k` bricks removed. */
  function TotalChain(support: seq<set<nat>>, k: nat): (sum: nat)
    requires k <= |support|
    ensures sum <= k * |support|
  {
    if k == 0 then 0
    else
      var h, n := k - 1, |support|;
      assert (h + 1) * n == h * n + n;
      TotalChain(support, k - 1) + |Chain(support, k - 1)|
  }

  /** The fallen tower's support structure. */
  method FallenSupport(input: seq<Brick>) returns (support: seq<set<nat>>)
    requires AllFootprints(input)
    ensures AllFootprints(Sort(input)) && support == Supports(Fall(Sort(input)))
  {
    var fallen := SimulateFall(input);
    support := BuildSupportStructure(fallen);
  }

  /** Counts the bricks whose chain reaction is empty. */
  method CountSafe(support: seq<set<nat>>) returns (count: nat)
    ensures count == CountDisintegrable(support, |support|)
  {
    count := 0;
    for i := 0 to |support|
      invariant count == CountDisintegrable(support, i)
    {
      var chain := EvaluateChainReaction(support, i);
      ChainEmpty(support, i);
      if chain == {} {
        count := count + 1;
      }
    }
  }

  /** Sums the sizes of all chain reactions. */
  method SumChains(support: seq<set<nat>>) returns (sum: nat)
    ensures sum == TotalChain(support, |support|)
  {
    sum := 0;
    for i := 0 to |support|
      invariant sum == TotalChain(support, i)
    {
      var chain := EvaluateChainReaction(support, i);
      sum := sum + |chain|;
    }
  }

  /** Part a: the bricks whose removal makes no other brick fall. */
  method PartA(input: seq<Brick>) returns (count: nat)
    requires AllFootprints(input)
    ensures AllFootprints(Sort(input))
    ensures var support := Supports(Fall(Sort(input))); count == CountDisintegrable(support, |support|)
  {
    var support := FallenSupport(input);
    count := CountSafe(support);
  }

  /** Part b: the number of other bricks falling, summed over each brick removed. */
  method PartB(input: seq<Brick>) returns (sum: nat)
    requires AllFootprints(input)
    ensures AllFootprints(Sort(input))
    ensures var support := Supports(Fall(Sort(input))); sum == TotalChain(support, |support|)
  {
    var support := FallenSupport(input);
    sum := SumChains(support);
  }

  // ---------------------------------------------------------------------
  // Parsing

  predicate IsSep(c: char)
  {
    c == ',' || c == '~'
  }

  /** The string holds no separator. */
  predicate Plain(s: string)
  {
    forall i | 0 <= i < |s| :: !IsSep(s[i])
  }

  /** The pieces of `s`, the first of them continuing `cur`, as `split([',', '~'])` cuts them. */
  function SplitFrom(s: string, cur: string): (r: seq<string>)
    ensures |r| >= 1
  {
    if s == [] then [cur]
    else if IsSep(s[0]) then [cur] + SplitFrom(s[1..], "")
    else SplitFrom(s[1..], cur + [s[0]])
  }

  /** The pieces between separators, empty pieces included. */
  function Split(s: string): (r: seq<string>)
    ensures |r| >= 1
  {
    SplitFrom(s, "")
  }

  /** No piece holds a separator. */
  lemma {:induction false} SplitPieces(s: string, cur: string)
    requires Plain(cur)
    ensures forall k | 0 <= k < |SplitFrom(s, cur)| :: Plain(SplitFrom(s, cur)[k])
  {
    if s != [] {
      if IsSep(s[0]) {
        SplitPieces(s[1..], "");
      } else {
        SplitPieces(s[1..], cur + [s[0]]);
      }
    }
  }

  /** A string without separators continues the current piece. */
  lemma {:induction false} SplitNone(s: string, cur: string)
    requires Plain(s)
    ensures SplitFrom(s, cur) == [cur + s]
  {
    if s == [] {
      assert cur + s == cur;
    } else {
      assert forall i | 0 <= i < |s[1..]| :: s[1..][i] == s[i + 1];
      SplitNone(s[1..], cur + [s[0]]);
      assert cur + [s[0]] + s[1..] == cur + s;
    }
  }

  /** Splitting at a separator splits the two sides independently. */
  lemma {:induction false} SplitAt(a: string, c: char, b: string, cur: string)
    requires IsSep(c)
    ensures SplitFrom(a + [c] + b, cur) == SplitFrom(a, cur) + SplitFrom(b, "")
  {
    if a == [] {
      assert a + [c] + b == [c] + b;
    } else {
      assert (a + [c] + b)[0] == a[0] && (a + [c] + b)[1..] == a[1..] + [c] + b;
      if IsSep(a[0]) {
        SplitAt(a[1..], c, b, "");
      } else {
        SplitAt(a[1..], c, b, cur + [a[0]]);
      }
    }
  }

  function ParseI32(s: string): (r: Option<int>)
    ensures r.Some? ==> I32_MIN <= r.value <= I32_MAX
  {
    ParseSigned(s, I32_MIN, I32_MAX)
  }

  /**
   * A line `x0,y0,z0~x1,y1,z1`: the first six pieces must read as `i32`
   * (further pieces are ignored), and the corners are normalised to the
   * componentwise minimum and maximum.
   */
  function ParseLine(line: string): (r: Option<Brick>)
    ensures r.Some? ==> Normal(r.value) && InI32(r.value)
  {
    ParseParts(Split(line))
  }

  function ParseParts(parts: seq<string>): (r: Option<Brick>)
    ensures r.Some? ==> Normal(r.value) && InI32(r.value)
  {
    if |parts| < 6 then None
    else
      var x0, y0, z0 := ParseI32(parts[0]), ParseI32(parts[1]), ParseI32(parts[2]);
      var x1, y1, z1 := ParseI32(parts[3]), ParseI32(parts[4]), ParseI32(parts[5]);
      if x0.Some? && y0.Some? && z0.Some? && x1.Some? && y1.Some? && z1.Some? then
        Some(Brick((Min(x0.value, x1.value), Min(y0.value, y1.value), Min(z0.value, z1.value)),
                   (Max(x0.value, x1.value), Max(y0.value, y1.value), Max(z0.value, z1.value))))
      else None
  }

  /** The bricks of the lines that parse, in order; the others are skipped. */
  function ParseBricks(lines: seq<string>): (r: seq<Brick>)
    ensures |r| <= |lines| && AllNormal(r) && AllFootprints(r)
    ensures forall k | 0 <= k < |r| :: InI32(r[k])
  {
    Present(seq(|lines|, k requires 0 <= k < |lines| => ParseLine(lines[k])))
  }

  /** The values present, in order: `filter_map` over parsed lines. */
  function Present(opts: seq<Option<Brick>>): (r: seq<Brick>)
    requires forall k | 0 <= k < |opts| && opts[k].Some? :: Normal(opts[k].value) && InI32(opts[k].value)
    ensures |r| <= |opts| && AllNormal(r) && AllFootprints(r)
    ensures forall k | 0 <= k < |r| :: InI32(r[k])
  {
    if opts == [] then []
    else
      var init := Present(opts[..|opts| - 1]);
      match opts[|opts| - 1]
      case Some(b) => init + [b]
      case None => init
  }

  /** The pieces joined, with `seps[k]` between pieces `k` and `k + 1`. */
  function Joined(parts: seq<string>, seps: seq<char>): string
    requires |parts| == |seps| + 1
  {
    if seps == [] then parts[0] else parts[0] + [seps[0]] + Joined(parts[1..], seps[1..])
  }

  /** A plain piece followed by a separator is split off whole. */
  lemma SplitCons(x: string, c: char, tail: string)
    requires Plain(x) && IsSep(c)
    ensures SplitFrom(x + [c] + tail, "") == [x] + SplitFrom(tail, "")
  {
    SplitAt(x, c, tail, "");
    SplitNone(x, "");
    assert "" + x == x;
  }

  /** Splitting joined pieces gives them back, the last one running on into what follows. */
  lemma {:induction false} SplitJoined(parts: seq<string>, seps: seq<char>, rest: string)
    requires |parts| == |seps| + 1
    requires forall k | 0 <= k < |parts| - 1 :: Plain(parts[k])
    requires forall k | 0 <= k < |seps| :: IsSep(seps[k])
    ensures SplitFrom(Joined(parts, seps) + rest, "") == parts[..|seps|] + SplitFrom(parts[|seps|] + rest, "")
  {
    if seps != [] {
      var n := |seps|;
      var tail := Joined(parts[1..], seps[1..]) + rest;
      assert Joined(parts, seps) + rest == parts[0] + [seps[0]] + tail;
      SplitCons(parts[0], seps[0], tail);
      SplitJoined(parts[1..], seps[1..], rest);
      assert parts[1..][n - 1] == parts[n];
      assert parts[..n] == [parts[0]] + parts[1..][..n - 1];
    }
  }

  /** The text of a brick given by two opposite corners, in either order. */
  function Corners(p: Point, q: Point): string
  {
    Joined([ShowInt(p.0), ShowInt(p.1), ShowInt(p.2), ShowInt(q.0), ShowInt(q.1), ShowInt(q.2)], [',', ',', '~', ',', ','])
  }

  function Render(b: Brick): string
  {
    Corners(b.lower, b.upper)
  }

  lemma ShowIntPlain(n: int)
    ensures Plain(ShowInt(n))
  {
    if n < 0 {
      assert forall i | 1 <= i < |ShowInt(n)| :: ShowInt(n)[i] == Show(-n)[i - 1];
    }
  }

  function Normalise(p: Point, q: Point): Brick
  {
    Brick((Min(p.0, q.0), Min(p.1, q.1), Min(p.2, q.2)), (Max(p.0, q.0), Max(p.1, q.1), Max(p.2, q.2)))
  }

  predicate PointInI32(p: Point)
  {
    I32_MIN <= p.0 <= I32_MAX && I32_MIN <= p.1 <= I32_MAX && I32_MIN <= p.2 <= I32_MAX
  }

  /**
   * A piece without separators, followed by nothing or by a separator and
   * anything at all, is the first piece the split yields.
   */
  lemma SplitLast(x: string, rest: string)
    requires Plain(x) && (rest == [] || IsSep(rest[0]))
    ensures SplitFrom(x + rest, "")[0] == x
  {
    SplitNone(x, "");
    assert "" + x == x;
    if rest == [] {
      assert x + rest == x;
    } else {
      assert x + rest == x + [rest[0]] + rest[1..];
      SplitAt(x, rest[0], rest[1..], "");
    }
  }

  lemma ParsePartsShow(p: Point, q: Point, parts: seq<string>)
    requires PointInI32(p) && PointInI32(q) && |parts| >= 6
    requires parts[..6] == [ShowInt(p.0), ShowInt(p.1), ShowInt(p.2), ShowInt(q.0), ShowInt(q.1), ShowInt(q.2)]
    ensures ParseParts(parts) == Some(Normalise(p, q))
  {
    assert parts[0] == ShowInt(p.0) && parts[1] == ShowInt(p.1) && parts[2] == ShowInt(p.2);
    assert parts[3] == ShowInt(q.0) && parts[4] == ShowInt(q.1) && parts[5] == ShowInt(q.2);
    ParseSignedShow(p.0, I32_MIN, I32_MAX); ParseSignedShow(p.1, I32_MIN, I32_MAX); ParseSignedShow(p.2, I32_MIN, I32_MAX);
    ParseSignedShow(q.0, I32_MIN, I32_MAX); ParseSignedShow(q.1, I32_MIN, I32_MAX); ParseSignedShow(q.2, I32_MIN, I32_MAX);
  }

  /**
   * A line giving two corners in any order, followed by nothing or by a
   * separator and anything at all, reads as the brick they span.
   */
  lemma ParseCorners(p: Point, q: Point, rest: string)
    requires PointInI32(p) && PointInI32(q)
    requires rest == [] || IsSep(rest[0])
    ensures ParseLine(Corners(p, q) + rest) == Some(Normalise(p, q))
  {
    var parts := [ShowInt(p.0), ShowInt(p.1), ShowInt(p.2), ShowInt(q.0), ShowInt(q.1), ShowInt(q.2)];
    ShowIntPlain(p.0); ShowIntPlain(p.1); ShowIntPlain(p.2); ShowIntPlain(q.0); ShowIntPlain(q.1); ShowIntPlain(q.2);
    SplitJoined(parts, [',', ',', '~', ',', ','], rest);
    SplitLast(parts[5], rest);
    var split := Split(Corners(p, q) + rest);
    assert split == parts[..5] + SplitFrom(parts[5] + rest, "");
    assert split[..6] == parts;
    ParsePartsShow(p, q, split);
  }

  /** Every normalised `i32` brick reads back from its text. */
  lemma ParseRender(b: Brick)
    requires Normal(b) && InI32(b)
    ensures ParseLine(Render(b)) == Some(b)
  {
    ParseCorners(b.lower, b.upper, []);
    assert Corners(b.lower, b.upper) + [] == Render(b);
  }

  /** When every value is present, nothing is skipped. */
  lemma {:induction false} PresentAll(bricks: seq<Brick>)
    requires AllNormal(bricks) && forall k | 0 <= k < |bricks| :: InI32(bricks[k])
    ensures Present(seq(|bricks|, k requires 0 <= k < |bricks| => Some(bricks[k]))) == bricks
  {
    if bricks != [] {
      var n := |bricks| - 1;
      var opts := seq(|bricks|, k requires 0 <= k < |bricks| => Some(bricks[k]));
      PresentAll(bricks[..n]);
      assert opts[..n] == seq(n, k requires 0 <= k < n => Some(bricks[..n][k]));
      assert bricks == bricks[..n] + [bricks[n]];
    }
  }

  /** The text of a list of bricks, one line each. */
  function RenderAll(bricks: seq<Brick>): (r: seq<string>)
    ensures |r| == |bricks|
  {
    seq(|bricks|, k requires 0 <= k < |bricks| => Render(bricks[k]))
  }

  /** The text of a list of bricks parses back to that list. */
  lemma ParseBricksRender(bricks: seq<Brick>)
    requires AllNormal(bricks) && forall k | 0 <= k < |bricks| :: InI32(bricks[k])
    ensures ParseBricks(RenderAll(bricks)) == bricks
  {
    var lines := RenderAll(bricks);
    forall k | 0 <= k < |lines|
      ensures ParseLine(lines[k]) == Some(bricks[k])
    {
      ParseRender(bricks[k]);
    }
    PresentAll(bricks);
    assert seq(|lines|, k requires 0 <= k < |lines| => ParseLine(lines[k]))
        == seq(|bricks|, k requires 0 <= k < |bricks| => Some(bricks[k]));
  }
}
