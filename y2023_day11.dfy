/**
 * Year 2023, day 11: galaxies in an image whose empty rows and columns
 * expand.  The distance between two galaxies counts every occupied line it
 * crosses once and every empty line `expansion` times; the answer sums the
 * distances over all pairs.
 */
module Y2023Day11 {
  import opened Common

  /** A position `(x, y)`: column, then row. */
  type Pos = (nat, nat)

  /** The image as its rows, every row `width` cells wide; `true` is a galaxy. */
  predicate Rectangular(rows: seq<seq<bool>>, width: nat)
  {
    forall y | 0 <= y < |rows| :: |rows[y]| == width
  }

  /** The coordinate of `p` along the columns (`horizontal`) or along the rows. */
  function Coord(p: Pos, horizontal: bool): nat
  {
    if horizontal then p.0 else p.1
  }

  /** The galaxies of row `y`, left to right. */
  function RowGalaxies(row: seq<bool>, y: nat): (r: seq<Pos>)
    ensures forall p :: p in r <==> p.1 == y && p.0 < |row| && row[p.0]
    ensures forall i, j | 0 <= i < j < |r| :: r[i].0 < r[j].0
  {
    if row == [] then []
    else
      var n := |row| - 1;
      var init := RowGalaxies(row[..n], y);
      init + (if row[n] then [(n, y)] else [])
  }

  /** Row-major order: an earlier row, or the same row and an earlier column. */
  predicate Precedes(p: Pos, q: Pos)
  {
    p.1 < q.1 || (p.1 == q.1 && p.0 < q.0)
  }

  /** The galaxies as the grid iterator meets them, in row-major order. */
  function Galaxies(rows: seq<seq<bool>>): (r: seq<Pos>)
    ensures forall p :: p in r <==> p.1 < |rows| && p.0 < |rows[p.1]| && rows[p.1][p.0]
    ensures forall i, j | 0 <= i < j < |r| :: Precedes(r[i], r[j])
  {
    if rows == [] then []
    else
      var n := |rows| - 1;
      var init := Galaxies(rows[..n]);
      var last := RowGalaxies(rows[n], n);
      assert forall y | 0 <= y < n :: rows[..n][y] == rows[y];
      assert forall i | 0 <= i < |init| :: init[i].1 < n by {
        forall i | 0 <= i < |init|
          ensures init[i].1 < n
        {
          assert init[i] in init;
        }
      }
      assert forall i | 0 <= i < |last| :: last[i].1 == n by {
        forall i | 0 <= i < |last|
          ensures last[i].1 == n
        {
          assert last[i] in last;
        }
      }
      init + last
  }

  /** Some galaxy lies on line `k` (a column when `horizontal`, else a row). */
  predicate Used(gals: seq<Pos>, k: nat, horizontal: bool)
  {
    exists i | 0 <= i < |gals| :: Coord(gals[i], horizontal) == k
  }

  lemma UsedSnoc(gals: seq<Pos>, p: Pos, k: nat, horizontal: bool)
    ensures Used(gals + [p], k, horizontal) <==> Used(gals, k, horizontal) || Coord(p, horizontal) == k
  {
    var g := gals + [p];
    if Used(gals, k, horizontal) {
      var i :| 0 <= i < |gals| && Coord(gals[i], horizontal) == k;
      assert g[i] == gals[i];
    }
    if Coord(p, horizontal) == k {
      assert g[|gals|] == p;
    }
    if Used(g, k, horizontal) {
      var i :| 0 <= i < |g| && Coord(g[i], horizontal) == k;
      if i < |gals| {
        assert gals[i] == g[i];
      }
    }
  }

  /** The occupied marks of `n` lines: line `k` is marked when a galaxy lies on it. */
  ghost function Marks(gals: seq<Pos>, n: nat, horizontal: bool): (r: seq<bool>)
    ensures |r| == n && forall k | 0 <= k < n :: r[k] == Used(gals, k, horizontal)
  {
    seq(n, k requires 0 <= k => Used(gals, k, horizontal))
  }

  /** `marks` records, for each of `n` lines, whether a galaxy of `gals` lies on it. */
  predicate Marked(marks: seq<bool>, gals: seq<Pos>, n: nat, horizontal: bool)
  {
    |marks| == n && forall k | 0 <= k < n :: marks[k] == Used(gals, k, horizontal)
  }

  /** Recording a galaxy at `(x, y)` marks its column and its row. */
  lemma MarkGalaxy(xs: seq<bool>, ys: seq<bool>, gals: seq<Pos>, x: nat, y: nat, width: nat, height: nat)
    requires x < width && y < height
    requires Marked(xs, gals, width, true) && Marked(ys, gals, height, false)
    ensures Marked(xs[x := true], gals + [(x, y)], width, true)
    ensures Marked(ys[y := true], gals + [(x, y)], height, false)
  {
    forall k: nat
      ensures Used(gals + [(x, y)], k, true) <==> Used(gals, k, true) || x == k
      ensures Used(gals + [(x, y)], k, false) <==> Used(gals, k, false) || y == k
    {
      UsedSnoc(gals, (x, y), k, true);
      UsedSnoc(gals, (x, y), k, false);
    }
  }

  /** The galaxies of a row prefix grow by the next cell when it holds one. */
  lemma RowGalaxiesStep(row: seq<bool>, x: nat, y: nat)
    requires x < |row|
    ensures RowGalaxies(row[..x + 1], y) == RowGalaxies(row[..x], y) + (if row[x] then [(x, y)] else [])
  {
    assert row[..x + 1][..x] == row[..x];
  }

  /**
   * The first loop of `measure_expanded` for one row: collect the row's
   * galaxies and mark their column and row.
   */
  method ScanRow(row: seq<bool>, y: nat, width: nat, height: nat, xs: seq<bool>, ys: seq<bool>, gals: seq<Pos>)
    returns (xs': seq<bool>, ys': seq<bool>, gals': seq<Pos>)
    requires |row| == width && y < height
    requires Marked(xs, gals, width, true) && Marked(ys, gals, height, false)
    ensures gals' == gals + RowGalaxies(row, y)
    ensures Marked(xs', gals', width, true) && Marked(ys', gals', height, false)
  {
    xs', ys', gals' := xs, ys, gals;
    for x := 0 to width
      invariant gals' == gals + RowGalaxies(row[..x], y)
      invariant Marked(xs', gals', width, true) && Marked(ys', gals', height, false)
    {
      RowGalaxiesStep(row, x, y);
      if row[x] {
        MarkGalaxy(xs', ys', gals', x, y, width, height);
        AppendAssoc(gals, RowGalaxies(row[..x], y), [(x, y)]);
        xs', ys', gals' := xs'[x := true], ys'[y := true], gals' + [(x, y)];
      }
    }
    assert row[..width] == row;
  }

  /**
   * The first loop of `measure_expanded`: every galaxy, in row-major order,
   * with the columns and rows that hold one marked.
   */
  method Collect(rows: seq<seq<bool>>, width: nat) returns (xs: seq<bool>, ys: seq<bool>, gals: seq<Pos>)
    requires Rectangular(rows, width)
    ensures gals == Galaxies(rows)
    ensures Marked(xs, gals, width, true) && Marked(ys, gals, |rows|, false)
  {
    xs := seq(width, _ => false);
    ys := seq(|rows|, _ => false);
    gals := [];
    for y := 0 to |rows|
      invariant gals == Galaxies(rows[..y])
      invariant Marked(xs, gals, width, true) && Marked(ys, gals, |rows|, false)
    {
      assert rows[..y + 1][..y] == rows[..y];
      xs, ys, gals := ScanRow(rows[y], y, width, |rows|, xs, ys, gals);
    }
    assert rows[..|rows|] == rows;
  }

  /** The cost of crossing `lines`: 1 for an occupied line, `expansion` for an empty one. */
  function Span(lines: seq<bool>, expansion: nat): nat
  {
    if lines == [] then 0
    else Span(lines[..|lines| - 1], expansion) + (if lines[|lines| - 1] then 1 else expansion)
  }

  /** The number of empty lines. */
  function Empty(lines: seq<bool>): nat
  {
    if lines == [] then 0
    else Empty(lines[..|lines| - 1]) + (if lines[|lines| - 1] then 0 else 1)
  }

  /** Crossing lines costs one per line plus `expansion - 1` for every empty one. */
  lemma {:induction false} SpanFormula(lines: seq<bool>, expansion: nat)
    ensures Span(lines, expansion) == |lines| + (expansion - 1) * Empty(lines)
  {
    if lines != [] {
      var n := |lines| - 1;
      SpanFormula(lines[..n], expansion);
      var e := Empty(lines[..n]);
      if !lines[n] {
        assert (expansion - 1) * (e + 1) == (expansion - 1) * e + (expansion - 1);
      }
    }
  }

  /** Crossing two adjacent runs of lines costs the sum. */
  lemma {:induction false} SpanAppend(a: seq<bool>, b: seq<bool>, expansion: nat)
    ensures Span(a + b, expansion) == Span(a, expansion) + Span(b, expansion)
    decreases |b|
  {
    if b == [] {
      assert a + b == a;
    } else {
      var n := |b| - 1;
      SpanAppend(a, b[..n], expansion);
      assert (a + b)[..|a + b| - 1] == a + b[..n];
    }
  }

  /** Where line `k` lies once the image is expanded. */
  function Expanded(lines: seq<bool>, k: nat, expansion: nat): nat
    requires k <= |lines|
  {
    Span(lines[..k], expansion)
  }

  /** Positions `(x, y)` whose coordinates index the marks. */
  predicate InBox(p: Pos, xs: seq<bool>, ys: seq<bool>)
  {
    p.0 < |xs| && p.1 < |ys|
  }

  predicate AllInBox(gals: seq<Pos>, xs: seq<bool>, ys: seq<bool>)
  {
    forall i | 0 <= i < |gals| :: InBox(gals[i], xs, ys)
  }

  /** The distance `measure_expanded` adds for one pair: the columns, then the rows, between them. */
  function PairCost(a: Pos, b: Pos, xs: seq<bool>, ys: seq<bool>, expansion: nat): nat
    requires InBox(a, xs, ys) && InBox(b, xs, ys)
  {
    Span(xs[Min(a.0, b.0)..Max(a.0, b.0)], expansion) + Span(ys[Min(a.1, b.1)..Max(a.1, b.1)], expansion)
  }

  /** Crossing the lines between `i` and `j` is moving between their expanded places. */
  lemma SpanBetween(lines: seq<bool>, i: nat, j: nat, expansion: nat)
    requires i <= j <= |lines|
    ensures Span(lines[i..j], expansion) == Expanded(lines, j, expansion) - Expanded(lines, i, expansion)
  {
    assert lines[..j] == lines[..i] + lines[i..j];
    SpanAppend(lines[..i], lines[i..j], expansion);
  }

  /**
   * The cost of a pair is the Manhattan distance of the two galaxies in the
   * expanded image.
   */
  lemma PairCostIsDistance(a: Pos, b: Pos, xs: seq<bool>, ys: seq<bool>, expansion: nat)
    requires InBox(a, xs, ys) && InBox(b, xs, ys)
    ensures PairCost(a, b, xs, ys, expansion)
      == Abs(Expanded(xs, a.0, expansion) - Expanded(xs, b.0, expansion))
       + Abs(Expanded(ys, a.1, expansion) - Expanded(ys, b.1, expansion))
  {
    SpanBetween(xs, Min(a.0, b.0), Max(a.0, b.0), expansion);
    SpanBetween(ys, Min(a.1, b.1), Max(a.1, b.1), expansion);
    if a.0 > b.0 {
      SpanBetween(xs, b.0, a.0, expansion);
    }
    if a.1 > b.1 {
      SpanBetween(ys, b.1, a.1, expansion);
    }
  }

  /** Without expansion the cost of a pair is their plain Manhattan distance. */
  lemma PairCostUnexpanded(a: Pos, b: Pos, xs: seq<bool>, ys: seq<bool>)
    requires InBox(a, xs, ys) && InBox(b, xs, ys)
    ensures PairCost(a, b, xs, ys, 1) == Abs(a.0 - b.0) + Abs(a.1 - b.1)
  {
    SpanFormula(xs[Min(a.0, b.0)..Max(a.0, b.0)], 1);
    SpanFormula(ys[Min(a.1, b.1)..Max(a.1, b.1)], 1);
  }

  /** The sum of the costs from `a` to every galaxy of `rest`. */
  function CostWith(a: Pos, rest: seq<Pos>, xs: seq<bool>, ys: seq<bool>, expansion: nat): nat
    requires InBox(a, xs, ys) && AllInBox(rest, xs, ys)
  {
    if rest == [] then 0
    else PairCost(a, rest[0], xs, ys, expansion) + CostWith(a, rest[1..], xs, ys, expansion)
  }

  /** The sum of the costs over the pairs `i < j`, each unordered pair once. */
  function TotalCost(gals: seq<Pos>, xs: seq<bool>, ys: seq<bool>, expansion: nat): nat
    requires AllInBox(gals, xs, ys)
  {
    if gals == [] then 0
    else CostWith(gals[0], gals[1..], xs, ys, expansion) + TotalCost(gals[1..], xs, ys, expansion)
  }

  /** The inner loop of `measure_expanded`: the costs from galaxy `i` to every later galaxy. */
  method CostsFrom(gals: seq<Pos>, i: nat, xs: seq<bool>, ys: seq<bool>, expansion: nat) returns (sum: nat)
    requires i < |gals| && AllInBox(gals, xs, ys)
    ensures sum == CostWith(gals[i], gals[i + 1..], xs, ys, expansion)
  {
    sum := 0;
    var j := i + 1;
    while j < |gals|
      invariant i + 1 <= j <= |gals|
      invariant sum + CostWith(gals[i], gals[j..], xs, ys, expansion) == CostWith(gals[i], gals[i + 1..], xs, ys, expansion)
    {
      assert gals[j..][1..] == gals[j + 1..];
      var a, b := gals[i], gals[j];
      sum := sum + Span(xs[Min(a.0, b.0)..Max(a.0, b.0)], expansion);
      sum := sum + Span(ys[Min(a.1, b.1)..Max(a.1, b.1)], expansion);
      j := j + 1;
    }
  }

  /** The pair loops of `measure_expanded`: every pair `i < j` once. */
  method SumPairs(gals: seq<Pos>, xs: seq<bool>, ys: seq<bool>, expansion: nat) returns (sum: nat)
    requires AllInBox(gals, xs, ys)
    ensures sum == TotalCost(gals, xs, ys, expansion)
  {
    sum := 0;
    for i := 0 to |gals|
      invariant sum + TotalCost(gals[i..], xs, ys, expansion) == TotalCost(gals, xs, ys, expansion)
    {
      assert gals[i..][1..] == gals[i + 1..];
      var s := CostsFrom(gals, i, xs, ys, expansion);
      sum := sum + s;
    }
  }

  /** The expected answer: the summed pair costs over the galaxies and the line marks. */
  ghost function Measure(rows: seq<seq<bool>>, width: nat, expansion: nat): nat
    requires Rectangular(rows, width)
  {
    var gals := Galaxies(rows);
    var xs, ys := Marks(gals, width, true), Marks(gals, |rows|, false);
    assert AllInBox(gals, xs, ys) by {
      forall i | 0 <= i < |gals|
        ensures InBox(gals[i], xs, ys)
      {
        assert gals[i] in gals;
      }
    }
    TotalCost(gals, xs, ys, expansion)
  }

  /** `measure_expanded`: collect the galaxies and marks, then sum the cost of every pair. */
  method MeasureExpanded(rows: seq<seq<bool>>, width: nat, expansion: nat) returns (sum: nat)
    requires Rectangular(rows, width)
    ensures sum == Measure(rows, width, expansion)
  {
    var xs, ys, gals := Collect(rows, width);
    assert xs == Marks(gals, width, true) && ys == Marks(gals, |rows|, false);
    assert AllInBox(gals, xs, ys) by {
      forall i | 0 <= i < |gals|
        ensures InBox(gals[i], xs, ys)
      {
        assert gals[i] in gals;
      }
    }
    sum := SumPairs(gals, xs, ys, expansion);
  }

  /** `part_a`: each empty line counts twice. */
  method PartA(rows: seq<seq<bool>>, width: nat) returns (sum: nat)
    requires Rectangular(rows, width)
    ensures sum == Measure(rows, width, 2)
  {
    sum := MeasureExpanded(rows, width, 2);
  }

  /** `part_b`: each empty line counts a million times. */
  method PartB(rows: seq<seq<bool>>, width: nat) returns (sum: nat)
    requires Rectangular(rows, width)
    ensures sum == Measure(rows, width, 1000000)
  {
    sum := MeasureExpanded(rows, width, 1000000);
  }
}
