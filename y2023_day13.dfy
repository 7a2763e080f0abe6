/**
 * Year 2023, day 13: patterns of ash and rock with a line of reflection
 * between two columns or two rows. The mismatch of a line counts the cells
 * whose mirror image differs; a line scores when its mismatch is exactly the
 * number of smudges asked for (0 in part a, 1 in part b).
 */
module Y2023Day13 {
  import opened Common

  datatype Node = Ash | Rock

  /** The pattern as its rows, every row `width` cells wide. */
  predicate Rectangular(rows: seq<seq<Node>>, width: nat)
  {
    forall y | 0 <= y < |rows| :: |rows[y]| == width
  }

  /** The cell in column `x` of row `y` (ash outside the pattern, where it is never read). */
  function At(rows: seq<seq<Node>>, x: int, y: int): Node
  {
    if 0 <= y < |rows| && 0 <= x < |rows[y]| then rows[y][x] else Ash
  }

  function Differ(a: Node, b: Node): nat
  {
    if a != b then 1 else 0
  }

  // ---------------------------------------------------------------------
  // Mismatch of a vertical line

  /** The rows below `h` in which columns `a` and `b` differ. */
  function ColPairDiff(rows: seq<seq<Node>>, a: nat, b: nat, h: nat): nat
  {
    if h == 0 then 0 else ColPairDiff(rows, a, b, h - 1) + Differ(At(rows, a, h - 1), At(rows, b, h - 1))
  }

  /** The pairs of columns mirrored around the line left of `col`: the zip stops at either edge. */
  function Pairs(col: nat, width: nat): nat
  {
    if col <= width then Min(col, width - col) else 0
  }

  /** The mismatch of the first `k` column pairs `(col - 1 - i, col + i)`. */
  function ColMismatch(rows: seq<seq<Node>>, col: nat, k: nat): nat
  {
    if k == 0 || k > col then 0
    else ColMismatch(rows, col, k - 1) + ColPairDiff(rows, col - k, col + k - 1, |rows|)
  }

  /** `col_reflection` as a value: the mismatch over all column pairs of the line. */
  function ColReflection(rows: seq<seq<Node>>, width: nat, col: nat): nat
  {
    ColMismatch(rows, col, Pairs(col, width))
  }

  /** `col_reflection`: the nested loops over the column pairs and the rows. */
  method ColReflectionLoop(rows: seq<seq<Node>>, width: nat, col: nat) returns (smudges: nat)
    requires Rectangular(rows, width) && col <= width
    ensures smudges == ColReflection(rows, width, col)
  {
    smudges := 0;
    var pairs := Min(col, width - col);
    for i := 0 to pairs
      invariant smudges == ColMismatch(rows, col, i)
    {
      var a, b := col - 1 - i, col + i;
      for y := 0 to |rows|
        invariant smudges == ColMismatch(rows, col, i) + ColPairDiff(rows, a, b, y)
      {
        if rows[y][a] != rows[y][b] {
          smudges := smudges + 1;
        }
      }
    }
  }

  // ---------------------------------------------------------------------
  // Mismatch of a horizontal line

  /** The columns below `w` in which rows `a` and `b` differ. */
  function RowPairDiff(rows: seq<seq<Node>>, a: nat, b: nat, w: nat): nat
  {
    if w == 0 then 0 else RowPairDiff(rows, a, b, w - 1) + Differ(At(rows, w - 1, a), At(rows, w - 1, b))
  }

  /** The mismatch of the first `k` row pairs `(row - 1 - i, row + i)`. */
  function RowMismatch(rows: seq<seq<Node>>, width: nat, row: nat, k: nat): nat
  {
    if k == 0 || k > row then 0
    else RowMismatch(rows, width, row, k - 1) + RowPairDiff(rows, row - k, row + k - 1, width)
  }

  /** `row_reflection` as a value: the mismatch over all row pairs of the line. */
  function RowReflection(rows: seq<seq<Node>>, width: nat, row: nat): nat
  {
    RowMismatch(rows, width, row, Pairs(row, |rows|))
  }

  /** `row_reflection`: the nested loops over the row pairs and the columns. */
  method RowReflectionLoop(rows: seq<seq<Node>>, width: nat, row: nat) returns (smudges: nat)
    requires Rectangular(rows, width) && row <= |rows|
    ensures smudges == RowReflection(rows, width, row)
  {
    smudges := 0;
    var pairs := Min(row, |rows| - row);
    for i := 0 to pairs
      invariant smudges == RowMismatch(rows, width, row, i)
    {
      var a, b := row - 1 - i, row + i;
      for x := 0 to width
        invariant smudges == RowMismatch(rows, width, row, i) + RowPairDiff(rows, a, b, x)
      {
        if rows[a][x] != rows[b][x] {
          smudges := smudges + 1;
        }
      }
    }
  }

  // ---------------------------------------------------------------------
  // Score

  /** The columns `1..c` whose line has exactly `smudges` mismatches, summed. */
  function ColScore(rows: seq<seq<Node>>, width: nat, smudges: nat, c: nat): nat
  {
    if c <= 1 then 0
    else ColScore(rows, width, smudges, c - 1) + (if ColReflection(rows, width, c - 1) == smudges then c - 1 else 0)
  }

  /** The rows `1..r` whose line has exactly `smudges` mismatches, summed. */
  function RowScore(rows: seq<seq<Node>>, width: nat, smudges: nat, r: nat): nat
  {
    if r <= 1 then 0
    else RowScore(rows, width, smudges, r - 1) + (if RowReflection(rows, width, r - 1) == smudges then r - 1 else 0)
  }

  /** `reflection_score` as a value: scoring columns count once, scoring rows a hundred times. */
  function Score(rows: seq<seq<Node>>, width: nat, smudges: nat): nat
  {
    ColScore(rows, width, smudges, width) + 100 * RowScore(rows, width, smudges, |rows|)
  }

  /** `reflection_score`: one loop over the columns, one over the rows. */
  method ReflectionScore(rows: seq<seq<Node>>, width: nat, smudges: nat) returns (sum: nat)
    requires Rectangular(rows, width)
    ensures sum == Score(rows, width, smudges)
  {
    sum := 0;
    var c := 1;
    while c < width
      invariant 1 <= c <= Max(width, 1)
      invariant sum == ColScore(rows, width, smudges, c)
    {
      var s := ColReflectionLoop(rows, width, c);
      if s == smudges {
        sum := sum + c;
      }
      c := c + 1;
    }
    var cols := sum;
    var r := 1;
    while r < |rows|
      invariant 1 <= r <= Max(|rows|, 1)
      invariant sum == cols + 100 * RowScore(rows, width, smudges, r)
    {
      var s := RowReflectionLoop(rows, width, r);
      if s == smudges {
        sum := sum + 100 * r;
      }
      r := r + 1;
    }
  }

  /** `part_a` (`smudges` 0) and `part_b` (`smudges` 1): the scores of all patterns, summed. */
  function Total(patterns: seq<(seq<seq<Node>>, nat)>, smudges: nat): nat
  {
    if patterns == [] then 0
    else
      var (rows, width) := patterns[|patterns| - 1];
      Total(patterns[..|patterns| - 1], smudges) + Score(rows, width, smudges)
  }

  /** The total over patterns laid end to end is the sum of their totals: each pattern adds its own score, once. */
  lemma {:induction false} TotalAppend(a: seq<(seq<seq<Node>>, nat)>, b: seq<(seq<seq<Node>>, nat)>, smudges: nat)
    ensures Total(a + b, smudges) == Total(a, smudges) + Total(b, smudges)
    ensures |b| == 1 ==> Total(a + b, smudges) == Total(a, smudges) + Score(b[0].0, b[0].1, smudges)
  {
    if b == [] {
      assert a + b == a;
    } else {
      assert (a + b)[..|a + b| - 1] == a + b[..|b| - 1];
      TotalAppend(a, b[..|b| - 1], smudges);
      if |b| == 1 {
        assert b[..0] == [];
      }
    }
  }

  /** The loop over the patterns of `part_a` and `part_b`. */
  method Solve(patterns: seq<(seq<seq<Node>>, nat)>, smudges: nat) returns (sum: nat)
    requires forall i | 0 <= i < |patterns| :: Rectangular(patterns[i].0, patterns[i].1)
    ensures sum == Total(patterns, smudges)
  {
    sum := 0;
    for i := 0 to |patterns|
      invariant sum == Total(patterns[..i], smudges)
    {
      var s := ReflectionScore(patterns[i].0, patterns[i].1, smudges);
      assert patterns[..i + 1][..i] == patterns[..i];
      sum := sum + s;
    }
    assert patterns[..|patterns|] == patterns;
  }

  // ---------------------------------------------------------------------
  // What the mismatch means

  /** Columns `a` and `b` agree on the first `h` rows exactly when no row below `h` differs. */
  lemma {:induction false} ColPairDiffZero(rows: seq<seq<Node>>, a: nat, b: nat, h: nat)
    ensures ColPairDiff(rows, a, b, h) == 0 <==> forall y | 0 <= y < h :: At(rows, a, y) == At(rows, b, y)
  {
    if h > 0 {
      ColPairDiffZero(rows, a, b, h - 1);
    }
  }

  /** Pair `i` of the line left of column `col` agrees in row `y`. */
  predicate Mirrored(rows: seq<seq<Node>>, col: nat, i: nat, y: nat)
  {
    At(rows, col - 1 - i, y) == At(rows, col + i, y)
  }

  /**
   * A vertical line has no mismatch exactly when it is a perfect mirror:
   * every cell up to the nearer edge equals its image across the line.
   */
  lemma {:induction false} ColMismatchZero(rows: seq<seq<Node>>, col: nat, k: nat)
    requires k <= col
    ensures ColMismatch(rows, col, k) == 0 <==>
      forall i, y | 0 <= i < k && 0 <= y < |rows| :: Mirrored(rows, col, i, y)
  {
    if k > 0 {
      ColMismatchZero(rows, col, k - 1);
      ColPairDiffZero(rows, col - k, col + k - 1, |rows|);
      if ColMismatch(rows, col, k) == 0 {
        forall i, y | 0 <= i < k && 0 <= y < |rows|
          ensures Mirrored(rows, col, i, y)
        {
          if i == k - 1 {
            assert At(rows, col - k, y) == At(rows, col + k - 1, y);
          }
        }
      } else if ColMismatch(rows, col, k - 1) == 0 {
        var y :| 0 <= y < |rows| && At(rows, col - k, y) != At(rows, col + k - 1, y);
        assert !Mirrored(rows, col, k - 1, y);
      }
    }
  }

  /** The part a reading of a line: zero mismatch is a perfect reflection up to the nearer edge. */
  lemma ColReflectionPerfect(rows: seq<seq<Node>>, width: nat, col: nat)
    requires col <= width
    ensures ColReflection(rows, width, col) == 0 <==>
      forall i, y | 0 <= i < Min(col, width - col) && 0 <= y < |rows| :: Mirrored(rows, col, i, y)
  {
    ColMismatchZero(rows, col, Pairs(col, width));
  }

  /** Row `y` is the only row below `h` in which columns `a` and `b` differ. */
  predicate OnlyRowDiffering(rows: seq<seq<Node>>, a: nat, b: nat, h: nat, y: nat)
  {
    y < h && At(rows, a, y) != At(rows, b, y) &&
    forall z | 0 <= z < h && z != y :: At(rows, a, z) == At(rows, b, z)
  }

  /** Columns `a` and `b` differ in exactly one row below `h` exactly when their count is 1. */
  lemma {:induction false} ColPairDiffOne(rows: seq<seq<Node>>, a: nat, b: nat, h: nat)
    ensures ColPairDiff(rows, a, b, h) == 1 <==> exists y :: OnlyRowDiffering(rows, a, b, h, y)
  {
    if h > 0 {
      var last := h - 1;
      ColPairDiffOne(rows, a, b, last);
      ColPairDiffZero(rows, a, b, last);
      if ColPairDiff(rows, a, b, h) == 1 {
        if At(rows, a, last) != At(rows, b, last) {
          assert OnlyRowDiffering(rows, a, b, h, last);
        } else {
          var y :| OnlyRowDiffering(rows, a, b, last, y);
          assert OnlyRowDiffering(rows, a, b, h, y);
        }
      } else if exists y :: OnlyRowDiffering(rows, a, b, h, y) {
        var y :| OnlyRowDiffering(rows, a, b, h, y);
        if y != last {
          assert OnlyRowDiffering(rows, a, b, last, y);
        }
      }
    }
  }

  /** `(i, y)` is the only pair and row of the first `k` pairs that is not mirrored. */
  predicate OneSmudge(rows: seq<seq<Node>>, col: nat, k: nat, i: nat, y: nat)
  {
    i < k && y < |rows| && !Mirrored(rows, col, i, y) &&
    forall j, z | 0 <= j < k && 0 <= z < |rows| && (j != i || z != y) :: Mirrored(rows, col, j, z)
  }

  /** A mismatch of 1 comes from exactly one smudge. */
  lemma {:induction false} SmudgeOfMismatchOne(rows: seq<seq<Node>>, col: nat, k: nat)
    requires k <= col && ColMismatch(rows, col, k) == 1
    ensures exists i, y :: OneSmudge(rows, col, k, i, y)
  {
    var last := k - 1;
    ColPairDiffZero(rows, col - k, col + last, |rows|);
    if ColMismatch(rows, col, last) == 1 {
      SmudgeOfMismatchOne(rows, col, last);
      var i, y :| OneSmudge(rows, col, last, i, y);
      assert OneSmudge(rows, col, k, i, y);
    } else {
      ColMismatchZero(rows, col, last);
      ColPairDiffOne(rows, col - k, col + last, |rows|);
      var y :| OnlyRowDiffering(rows, col - k, col + last, |rows|, y);
      assert OneSmudge(rows, col, k, last, y);
    }
  }

  /** Exactly one smudge gives a mismatch of 1. */
  lemma {:induction false} MismatchOneOfSmudge(rows: seq<seq<Node>>, col: nat, k: nat, i: nat, y: nat)
    requires k <= col && OneSmudge(rows, col, k, i, y)
    ensures ColMismatch(rows, col, k) == 1
  {
    var last := k - 1;
    ColPairDiffZero(rows, col - k, col + last, |rows|);
    if i == last {
      ColMismatchZero(rows, col, last);
      forall j, z | 0 <= j < last && 0 <= z < |rows|
        ensures Mirrored(rows, col, j, z)
      {
      }
      var a, b := col - k, col + last;
      forall z | 0 <= z < |rows| && z != y
        ensures At(rows, a, z) == At(rows, b, z)
      {
        assert Mirrored(rows, col, last, z);
      }
      assert !Mirrored(rows, col, last, y);
      assert OnlyRowDiffering(rows, col - k, col + last, |rows|, y);
      ColPairDiffOne(rows, col - k, col + last, |rows|);
    } else {
      assert OneSmudge(rows, col, last, i, y);
      MismatchOneOfSmudge(rows, col, last, i, y);
      var a, b := col - k, col + last;
      forall z | 0 <= z < |rows|
        ensures At(rows, a, z) == At(rows, b, z)
      {
        assert Mirrored(rows, col, last, z);
      }
    }
  }

  /**
   * The part b reading of a line: a mismatch of exactly 1 means exactly one
   * cell differs from its image, the smudge.
   */
  lemma ColMismatchOne(rows: seq<seq<Node>>, col: nat, k: nat)
    requires k <= col
    ensures ColMismatch(rows, col, k) == 1 <==> exists i, y :: OneSmudge(rows, col, k, i, y)
  {
    if ColMismatch(rows, col, k) == 1 {
      SmudgeOfMismatchOne(rows, col, k);
    }
    if exists i, y :: OneSmudge(rows, col, k, i, y) {
      var i, y :| OneSmudge(rows, col, k, i, y);
      MismatchOneOfSmudge(rows, col, k, i, y);
    }
  }

  /** A line scores in part b exactly when it has exactly one smudge. */
  lemma ColReflectionSmudge(rows: seq<seq<Node>>, width: nat, col: nat)
    requires col <= width
    ensures ColReflection(rows, width, col) == 1 <==> exists i, y :: OneSmudge(rows, col, Pairs(col, width), i, y)
  {
    ColMismatchOne(rows, col, Pairs(col, width));
  }

  /** Counting differences is symmetric in the two columns compared. */
  lemma {:induction false} ColPairDiffSymmetric(rows: seq<seq<Node>>, a: nat, b: nat, h: nat)
    ensures ColPairDiff(rows, a, b, h) == ColPairDiff(rows, b, a, h)
  {
    if h > 0 {
      ColPairDiffSymmetric(rows, a, b, h - 1);
    }
  }

  /** A column compared with itself never differs. */
  lemma {:induction false} ColPairDiffSelf(rows: seq<seq<Node>>, a: nat, h: nat)
    ensures ColPairDiff(rows, a, a, h) == 0
  {
    if h > 0 {
      ColPairDiffSelf(rows, a, h - 1);
    }
  }

  // ---------------------------------------------------------------------
  // Rows are the columns of the transposed pattern

  /** The pattern with rows and columns swapped: `width` rows of `|rows|` cells. */
  function Transpose(rows: seq<seq<Node>>, width: nat): (t: seq<seq<Node>>)
    ensures Rectangular(t, |rows|) && |t| == width
  {
    seq(width, x => seq(|rows|, y => At(rows, x, y)))
  }

  /** Transposing twice gives the pattern back. */
  lemma TransposeTwice(rows: seq<seq<Node>>, width: nat)
    requires Rectangular(rows, width)
    ensures Transpose(Transpose(rows, width), |rows|) == rows
  {
    var t := Transpose(rows, width);
    var tt := Transpose(t, |rows|);
    assert |tt| == |rows|;
    forall y | 0 <= y < |rows|
      ensures tt[y] == rows[y]
    {
      assert |tt[y]| == width == |rows[y]|;
      forall x | 0 <= x < width
        ensures tt[y][x] == rows[y][x]
      {
        assert tt[y][x] == At(t, y, x) == t[x][y];
      }
    }
  }

  /** Comparing two rows is comparing two columns of the transposed pattern. */
  lemma {:induction false} RowPairDiffTranspose(rows: seq<seq<Node>>, width: nat, a: nat, b: nat, w: nat)
    requires a < |rows| && b < |rows| && w <= width
    ensures RowPairDiff(rows, a, b, w) == ColPairDiff(Transpose(rows, width), a, b, w)
  {
    if w > 0 {
      RowPairDiffTranspose(rows, width, a, b, w - 1);
      var t := Transpose(rows, width);
      assert At(t, a, w - 1) == At(rows, w - 1, a);
      assert At(t, b, w - 1) == At(rows, w - 1, b);
    }
  }

  lemma {:induction false} RowMismatchTranspose(rows: seq<seq<Node>>, width: nat, row: nat, k: nat)
    requires row + k <= |rows| && k <= row
    ensures RowMismatch(rows, width, row, k) == ColMismatch(Transpose(rows, width), row, k)
  {
    if k > 0 {
      RowMismatchTranspose(rows, width, row, k - 1);
      RowPairDiffTranspose(rows, width, row - k, row + k - 1, width);
    }
  }

  /** `row_reflection` is `col_reflection` of the transposed pattern. */
  lemma RowReflectionTranspose(rows: seq<seq<Node>>, width: nat, row: nat)
    requires row <= |rows|
    ensures RowReflection(rows, width, row) == ColReflection(Transpose(rows, width), |rows|, row)
  {
    RowMismatchTranspose(rows, width, row, Pairs(row, |rows|));
  }
}
