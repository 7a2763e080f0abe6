/**
 * Year 2024, day 4: a word search.  Patterns are masks of optional
 * characters (`None` matches anything); the source rotates a mask by quarter
 * turns and counts every placement of it in the grid with `fold_2d`.
 */
module Y2024Day04 {
  import opened Common

  type Mask = seq<seq<Option<char>>>

  /** An `N x M` array of optional characters, as the const generics make it. */
  predicate IsMask(mask: Mask, n: nat, m: nat)
  {
    |mask| == n && forall i | 0 <= i < n :: |mask[i]| == m
  }

  /** `rotate_mask`: a quarter turn, `result[i][j] == mask[N - 1 - j][i]`. */
  function Rotate(mask: Mask, n: nat, m: nat): (r: Mask)
    requires IsMask(mask, n, m)
    ensures IsMask(r, m, n)
    ensures forall i, j | 0 <= i < m && 0 <= j < n :: r[i][j] == mask[n - 1 - j][i]
  {
    seq(m, i requires 0 <= i < m => seq(n, j requires 0 <= j < n => mask[n - 1 - j][i]))
  }

  /** Two quarter turns turn the mask upside down. */
  lemma RotateTwice(mask: Mask, n: nat, m: nat)
    requires IsMask(mask, n, m)
    ensures forall i, j | 0 <= i < n && 0 <= j < m :: Rotate(Rotate(mask, n, m), m, n)[i][j] == mask[n - 1 - i][m - 1 - j]
  {
  }

  /** Four quarter turns give back the mask. */
  lemma RotateFour(mask: Mask, n: nat, m: nat)
    requires IsMask(mask, n, m)
    ensures Rotate(Rotate(Rotate(Rotate(mask, n, m), m, n), n, m), m, n) == mask
  {
    var r2 := Rotate(Rotate(mask, n, m), m, n);
    RotateTwice(mask, n, m);
    RotateTwice(r2, n, m);
    var r4 := Rotate(Rotate(r2, n, m), m, n);
    forall i | 0 <= i < n
      ensures r4[i] == mask[i]
    {
      assert forall j | 0 <= j < m :: r4[i][j] == r2[n - 1 - i][m - 1 - j] == mask[i][j];
    }
  }

  /** A grid whose rows all have width `w`. */
  predicate Rectangular(input: seq<seq<char>>, w: nat)
  {
    forall r | 0 <= r < |input| :: |input[r]| == w
  }

  /** One zipped row comparison of `fold_2d`: it stops at the shorter side. */
  predicate RowMatches(line: seq<char>, mline: seq<Option<char>>, j: nat)
    requires j <= |line|
  {
    forall k | 0 <= k < |mline| && j + k < |line| :: mline[k].None? || line[j + k] == mline[k].value
  }

  /** The mask's rows, zipped with the grid's first rows, all match at column `j`. */
  predicate MatchesAtTop(input: seq<seq<char>>, mask: Mask, j: nat)
    requires |mask| <= |input|
    requires forall r | 0 <= r < |input| :: j <= |input[r]|
  {
    forall r | 0 <= r < |mask| :: RowMatches(input[r], mask[r], j)
  }

  /** The number of columns `j < n` where the mask matches at the top of `input`. */
  function CountColumns(input: seq<seq<char>>, mask: Mask, n: nat): (r: nat)
    requires |mask| <= |input|
    requires forall row | 0 <= row < |input| :: n <= |input[row]| + 1
    ensures r <= n
  {
    if n == 0 then 0
    else CountColumns(input, mask, n - 1) + (if MatchesAtTop(input, mask, n - 1) then 1 else 0)
  }

  /**
   * `fold_2d`: the placements in the top rows, then the same count on the
   * grid without its first row.  The `usize` subtraction `input[0].len() -
   * mask[0].len()` requires rows at least as wide as the mask.
   */
  function Fold2D(input: seq<seq<char>>, mask: Mask, n: nat, m: nat, w: nat): (r: nat)
    requires IsMask(mask, n, m) && n >= 1
    requires Rectangular(input, w) && w >= m
    ensures |input| < n ==> r == 0
    ensures r <= |input| * (w - m + 1)
    decreases |input|
  {
    if |input| < n then 0
    else
      var h, c := |input| - 1, w - m + 1;
      assert (h + 1) * c == h * c + c;
      CountColumns(input, mask, c) + Fold2D(input[1..], mask, n, m, w)
  }

  /** Reference definition: the mask placed with its top-left corner at row `i`, column `j`. */
  predicate MatchesAt(input: seq<seq<char>>, mask: Mask, n: nat, m: nat, w: nat, i: nat, j: nat)
    requires IsMask(mask, n, m) && Rectangular(input, w)
    requires i + n <= |input| && j + m <= w
  {
    forall r, k | 0 <= r < n && 0 <= k < m :: mask[r][k].None? || input[i + r][j + k] == mask[r][k].value
  }

  /** The number of columns `j < c` at which the mask matches at row `i`. */
  function PlacementsInRow(input: seq<seq<char>>, mask: Mask, n: nat, m: nat, w: nat, i: nat, c: nat): nat
    requires IsMask(mask, n, m) && Rectangular(input, w)
    requires i + n <= |input| && c + m <= w + 1
  {
    if c == 0 then 0
    else PlacementsInRow(input, mask, n, m, w, i, c - 1) + (if MatchesAt(input, mask, n, m, w, i, c - 1) then 1 else 0)
  }

  /** The number of placements with top row at least `i`. */
  function PlacementsFrom(input: seq<seq<char>>, mask: Mask, n: nat, m: nat, w: nat, i: nat): nat
    requires IsMask(mask, n, m) && Rectangular(input, w) && w >= m
    decreases |input| - i
  {
    if i + n > |input| then 0
    else PlacementsInRow(input, mask, n, m, w, i, w - m + 1) + PlacementsFrom(input, mask, n, m, w, i + 1)
  }

  lemma {:induction false} ColumnsAreRowPlacements(input: seq<seq<char>>, mask: Mask, n: nat, m: nat, w: nat, d: nat, c: nat)
    requires IsMask(mask, n, m) && Rectangular(input, w)
    requires d + n <= |input| && c + m <= w + 1
    ensures CountColumns(input[d..], mask, c) == PlacementsInRow(input, mask, n, m, w, d, c)
  {
    if c > 0 {
      ColumnsAreRowPlacements(input, mask, n, m, w, d, c - 1);
      var tail := input[d..];
      assert MatchesAtTop(tail, mask, c - 1) <==> MatchesAt(input, mask, n, m, w, d, c - 1) by {
        forall r | 0 <= r < n
          ensures tail[r] == input[d + r]
        {
        }
      }
    }
  }

  /** `fold_2d` on the grid without its first `d` rows counts the placements from row `d` on. */
  lemma {:induction false} FoldFrom(input: seq<seq<char>>, mask: Mask, n: nat, m: nat, w: nat, d: nat)
    requires IsMask(mask, n, m) && n >= 1
    requires Rectangular(input, w) && w >= m
    requires d <= |input|
    ensures Rectangular(input[d..], w)
    ensures Fold2D(input[d..], mask, n, m, w) == PlacementsFrom(input, mask, n, m, w, d)
    decreases |input| - d
  {
    var tail := input[d..];
    assert forall r | 0 <= r < |tail| :: tail[r] == input[d + r];
    if d + n <= |input| {
      FoldFrom(input, mask, n, m, w, d + 1);
      assert tail[1..] == input[d + 1..];
      ColumnsAreRowPlacements(input, mask, n, m, w, d, w - m + 1);
    }
  }

  /** `fold_2d` counts every placement of the mask inside the grid exactly once. */
  lemma FoldCountsPlacements(input: seq<seq<char>>, mask: Mask, n: nat, m: nat, w: nat)
    requires IsMask(mask, n, m) && n >= 1
    requires Rectangular(input, w) && w >= m
    ensures Fold2D(input, mask, n, m, w) == PlacementsFrom(input, mask, n, m, w, 0)
  {
    FoldFrom(input, mask, n, m, w, 0);
    assert input[0..] == input;
  }

  function Some4(a: char, b: char, c: char, d: char): seq<Option<char>>
  {
    [Some(a), Some(b), Some(c), Some(d)]
  }

  const XMAS: Mask := [Some4('X', 'M', 'A', 'S')]

  const XMAS_DIAGONAL: Mask := [
    [Some('X'), None, None, None],
    [None, Some('M'), None, None],
    [None, None, Some('A'), None],
    [None, None, None, Some('S')]
  ]

  const X_MAS: Mask := [
    [Some('M'), None, Some('S')],
    [None, Some('A'), None],
    [Some('M'), None, Some('S')]
  ]

  /** `part_a`: the row, column and diagonal masks of XMAS in all four quarter turns. */
  function PartA(input: seq<seq<char>>, w: nat): nat
    requires Rectangular(input, w) && w >= 4
  {
    var m1 := XMAS;
    var m2 := Rotate(m1, 1, 4);
    var m3 := Rotate(m2, 4, 1);
    var m4 := Rotate(m3, 1, 4);
    var d1 := XMAS_DIAGONAL;
    var d2 := Rotate(d1, 4, 4);
    var d3 := Rotate(d2, 4, 4);
    var d4 := Rotate(d3, 4, 4);
    Fold2D(input, m1, 1, 4, w) + Fold2D(input, m2, 4, 1, w) + Fold2D(input, m3, 1, 4, w) + Fold2D(input, m4, 4, 1, w)
    + Fold2D(input, d1, 4, 4, w) + Fold2D(input, d2, 4, 4, w) + Fold2D(input, d3, 4, 4, w) + Fold2D(input, d4, 4, 4, w)
  }

  /** `part_b`: the crossed MAS mask in all four quarter turns. */
  function PartB(input: seq<seq<char>>, w: nat): nat
    requires Rectangular(input, w) && w >= 3
  {
    var m1 := X_MAS;
    var m2 := Rotate(m1, 3, 3);
    var m3 := Rotate(m2, 3, 3);
    var m4 := Rotate(m3, 3, 3);
    Fold2D(input, m1, 3, 3, w) + Fold2D(input, m2, 3, 3, w) + Fold2D(input, m3, 3, 3, w) + Fold2D(input, m4, 3, 3, w)
  }

  /** Part a counts, for each of the eight orientations of XMAS, every placement inside the grid once. */
  lemma PartACountsPlacements(input: seq<seq<char>>, w: nat)
    requires Rectangular(input, w) && w >= 4
    ensures var m2 := Rotate(XMAS, 1, 4); var m3 := Rotate(m2, 4, 1); var m4 := Rotate(m3, 1, 4);
      var d2 := Rotate(XMAS_DIAGONAL, 4, 4); var d3 := Rotate(d2, 4, 4); var d4 := Rotate(d3, 4, 4);
      PartA(input, w)
      == PlacementsFrom(input, XMAS, 1, 4, w, 0) + PlacementsFrom(input, m2, 4, 1, w, 0)
       + PlacementsFrom(input, m3, 1, 4, w, 0) + PlacementsFrom(input, m4, 4, 1, w, 0)
       + PlacementsFrom(input, XMAS_DIAGONAL, 4, 4, w, 0) + PlacementsFrom(input, d2, 4, 4, w, 0)
       + PlacementsFrom(input, d3, 4, 4, w, 0) + PlacementsFrom(input, d4, 4, 4, w, 0)
  {
    var m2 := Rotate(XMAS, 1, 4);
    var m3 := Rotate(m2, 4, 1);
    var m4 := Rotate(m3, 1, 4);
    var d2 := Rotate(XMAS_DIAGONAL, 4, 4);
    var d3 := Rotate(d2, 4, 4);
    var d4 := Rotate(d3, 4, 4);
    FoldCountsPlacements(input, XMAS, 1, 4, w);
    FoldCountsPlacements(input, m2, 4, 1, w);
    FoldCountsPlacements(input, m3, 1, 4, w);
    FoldCountsPlacements(input, m4, 4, 1, w);
    FoldCountsPlacements(input, XMAS_DIAGONAL, 4, 4, w);
    FoldCountsPlacements(input, d2, 4, 4, w);
    FoldCountsPlacements(input, d3, 4, 4, w);
    FoldCountsPlacements(input, d4, 4, 4, w);
  }

  /** Part b counts, for each of the four orientations of the crossed MAS, every placement inside the grid once. */
  lemma PartBCountsPlacements(input: seq<seq<char>>, w: nat)
    requires Rectangular(input, w) && w >= 3
    ensures var m2 := Rotate(X_MAS, 3, 3); var m3 := Rotate(m2, 3, 3); var m4 := Rotate(m3, 3, 3);
      PartB(input, w)
      == PlacementsFrom(input, X_MAS, 3, 3, w, 0) + PlacementsFrom(input, m2, 3, 3, w, 0)
       + PlacementsFrom(input, m3, 3, 3, w, 0) + PlacementsFrom(input, m4, 3, 3, w, 0)
  {
    var m2 := Rotate(X_MAS, 3, 3);
    var m3 := Rotate(m2, 3, 3);
    var m4 := Rotate(m3, 3, 3);
    FoldCountsPlacements(input, X_MAS, 3, 3, w);
    FoldCountsPlacements(input, m2, 3, 3, w);
    FoldCountsPlacements(input, m3, 3, 3, w);
    FoldCountsPlacements(input, m4, 3, 3, w);
  }

  /** The second quarter turn of XMAS reads it backwards: SAMX. */
  lemma XmasHalfTurn()
    ensures Rotate(Rotate(XMAS, 1, 4), 4, 1) == [Some4('S', 'A', 'M', 'X')]
  {
    var r := Rotate(Rotate(XMAS, 1, 4), 4, 1);
    RotateTwice(XMAS, 1, 4);
    assert r[0][0] == Some('S') && r[0][1] == Some('A') && r[0][2] == Some('M') && r[0][3] == Some('X');
    assert r[0] == Some4('S', 'A', 'M', 'X');
  }

  /** The first quarter turn of XMAS is the column X, M, A, S read downwards. */
  lemma XmasQuarterTurn()
    ensures Rotate(XMAS, 1, 4) == [[Some('X')], [Some('M')], [Some('A')], [Some('S')]]
  {
    var r := Rotate(XMAS, 1, 4);
    assert r[0][0] == Some('X') && r[1][0] == Some('M') && r[2][0] == Some('A') && r[3][0] == Some('S');
    assert r[0] == [Some('X')] && r[1] == [Some('M')] && r[2] == [Some('A')] && r[3] == [Some('S')];
  }
}
