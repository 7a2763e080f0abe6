/**
 * Year 2023, `fun`: Conway's game of life on a board whose edges wrap
 * around.  A step builds a fresh board from the old one, cell by cell.
 */
module Y2023Fun {
  import opened Common

  datatype Cell = Dead | Alive

  /** The character `Display` writes for a cell. */
  function ShowCell(c: Cell): char
  {
    if c == Dead then '.' else 'x'
  }

  /** The cell `new` reads from a character; any other character is `unimplemented!`. */
  function ParseCell(c: char): (r: Option<Cell>)
    ensures r == Some(Dead) <==> c == '.' || c == ' '
    ensures r == Some(Alive) <==> c == 'x'
  {
    match c
    case '.' => Some(Dead)
    case ' ' => Some(Dead)
    case 'x' => Some(Alive)
    case _ => None
  }

  /** Reading back what `Display` writes gives the same cell. */
  lemma ParseShow(c: Cell)
    ensures ParseCell(ShowCell(c)) == Some(c)
  {
  }

  /** `height` rows of `width` cells each. */
  predicate IsBoard(b: seq<seq<Cell>>, width: nat, height: nat)
  {
    |b| == height && forall y | 0 <= y < height :: |b[y]| == width
  }

  /** The cells of the lines, or `None` when a character is none of `.`, ` ` and `x`. */
  function ParseRows(lines: seq<string>): (r: Option<seq<seq<Cell>>>)
    ensures r.Some? <==> forall y, x | 0 <= y < |lines| && 0 <= x < |lines[y]| :: ParseCell(lines[y][x]).Some?
    ensures r.Some? ==> |r.value| == |lines| && forall y | 0 <= y < |lines| :: |r.value[y]| == |lines[y]|
    ensures r.Some? ==> forall y, x | 0 <= y < |lines| && 0 <= x < |lines[y]| :: Some(r.value[y][x]) == ParseCell(lines[y][x])
  {
    if lines == [] then Some([])
    else
      var n := |lines| - 1;
      match (ParseRows(lines[..n]), ParseLine(lines[n]))
      case (Some(init), Some(row)) =>
        assert forall y | 0 <= y < n :: lines[..n][y] == lines[y];
        Some(init + [row])
      case _ =>
        assert forall y | 0 <= y < n :: lines[..n][y] == lines[y];
        None
  }

  function ParseLine(line: string): (r: Option<seq<Cell>>)
    ensures r.Some? <==> forall x | 0 <= x < |line| :: ParseCell(line[x]).Some?
    ensures r.Some? ==> |r.value| == |line| && forall x | 0 <= x < |line| :: Some(r.value[x]) == ParseCell(line[x])
  {
    if line == [] then Some([])
    else
      var n := |line| - 1;
      match (ParseLine(line[..n]), ParseCell(line[n]))
      case (Some(init), Some(c)) =>
        assert forall x | 0 <= x < n :: line[..n][x] == line[x];
        Some(init + [c])
      case _ =>
        assert forall x | 0 <= x < n :: line[..n][x] == line[x];
        None
  }

  /** The eight neighbour offsets, in the grid's neighbour order. */
  const Offsets: seq<(int, int)> := [(-1, -1), (0, -1), (1, -1), (-1, 0), (1, 0), (-1, 1), (0, 1), (1, 1)]

  /**
   * The cell at `(x, y)`, both coordinates wrapped around the edges
   * (`rem_euclid`).  Off a board of the given size, which the callers rule
   * out, a cell reads as dead.
   */
  function Wrapped(b: seq<seq<Cell>>, width: nat, height: nat, x: int, y: int): Cell
  {
    if width == 0 || height == 0 then Dead
    else
      var r, c := y % height, x % width;
      if r < |b| && c < |b[r]| then b[r][c] else Dead
  }

  /** Among the offsets from the `k`-th on, the number leading to an alive cell. */
  function AliveFrom(b: seq<seq<Cell>>, width: nat, height: nat, x: int, y: int, k: nat): (r: nat)
    ensures k <= 8 ==> r <= 8 - k
    decreases 8 - k
  {
    if k >= 8 then 0
    else
      var (dx, dy) := Offsets[k];
      (if Wrapped(b, width, height, x + dx, y + dy) == Alive then 1 else 0) + AliveFrom(b, width, height, x, y, k + 1)
  }

  /** The alive cells among the eight wrapped neighbours; a cell met twice on a narrow board counts twice. */
  function AliveAround(b: seq<seq<Cell>>, width: nat, height: nat, x: int, y: int): (r: nat)
    ensures r <= 8
  {
    AliveFrom(b, width, height, x, y, 0)
  }

  /**
   * The `match count` of `step`: at most one alive neighbour kills, two keep
   * the cell, three give birth, four or more kill.
   */
  function Rule(count: nat, cell: Cell): (r: Cell)
    ensures r == Alive <==> count == 3 || (count == 2 && cell == Alive)
  {
    if count <= 1 then Dead
    else if count == 2 then cell
    else if count == 3 then Alive
    else Dead
  }

  /** The new state of the cell at `(x, y)`, from the old board alone. */
  function NextCell(b: seq<seq<Cell>>, width: nat, height: nat, x: nat, y: nat): Cell
    requires IsBoard(b, width, height) && x < width && y < height
  {
    Rule(AliveAround(b, width, height, x, y), b[y][x])
  }

  /** The new row `y`. */
  function NextRow(b: seq<seq<Cell>>, width: nat, height: nat, y: nat): (r: seq<Cell>)
    requires IsBoard(b, width, height) && y < height
    ensures |r| == width && forall x | 0 <= x < width :: r[x] == NextCell(b, width, height, x, y)
  {
    seq(width, x requires 0 <= x < width => NextCell(b, width, height, x, y))
  }

  /** The board after one step: every cell computed from the old board. */
  function Next(b: seq<seq<Cell>>, width: nat, height: nat): (r: seq<seq<Cell>>)
    requires IsBoard(b, width, height)
    ensures IsBoard(r, width, height)
    ensures forall y, x | 0 <= y < height && 0 <= x < width :: r[y][x] == NextCell(b, width, height, x, y)
  {
    seq(height, y requires 0 <= y < height => NextRow(b, width, height, y))
  }

  /** The board of the given size with no alive cell. */
  function AllDead(width: nat, height: nat): (r: seq<seq<Cell>>)
    ensures IsBoard(r, width, height)
  {
    seq(height, _ => seq(width, _ => Dead))
  }

  /** On a board without alive cells, no cell has an alive neighbour. */
  lemma {:induction false} DeadAround(width: nat, height: nat, x: int, y: int, k: nat)
    ensures AliveFrom(AllDead(width, height), width, height, x, y, k) == 0
    decreases 8 - k
  {
    if k < 8 {
      DeadAround(width, height, x, y, k + 1);
    }
  }

  /** An empty board stays empty: no cell is born without alive neighbours. */
  lemma NextOfDead(width: nat, height: nat)
    ensures Next(AllDead(width, height), width, height) == AllDead(width, height)
  {
    var b := AllDead(width, height);
    var r := Next(b, width, height);
    forall y | 0 <= y < height
      ensures r[y] == b[y]
    {
      forall x | 0 <= x < width
        ensures r[y][x] == Dead
      {
        DeadAround(width, height, x, y, 0);
      }
    }
  }

  lemma ModAddMod(a: int, d: int, w: int)
    requires w > 0
    ensures (a % w + d) % w == (a + d) % w
  {
    var q, q2, r2 := a / w, (a % w + d) / w, (a % w + d) % w;
    assert a % w + d == q2 * w + r2;
    assert (q + q2) * w == q * w + q2 * w;
    ModUnique(a + d, w, q + q2, r2);
  }

  /** The board moved one column to the left, the first column reappearing on the right. */
  function ShiftLeft(b: seq<seq<Cell>>, width: nat, height: nat): (r: seq<seq<Cell>>)
    requires IsBoard(b, width, height) && width > 0
    ensures IsBoard(r, width, height)
    ensures forall y, x | 0 <= y < height && 0 <= x < width :: r[y][x] == b[y][(x + 1) % width]
  {
    seq(height, y requires 0 <= y < height => seq(width, x requires 0 <= x < width => b[y][(x + 1) % width]))
  }

  /** Every wrapped cell of the moved board is the next cell of the original. */
  lemma ShiftWrapped(b: seq<seq<Cell>>, width: nat, height: nat)
    requires IsBoard(b, width, height) && width > 0 && height > 0
    ensures forall x, y :: Wrapped(ShiftLeft(b, width, height), width, height, x, y) == Wrapped(b, width, height, x + 1, y)
  {
    forall x, y
      ensures Wrapped(ShiftLeft(b, width, height), width, height, x, y) == Wrapped(b, width, height, x + 1, y)
    {
      ModAddMod(x, 1, width);
    }
  }

  /** Counting around a cell of a board that is another one moved left is counting around the next cell. */
  lemma {:induction false} AliveShift(s: seq<seq<Cell>>, b: seq<seq<Cell>>, width: nat, height: nat, x: int, y: int, k: nat)
    requires forall x', y' :: Wrapped(s, width, height, x', y') == Wrapped(b, width, height, x' + 1, y')
    ensures AliveFrom(s, width, height, x, y, k) == AliveFrom(b, width, height, x + 1, y, k)
    decreases 8 - k
  {
    if k < 8 {
      AliveShift(s, b, width, height, x, y, k + 1);
      var (dx, dy) := Offsets[k];
      assert x + dx + 1 == x + 1 + dx;
    }
  }

  /** Counting around a cell depends on its column only modulo the width. */
  lemma {:induction false} AlivePeriodic(b: seq<seq<Cell>>, width: nat, height: nat, x: int, y: int, k: nat)
    requires width > 0
    ensures AliveFrom(b, width, height, x % width, y, k) == AliveFrom(b, width, height, x, y, k)
    decreases 8 - k
  {
    if k < 8 {
      AlivePeriodic(b, width, height, x, y, k + 1);
      var (dx, dy) := Offsets[k];
      ModAddMod(x, dx, width);
    }
  }

  /** A cell of the moved board steps like the next cell of the original. */
  lemma CellCommutes(b: seq<seq<Cell>>, width: nat, height: nat, x: nat, y: nat)
    requires IsBoard(b, width, height) && x < width && y < height
    ensures NextCell(ShiftLeft(b, width, height), width, height, x, y) == NextCell(b, width, height, (x + 1) % width, y)
  {
    ShiftWrapped(b, width, height);
    AliveShift(ShiftLeft(b, width, height), b, width, height, x, y, 0);
    AlivePeriodic(b, width, height, x + 1, y, 0);
  }

  /**
   * The wrapped board has no edges: moving the board one column and then
   * stepping gives the same board as stepping and then moving it.
   */
  lemma StepCommutesWithShift(b: seq<seq<Cell>>, width: nat, height: nat)
    requires IsBoard(b, width, height) && width > 0
    ensures Next(ShiftLeft(b, width, height), width, height) == ShiftLeft(Next(b, width, height), width, height)
  {
    var l := Next(ShiftLeft(b, width, height), width, height);
    var r := ShiftLeft(Next(b, width, height), width, height);
    forall y | 0 <= y < height
      ensures l[y] == r[y]
    {
      forall x | 0 <= x < width
        ensures l[y][x] == r[y][x]
      {
        CellCommutes(b, width, height, x, y);
      }
    }
  }

  /** The inner loop of `step`: one row of the new board, cell by cell. */
  method ComputeRow(b: seq<seq<Cell>>, width: nat, height: nat, y: nat) returns (row: seq<Cell>)
    requires IsBoard(b, width, height) && y < height
    ensures row == NextRow(b, width, height, y)
  {
    row := [];
    for x := 0 to width
      invariant |row| == x && forall i | 0 <= i < x :: row[i] == NextCell(b, width, height, i, y)
    {
      var count := AliveAround(b, width, height, x, y);
      row := row + [Rule(count, b[y][x])];
    }
  }

  /** The outer loop of `step`: the rows of the new board, pushed one by one. */
  method BuildNext(b: seq<seq<Cell>>, width: nat, height: nat) returns (result: seq<seq<Cell>>)
    requires IsBoard(b, width, height)
    ensures result == Next(b, width, height)
  {
    result := [];
    for y := 0 to height
      invariant |result| == y && forall j | 0 <= j < y :: result[j] == NextRow(b, width, height, j)
    {
      var row := ComputeRow(b, width, height, y);
      result := result + [row];
    }
  }

  class GameOfLife {
    var board: seq<seq<Cell>>
    var width: nat
    var height: nat
    var wrapping: bool

    ghost predicate Valid()
      reads this
    {
      IsBoard(board, width, height)
    }

    /**
     * `new`: the board read from the lines, with wrapping on.  A character
     * other than `.`, ` ` and `x` makes the source panic, and the grid is
     * rectangular.
     */
    constructor (lines: seq<string>)
      requires ParseRows(lines).Some?
      requires forall y | 0 <= y < |lines| :: |lines[y]| == |lines[0]|
      ensures Valid() && wrapping
      ensures board == ParseRows(lines).value && height == |lines|
    {
      board := ParseRows(lines).value;
      width := if lines == [] then 0 else |lines[0]|;
      height := |lines|;
      wrapping := true;
    }

    /** `step`: build the new board from the old one, then replace the board, wrapping on. */
    method Step()
      requires Valid()
      modifies this
      ensures Valid() && wrapping
      ensures width == old(width) && height == old(height)
      ensures board == Next(old(board), width, height)
    {
      var result := BuildNext(board, width, height);
      board := result;
      wrapping := true;
    }
  }
}
