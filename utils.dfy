/** The `Grid` utility: a rectangular table of cells addressed by signed (x, y)
    coordinates, x the column and y the row, that optionally wraps around at its
    borders; its row-major iterator; and its 4- and 8-neighbourhood iterators. */
module Utils {
  import opened Common

  datatype Grid<T> = Grid(entries: seq<seq<T>>, width: int, height: int, wrapping: bool)
  {
    /** `height` rows of `width` cells each: what every constructor establishes. */
    predicate Valid()
    {
      0 <= width && height == |entries| && forall y | 0 <= y < |entries| :: |entries[y]| == width
    }

    predicate InRange(x: int, y: int)
    {
      0 <= x < width && 0 <= y < height
    }

    /** The positions indexing accepts without panicking: with wrapping every
        position of a non-empty grid (`rem_euclid` by zero panics), without it the
        positions in range. */
    predicate Addressable(x: int, y: int)
    {
      if wrapping then width > 0 && height > 0 else InRange(x, y)
    }
  }

  // ---------------------------------------------------------------------------
  // Construction

  /** `Grid::new`: cell (x, y) is `init(x, y)`; wrapping is off. */
  function New<T>(width: nat, height: nat, init: (int, int) -> T): (g: Grid<T>)
    ensures g.Valid() && g.width == width && g.height == height && !g.wrapping
    ensures forall x, y | g.InRange(x, y) :: Get(g, x, y) == Some(init(x, y))
  {
    Grid(seq(height, y => seq(width, x => init(x, y))), width, height, false)
  }

  function SetWrapping<T>(g: Grid<T>, wrapping: bool): Grid<T>
  {
    g.(wrapping := wrapping)
  }

  /** `From<Vec<Vec<T>>>`: as many rows as given and the first row's width (0 without
      rows); `None` where the source's assertion that all rows are that wide fails. */
  function FromRows<T>(rows: seq<seq<T>>): (r: Option<Grid<T>>)
    ensures r.Some? <==> forall i | 0 <= i < |rows| :: |rows[i]| == |rows[0]|
    ensures r.Some? ==> r.value.Valid() && r.value.entries == rows && r.value.height == |rows| && !r.value.wrapping
    ensures r.Some? ==> r.value.width == if |rows| == 0 then 0 else |rows[0]|
  {
    var width := if |rows| == 0 then 0 else |rows[0]|;
    if forall i | 0 <= i < |rows| :: |rows[i]| == width then Some(Grid(rows, width, |rows|, false)) else None
  }

  /** The cells of one line of text. */
  function MapLine<T>(f: char -> T, line: string): (r: seq<T>)
    ensures |r| == |line| && forall j | 0 <= j < |line| :: r[j] == f(line[j])
  {
    seq(|line|, j requires 0 <= j < |line| => f(line[j]))
  }

  /** `Grid::parse`: one row per line, one cell per character. */
  function Parse<T>(lines: seq<string>, f: char -> T): (r: Option<Grid<T>>)
    ensures r.Some? <==> forall i | 0 <= i < |lines| :: |lines[i]| == |lines[0]|
    ensures r.Some? ==> r.value.Valid() && !r.value.wrapping && r.value.height == |lines|
    ensures r.Some? ==> forall i | 0 <= i < |lines| :: |lines[i]| == r.value.width
    ensures r.Some? ==> forall x, y | r.value.InRange(x, y) :: Get(r.value, x, y) == Some(f(lines[y][x]))
  {
    var rows := seq(|lines|, i requires 0 <= i < |lines| => MapLine(f, lines[i]));
    assert forall i | 0 <= i < |lines| :: |rows[i]| == |lines[i]|;
    FromRows(rows)
  }

  /** The length of the longest row, 0 without rows. */
  function MaxLen<X>(rows: seq<seq<X>>): (m: nat)
    ensures forall i | 0 <= i < |rows| :: |rows[i]| <= m
    ensures |rows| == 0 ==> m == 0
    ensures |rows| > 0 ==> exists i | 0 <= i < |rows| :: |rows[i]| == m
  {
    if |rows| == 0 then 0
    else
      var m := MaxLen(rows[..|rows| - 1]);
      assert forall i | 0 <= i < |rows| - 1 :: rows[..|rows| - 1][i] == rows[i];
      if |rows[|rows| - 1]| > m then |rows[|rows| - 1]| else m
  }

  /** `Grid::parse_with_default`: every line is padded with `fill` up to the length of
      the longest line, so the grid is always rectangular. */
  method ParseWithDefault<T>(lines: seq<string>, f: char -> T, fill: T) returns (g: Grid<T>)
    ensures g.Valid() && !g.wrapping && g.height == |lines| && g.width == MaxLen(lines)
    ensures forall x, y | g.InRange(x, y) :: g.entries[y][x] == if x < |lines[y]| then f(lines[y][x]) else fill
  {
    var entries := seq(|lines|, i requires 0 <= i < |lines| => MapLine(f, lines[i]));
    var width := MaxLen(lines);
    for y := 0 to |entries|
      invariant |entries| == |lines|
      invariant forall i | 0 <= i < y :: |entries[i]| == width
      invariant forall i, x | 0 <= i < y && 0 <= x < width ::
                  entries[i][x] == if x < |lines[i]| then f(lines[i][x]) else fill
      invariant forall i | y <= i < |lines| :: entries[i] == MapLine(f, lines[i])
    {
      var row := entries[y];
      while |row| < width
        invariant |lines[y]| <= |row| <= width
        invariant forall x | 0 <= x < |row| :: row[x] == if x < |lines[y]| then f(lines[y][x]) else fill
      {
        row := row + [fill];
      }
      entries := entries[y := row];
    }
    var r := FromRows(entries);
    g := r.value;
  }

  // ---------------------------------------------------------------------------
  // Access

  /** `get`: `None` exactly outside the grid, else the cell at column x of row y. */
  function Get<T>(g: Grid<T>, x: int, y: int): (r: Option<T>)
    requires g.Valid()
    ensures r.Some? <==> g.InRange(x, y)
    ensures r.Some? ==> r.value == g.entries[y][x]
  {
    if x < 0 || y < 0 || x >= g.width || y >= g.height then None else Some(g.entries[y][x])
  }

  /** `get_wrapped`: both coordinates reduced with `rem_euclid`, which for a positive
      divisor is Dafny's `%`; every integer pair addresses a cell in range. */
  function GetWrapped<T>(g: Grid<T>, x: int, y: int): (r: T)
    requires g.Valid() && g.width > 0 && g.height > 0
    ensures Get(g, x % g.width, y % g.height) == Some(r)
  {
    g.entries[y % g.height][x % g.width]
  }

  /** Inside the grid, wrapped access is plain access. */
  lemma WrappedAgreesInRange<T>(g: Grid<T>, x: int, y: int)
    requires g.Valid() && g.InRange(x, y)
    ensures Get(g, x, y) == Some(GetWrapped(g, x, y))
  {
    assert x % g.width == x && y % g.height == y;
  }

  /** Wrapped access repeats with the grid's period in both directions. */
  lemma WrappedIsPeriodic<T>(g: Grid<T>, x: int, y: int)
    requires g.Valid() && g.width > 0 && g.height > 0
    ensures GetWrapped(g, x + g.width, y) == GetWrapped(g, x, y)
    ensures GetWrapped(g, x, y + g.height) == GetWrapped(g, x, y)
    ensures GetWrapped(g, x - g.width, y) == GetWrapped(g, x, y)
  {
    ModShift(x, g.width);
    ModShift(y, g.height);
    ModShift(x - g.width, g.width);
  }

  lemma ModShift(a: int, n: int)
    requires n > 0
    ensures (a + n) % n == a % n
  {
    ModUnique(a + n, n, a / n + 1, a % n);
  }

  /** The cell that position (x, y) denotes. */
  function Cell<T>(g: Grid<T>, x: int, y: int): (c: (int, int))
    requires g.Valid() && g.Addressable(x, y)
    ensures g.InRange(c.0, c.1)
  {
    if g.wrapping then (x % g.width, y % g.height) else (x, y)
  }

  /** `Index<(isize, isize)>`: wrapped access when wrapping is on, else checked access,
      which panics outside the grid. */
  function At<T>(g: Grid<T>, x: int, y: int): (r: T)
    requires g.Valid() && g.Addressable(x, y)
    ensures g.wrapping ==> r == GetWrapped(g, x, y)
    ensures !g.wrapping ==> Get(g, x, y) == Some(r)
  {
    if g.wrapping then GetWrapped(g, x, y) else g.entries[y][x]
  }

  /** `IndexMut<(isize, isize)>`, as an update of the grid value: the addressed cell
      holds `v`, every other cell and the shape are unchanged. */
  function Set<T>(g: Grid<T>, x: int, y: int, v: T): (r: Grid<T>)
    requires g.Valid() && g.Addressable(x, y)
    ensures r.Valid() && r.width == g.width && r.height == g.height && r.wrapping == g.wrapping
    ensures At(r, x, y) == v
    ensures forall x', y' | g.InRange(x', y') ::
              Get(r, x', y') == if (x', y') == Cell(g, x, y) then Some(v) else Get(g, x', y')
  {
    var (cx, cy) := Cell(g, x, y);
    g.(entries := g.entries[cy := g.entries[cy][cx := v]])
  }

  // ---------------------------------------------------------------------------
  // Row-major iteration

  /** The cells of row y with their positions, left to right. */
  function Row<T>(g: Grid<T>, y: int): seq<((int, int), T)>
    requires g.Valid() && 0 <= y < g.height
  {
    seq(g.width, x requires 0 <= x < g.width => ((x, y), g.entries[y][x]))
  }

  function RowsFrom<T>(g: Grid<T>, y: nat): seq<((int, int), T)>
    requires g.Valid() && y <= g.height
    decreases g.height - y
  {
    if y == g.height then [] else Row(g, y) + RowsFrom(g, y + 1)
  }

  /** Every cell with its position, rows top to bottom, each row left to right. */
  function RowMajor<T>(g: Grid<T>): seq<((int, int), T)>
    requires g.Valid()
  {
    RowsFrom(g, 0)
  }

  /** Row-major order of positions: by row, then by column. */
  predicate Precedes(p: (int, int), q: (int, int))
  {
    p.1 < q.1 || (p.1 == q.1 && p.0 < q.0)
  }

  lemma {:induction false} RowsFromLength<T>(g: Grid<T>, y0: nat)
    requires g.Valid() && y0 <= g.height
    ensures |RowsFrom(g, y0)| == (g.height - y0) * g.width
    decreases g.height - y0
  {
    if y0 < g.height {
      RowsFromLength(g, y0 + 1);
      assert (g.height - y0) * g.width == g.width + (g.height - (y0 + 1)) * g.width;
    }
  }

  lemma {:induction false} RowsFromIndex<T>(g: Grid<T>, y0: nat, x: int, y: int)
    requires g.Valid() && y0 <= y < g.height && 0 <= x < g.width
    ensures 0 <= (y - y0) * g.width + x < |RowsFrom(g, y0)|
    ensures RowsFrom(g, y0)[(y - y0) * g.width + x] == ((x, y), g.entries[y][x])
    decreases g.height - y0
  {
    RowsFromLength(g, y0);
    RowsFromLength(g, y0 + 1);
    if y > y0 {
      RowsFromIndex(g, y0 + 1, x, y);
      assert (y - y0) * g.width + x == g.width + ((y - (y0 + 1)) * g.width + x);
    }
  }

  lemma {:induction false} RowsFromOrdered<T>(g: Grid<T>, y0: nat)
    requires g.Valid() && y0 <= g.height
    ensures forall i | 0 <= i < |RowsFrom(g, y0)| :: y0 <= RowsFrom(g, y0)[i].0.1
    ensures forall i, j | 0 <= i < j < |RowsFrom(g, y0)| :: Precedes(RowsFrom(g, y0)[i].0, RowsFrom(g, y0)[j].0)
    decreases g.height - y0
  {
    if y0 < g.height {
      RowsFromOrdered(g, y0 + 1);
      var row: seq<((int, int), T)>, rest: seq<((int, int), T)> := Row(g, y0), RowsFrom(g, y0 + 1);
      var all: seq<((int, int), T)> := row + rest;
      assert RowsFrom(g, y0) == all;
      forall i, j | 0 <= i < j < |all|
        ensures Precedes(all[i].0, all[j].0)
      {
        if j >= |row| && i >= |row| {
          assert all[i] == rest[i - |row|] && all[j] == rest[j - |row|];
        }
      }
    }
  }

  /** Row-major iteration yields every cell exactly once: the list has one entry per
      cell, the entry for (x, y) sits at y * width + x, and positions strictly
      increase in row-major order, so none repeats. */
  lemma RowMajorExactlyOnce<T>(g: Grid<T>)
    requires g.Valid()
    ensures |RowMajor(g)| == g.width * g.height
    ensures forall x, y | g.InRange(x, y) ::
              0 <= y * g.width + x < |RowMajor(g)| && RowMajor(g)[y * g.width + x] == ((x, y), g.entries[y][x])
    ensures forall i, j | 0 <= i < j < |RowMajor(g)| :: Precedes(RowMajor(g)[i].0, RowMajor(g)[j].0)
  {
    RowsFromLength(g, 0);
    RowsFromOrdered(g, 0);
    RowMajorIndex(g);
  }

  lemma RowMajorIndex<T>(g: Grid<T>)
    requires g.Valid()
    ensures forall x, y | g.InRange(x, y) ::
              0 <= y * g.width + x < |RowMajor(g)| && RowMajor(g)[y * g.width + x] == ((x, y), g.entries[y][x])
  {
    forall x, y | g.InRange(x, y)
      ensures 0 <= y * g.width + x < |RowMajor(g)| && RowMajor(g)[y * g.width + x] == ((x, y), g.entries[y][x])
    {
      RowsFromIndex(g, 0, x, y);
    }
  }

  /** What one step of an iterator gives: an item, the end, or the panic of an
      out-of-range index. */
  datatype Cursor<T> = Yield(position: (int, int), value: T) | End | Panic

  /** `GridIter`: a cursor (x, y) over the cells. */
  class GridIter<T> {
    const grid: Grid<T>
    var x: nat
    var y: nat

    ghost predicate Valid()
      reads this
    {
      grid.Valid() && (grid.width > 0 ==> x <= grid.width)
    }

    /** How many cells lie before the cursor in row-major order. */
    ghost function Position(): int
      reads this
    {
      y * grid.width + x
    }

    constructor (grid: Grid<T>)
      requires grid.Valid()
      ensures Valid() && this.grid == grid && x == 0 && y == 0
    {
      this.grid := grid;
      x := 0;
      y := 0;
    }

    /** `next`: the cell at the cursor, in row-major order. On a grid of width zero
        the cursor moves down a row per call and, above the last row, indexes a
        cell that does not exist. */
    method Next() returns (r: Cursor<T>)
      requires Valid()
      modifies this
      ensures Valid()
      ensures grid.width > 0 && old(Position()) < |RowMajor(grid)| ==>
                r == Yield(RowMajor(grid)[old(Position())].0, RowMajor(grid)[old(Position())].1)
                && Position() == old(Position()) + 1
      ensures grid.width > 0 && old(Position()) >= |RowMajor(grid)| ==> r == End && Position() >= |RowMajor(grid)|
      ensures grid.width == 0 ==> r == if old(y) + 1 >= grid.height then End else Panic
    {
      ghost var p0 := Position();
      if x >= grid.width {
        NextRowStart(x, y, grid.width);
        x := 0;
        y := y + 1;
      }
      if y >= grid.height {
        CursorPast(grid, x, y);
        return End;
      }
      if !grid.Addressable(x, y) {
        return Panic;
      }
      CursorCell(grid, x, y);
      r := Yield((x, y), At(grid, x, y));
      x := x + 1;
    }
  }

  /** A cursor at the end of row `y` stands where the next row starts. */
  lemma NextRowStart(x: int, y: int, w: nat)
    requires w > 0 ==> x <= w
    requires x >= w
    ensures w > 0 ==> (y + 1) * w + 0 == y * w + x
  {
    assert (y + 1) * w == y * w + w;
  }

  /** A cursor below the last row is past every cell. */
  lemma CursorPast<T>(g: Grid<T>, x: nat, y: nat)
    requires g.Valid() && y >= g.height
    ensures y * g.width + x >= |RowMajor(g)|
  {
    RowsFromLength(g, 0);
    MulMono(g.height, y, g.width);
  }

  /** The cursor on a cell is that cell's row-major position. */
  lemma CursorCell<T>(g: Grid<T>, x: int, y: int)
    requires g.Valid() && g.InRange(x, y)
    ensures 0 <= y * g.width + x < |RowMajor(g)|
    ensures RowMajor(g)[y * g.width + x] == ((x, y), At(g, x, y))
  {
    RowsFromIndex(g, 0, x, y);
    WrappedAgreesInRange(g, x, y);
  }

  // ---------------------------------------------------------------------------
  // Neighbourhoods

  /** `GRID_NEIGHBOR_ORDER`: the eight offsets, row by row. */
  const NEIGHBOR_ORDER: seq<(int, int)> := [(-1, -1), (0, -1), (1, -1), (-1, 0), (1, 0), (-1, 1), (0, 1), (1, 1)]

  /** `1 << i` for the eight bit positions of a `u8`. */
  function BitOf(i: nat): bv8
    requires i < 8
  {
    match i
    case 0 => 1
    case 1 => 2
    case 2 => 4
    case 3 => 8
    case 4 => 16
    case 5 => 32
    case 6 => 64
    case _ => 128
  }

  predicate Bit(mask: bv8, i: nat)
    requires i < 8
  {
    mask & BitOf(i) != 0
  }

  lemma FlipBit(mask: bv8, i: nat)
    requires i < 8
    ensures forall j | 0 <= j < 8 :: Bit(mask ^ BitOf(i), j) <==> if i == j then !Bit(mask, j) else Bit(mask, j)
  {
  }

  /** The i-th neighbour of (x, y). */
  function Neighbor(x: int, y: int, i: nat): (int, int)
    requires i < 8
  {
    (x + NEIGHBOR_ORDER[i].0, y + NEIGHBOR_ORDER[i].1)
  }

  /** `neighbors8` lists the i-th neighbour iff the grid wraps or it is in range. */
  predicate Listed8<T>(g: Grid<T>, x: int, y: int, i: nat)
    requires i < 8
  {
    g.wrapping || g.InRange(Neighbor(x, y, i).0, Neighbor(x, y, i).1)
  }

  /** `neighbors4` lists it iff it is an orthogonal neighbour and `neighbors8` would. */
  predicate Listed4<T>(g: Grid<T>, x: int, y: int, i: nat)
    requires i < 8
  {
    Abs(NEIGHBOR_ORDER[i].0) + Abs(NEIGHBOR_ORDER[i].1) != 2 && Listed8(g, x, y, i)
  }

  /** The `relevant` mask of `neighbors8`: bits of out-of-range neighbours are
      cleared unless the grid wraps. */
  method Mask8<T>(g: Grid<T>, x: int, y: int) returns (relevant: bv8)
    ensures forall i | 0 <= i < 8 :: Bit(relevant, i) <==> Listed8(g, x, y, i)
  {
    relevant := 0xFF;
    if !g.wrapping {
      for i := 0 to 8
        invariant forall j | 0 <= j < 8 :: Bit(relevant, j) <==> (j >= i || Listed8(g, x, y, j))
      {
        var (nx, ny) := Neighbor(x, y, i);
        ghost var before := relevant;
        if nx < 0 || ny < 0 || nx >= g.width || ny >= g.height {
          FlipBit(relevant, i);
          relevant := relevant ^ BitOf(i);
          assert forall j | 0 <= j < 8 :: Bit(relevant, j) <==> if i == j then !Bit(before, j) else Bit(before, j);
        }
      }
    }
  }

  /** The `relevant` mask of `neighbors4`: diagonal bits are always cleared, the
      others as in `neighbors8`. */
  method Mask4<T>(g: Grid<T>, x: int, y: int) returns (relevant: bv8)
    ensures forall i | 0 <= i < 8 :: Bit(relevant, i) <==> Listed4(g, x, y, i)
  {
    relevant := 0xFF;
    for i := 0 to 8
      invariant forall j | 0 <= j < 8 :: Bit(relevant, j) <==> (j >= i || Listed4(g, x, y, j))
    {
      var (dx, dy) := NEIGHBOR_ORDER[i];
      ghost var before := relevant;
      if Abs(dx) + Abs(dy) == 2 {
        FlipBit(relevant, i);
        relevant := relevant ^ BitOf(i);
        assert forall j | 0 <= j < 8 :: Bit(relevant, j) <==> if i == j then !Bit(before, j) else Bit(before, j);
        continue;
      }
      var (nx, ny) := (x + dx, y + dy);
      if !g.wrapping {
        if nx < 0 || ny < 0 || nx >= g.width || ny >= g.height {
          FlipBit(relevant, i);
          relevant := relevant ^ BitOf(i);
          assert forall j | 0 <= j < 8 :: Bit(relevant, j) <==> if i == j then !Bit(before, j) else Bit(before, j);
        }
      }
    }
  }

  /** Every neighbour a mask lists can be indexed. */
  predicate MaskAddressable<T>(g: Grid<T>, x: int, y: int, mask: bv8)
  {
    g.Valid() && forall i | 0 <= i < 8 :: Bit(mask, i) ==> g.Addressable(Neighbor(x, y, i).0, Neighbor(x, y, i).1)
  }

  /** The neighbours listed by `mask` from offset index `from` on, with their cells. */
  function NeighborsFrom<T>(g: Grid<T>, x: int, y: int, mask: bv8, from: nat): seq<((int, int), T)>
    requires MaskAddressable(g, x, y, mask) && from <= 8
    decreases 8 - from
  {
    if from == 8 then []
    else
      var (nx, ny) := Neighbor(x, y, from);
      (if Bit(mask, from) then [((nx, ny), At(g, nx, ny))] else []) + NeighborsFrom(g, x, y, mask, from + 1)
  }

  /** `GridNeighborsIter`: walks the offsets in order and yields those whose bit is
      set. */
  class GridNeighborsIter<T> {
    const grid: Grid<T>
    const x: int
    const y: int
    var current: nat
    const relevant: bv8

    ghost predicate Valid()
      reads this
    {
      MaskAddressable(grid, x, y, relevant) && current <= 8
    }

    /** What the iterator has yet to yield. */
    ghost function Remaining(): seq<((int, int), T)>
      reads this
      requires Valid()
    {
      NeighborsFrom(grid, x, y, relevant, current)
    }

    constructor (grid: Grid<T>, x: int, y: int, relevant: bv8)
      requires MaskAddressable(grid, x, y, relevant)
      ensures Valid() && this.grid == grid && this.x == x && this.y == y && this.relevant == relevant
      ensures Remaining() == NeighborsFrom(grid, x, y, relevant, 0)
    {
      this.grid := grid;
      this.x := x;
      this.y := y;
      this.relevant := relevant;
      current := 0;
    }

    /** `next`: skips cleared bits, then yields the neighbour and its cell. */
    method Next() returns (r: Option<((int, int), T)>)
      requires Valid()
      modifies this
      ensures Valid()
      ensures old(Remaining()) == [] ==> r.None? && Remaining() == []
      ensures old(Remaining()) != [] ==> r == Some(old(Remaining())[0]) && Remaining() == old(Remaining())[1..]
    {
      while current < 8 && !Bit(relevant, current)
        invariant Valid()
        invariant Remaining() == old(Remaining())
      {
        current := current + 1;
      }
      if current >= 8 {
        return None;
      }
      var (nx, ny) := Neighbor(x, y, current);
      r := Some(((nx, ny), At(grid, nx, ny)));
      current := current + 1;
    }
  }

  /** `neighbors8`: an iterator over the in-range neighbours, or all eight when the
      grid wraps. */
  method Neighbors8<T>(g: Grid<T>, x: int, y: int) returns (it: GridNeighborsIter<T>)
    requires g.Valid() && (g.wrapping ==> g.width > 0 && g.height > 0)
    ensures fresh(it) && it.Valid() && it.grid == g && it.x == x && it.y == y
    ensures forall i | 0 <= i < 8 :: Bit(it.relevant, i) <==> Listed8(g, x, y, i)
    ensures it.Remaining() == NeighborsFrom(g, x, y, it.relevant, 0)
  {
    var relevant := Mask8(g, x, y);
    it := new GridNeighborsIter(g, x, y, relevant);
  }

  /** `neighbors4`: the same, restricted to the four orthogonal neighbours. */
  method Neighbors4<T>(g: Grid<T>, x: int, y: int) returns (it: GridNeighborsIter<T>)
    requires g.Valid() && (g.wrapping ==> g.width > 0 && g.height > 0)
    ensures fresh(it) && it.Valid() && it.grid == g && it.x == x && it.y == y
    ensures forall i | 0 <= i < 8 :: Bit(it.relevant, i) <==> Listed4(g, x, y, i)
    ensures it.Remaining() == NeighborsFrom(g, x, y, it.relevant, 0)
  {
    var relevant := Mask4(g, x, y);
    it := new GridNeighborsIter(g, x, y, relevant);
  }

  /** Every offset moves one step orthogonally or one step diagonally. */
  lemma OffsetNorm(i: nat)
    requires i < 8
    ensures 1 <= Abs(NEIGHBOR_ORDER[i].0) + Abs(NEIGHBOR_ORDER[i].1) <= 2
  {
  }

  predicate Orthogonal(p: (int, int), x: int, y: int)
  {
    Abs(p.0 - x) + Abs(p.1 - y) == 1
  }

  /** `neighbors4` yields only orthogonal neighbours. */
  lemma {:induction false} Neighbors4Orthogonal<T>(g: Grid<T>, x: int, y: int, mask: bv8, from: nat)
    requires MaskAddressable(g, x, y, mask) && from <= 8
    requires forall i | 0 <= i < 8 :: Bit(mask, i) ==> Listed4(g, x, y, i)
    ensures forall item | item in NeighborsFrom(g, x, y, mask, from) :: Orthogonal(item.0, x, y)
    decreases 8 - from
  {
    if from < 8 {
      Neighbors4Orthogonal(g, x, y, mask, from + 1);
      OffsetNorm(from);
      var (nx, ny) := Neighbor(x, y, from);
      var head: seq<((int, int), T)> := if Bit(mask, from) then [((nx, ny), At(g, nx, ny))] else [];
      assert NeighborsFrom(g, x, y, mask, from) == head + NeighborsFrom(g, x, y, mask, from + 1);
    }
  }

  /** Around a cell whose four orthogonal neighbours exist, `neighbors4` keeps the
      orthogonal offsets 1, 3, 4 and 6 and drops the diagonal ones. */
  lemma FourBits<T>(g: Grid<T>, x: int, y: int, mask: bv8)
    requires forall i | 0 <= i < 8 :: Bit(mask, i) <==> Listed4(g, x, y, i)
    requires if g.wrapping then g.width > 0 && g.height > 0 else 1 <= x < g.width - 1 && 1 <= y < g.height - 1
    ensures !Bit(mask, 0) && Bit(mask, 1) && !Bit(mask, 2) && Bit(mask, 3)
    ensures Bit(mask, 4) && !Bit(mask, 5) && Bit(mask, 6) && !Bit(mask, 7)
  {
    assert Listed4(g, x, y, 1) && Listed4(g, x, y, 3) && Listed4(g, x, y, 4) && Listed4(g, x, y, 6);
  }

  /** Around a cell whose four orthogonal neighbours exist, `neighbors4` yields them
      in the order up, left, right, down. */
  lemma Neighbors4Order<T>(g: Grid<T>, x: int, y: int, mask: bv8)
    requires MaskAddressable(g, x, y, mask)
    requires forall i | 0 <= i < 8 :: Bit(mask, i) <==> Listed4(g, x, y, i)
    requires if g.wrapping then g.width > 0 && g.height > 0 else 1 <= x < g.width - 1 && 1 <= y < g.height - 1
    ensures NeighborsFrom(g, x, y, mask, 0)
         == [((x, y - 1), At(g, x, y - 1)), ((x - 1, y), At(g, x - 1, y)),
             ((x + 1, y), At(g, x + 1, y)), ((x, y + 1), At(g, x, y + 1))]
  {
    FourBits(g, x, y, mask);
    FourListed(g, x, y, mask);
  }

  /** `Neighbors4Order` once the mask is known bit by bit. */
  lemma FourListed<T>(g: Grid<T>, x: int, y: int, mask: bv8)
    requires MaskAddressable(g, x, y, mask)
    requires !Bit(mask, 0) && Bit(mask, 1) && !Bit(mask, 2) && Bit(mask, 3)
    requires Bit(mask, 4) && !Bit(mask, 5) && Bit(mask, 6) && !Bit(mask, 7)
    ensures NeighborsFrom(g, x, y, mask, 0)
         == [((x, y - 1), At(g, x, y - 1)), ((x - 1, y), At(g, x - 1, y)),
             ((x + 1, y), At(g, x + 1, y)), ((x, y + 1), At(g, x, y + 1))]
  {
    assert NeighborsFrom(g, x, y, mask, 7) == [];
    assert NeighborsFrom(g, x, y, mask, 6) == [((x, y + 1), At(g, x, y + 1))];
    assert NeighborsFrom(g, x, y, mask, 5) == NeighborsFrom(g, x, y, mask, 6);
    assert NeighborsFrom(g, x, y, mask, 4) == [((x + 1, y), At(g, x + 1, y))] + NeighborsFrom(g, x, y, mask, 5);
    assert NeighborsFrom(g, x, y, mask, 3) == [((x - 1, y), At(g, x - 1, y))] + NeighborsFrom(g, x, y, mask, 4);
    assert NeighborsFrom(g, x, y, mask, 2) == NeighborsFrom(g, x, y, mask, 3);
    assert NeighborsFrom(g, x, y, mask, 1) == [((x, y - 1), At(g, x, y - 1))] + NeighborsFrom(g, x, y, mask, 2);
    assert NeighborsFrom(g, x, y, mask, 0) == NeighborsFrom(g, x, y, mask, 1);
  }
}
