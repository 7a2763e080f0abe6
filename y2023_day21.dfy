/**
 * Year 2023, day 21: an elf walks one garden plot per step; the set of
 * plots it can stand on after each step is grown step by step from the
 * start, counting the plots until the counts settle into alternation.
 */
module Y2023Day21 {
  import opened Common
  import opened Y2023Day21Counts

  datatype Tile = GardenPlot | Rock | Start

  /** The garden as rows of tiles, each `w` wide. */
  type Garden = seq<seq<Tile>>

  /** A grid of marks: the plots reachable after some number of steps. */
  type Marks = seq<seq<bool>>

  /** A cell as (x, y). */
  type Pos = (int, int)

  predicate Rect<T>(m: seq<seq<T>>, w: nat)
  {
    forall y | 0 <= y < |m| :: |m[y]| == w
  }

  /** A marked cell; nothing outside the grid is marked. */
  predicate Marked(marks: Marks, x: int, y: int)
  {
    0 <= y < |marks| && 0 <= x < |marks[y]| && marks[y][x]
  }

  /** (x, y) is one of the four orthogonal neighbours of (px, py). */
  predicate Adjacent(x: int, y: int, px: int, py: int)
  {
    (x == px && (y == py - 1 || y == py + 1)) || (y == py && (x == px - 1 || x == px + 1))
  }

  /** A cell is reached in one more step when it is not rock and an orthogonal neighbour is marked. */
  predicate Reached(g: Garden, w: nat, marks: Marks, x: int, y: int)
    requires Rect(g, w) && 0 <= y < |g| && 0 <= x < w
  {
    g[y][x] != Rock
    && (Marked(marks, x - 1, y) || Marked(marks, x + 1, y) || Marked(marks, x, y - 1) || Marked(marks, x, y + 1))
  }

  /** The marks after one more step. */
  function Step(g: Garden, w: nat, marks: Marks): (r: Marks)
    requires Rect(g, w)
    ensures |r| == |g| && Rect(r, w)
  {
    seq(|g|, y requires 0 <= y < |g| => seq(w, x requires 0 <= x < w => Reached(g, w, marks, x, y)))
  }

  /** A cell is marked after the step exactly when it is reached from the marks before it. */
  lemma StepCells(g: Garden, w: nat, marks: Marks)
    requires Rect(g, w)
    ensures forall y, x | 0 <= y < |g| && 0 <= x < w :: Step(g, w, marks)[y][x] == Reached(g, w, marks, x, y)
  {
  }

  function Contents(a: array2<bool>): (m: Marks)
    reads a
    ensures |m| == a.Length0 && Rect(m, a.Length1)
  {
    seq(a.Length0, y requires 0 <= y < a.Length0 reads a =>
      seq(a.Length1, x requires 0 <= x < a.Length1 reads a => a[y, x]))
  }

  lemma ContentsCells(a: array2<bool>)
    ensures forall y, x | 0 <= y < a.Length0 && 0 <= x < a.Length1 :: Contents(a)[y][x] == a[y, x]
  {
  }

  lemma SameContents(a: array2<bool>, m: Marks)
    requires |m| == a.Length0 && Rect(m, a.Length1)
    requires forall y, x | 0 <= y < a.Length0 && 0 <= x < a.Length1 :: m[y][x] == a[y, x]
    ensures Contents(a) == m
  {
    var c := Contents(a);
    forall y | 0 <= y < |m|
      ensures c[y] == m[y]
    {
      assert |c[y]| == |m[y]|;
    }
  }

  /** (px, py) comes before the scan position (x, y) in row-major order. */
  predicate Before(px: int, py: int, x: int, y: int)
  {
    py < y || (py == y && px < x)
  }

  predicate Hit(marks: Marks, px: int, py: int, x: int, y: int)
  {
    Marked(marks, px, py) && Before(px, py, x, y)
  }

  /** A cell marked by the marked cells scanned so far. */
  predicate Partial(g: Garden, w: nat, marks: Marks, cx: int, cy: int, x: int, y: int)
    requires Rect(g, w) && 0 <= cy < |g| && 0 <= cx < w
  {
    g[cy][cx] != Rock
    && (Hit(marks, cx - 1, cy, x, y) || Hit(marks, cx + 1, cy, x, y) || Hit(marks, cx, cy - 1, x, y) || Hit(marks, cx, cy + 1, x, y))
  }

  /** Mark the non-rock orthogonal neighbours of (x, y) that lie on the grid. */
  method Spread(g: Garden, out: array2<bool>, x: int, y: int)
    requires Rect(g, out.Length1) && |g| == out.Length0
    modifies out
    ensures forall cy, cx | 0 <= cy < out.Length0 && 0 <= cx < out.Length1 ::
      out[cy, cx] == (old(out[cy, cx]) || (Adjacent(cx, cy, x, y) && g[cy][cx] != Rock))
  {
    var offsets := [(0, -1), (-1, 0), (1, 0), (0, 1)];
    for i := 0 to 4
      invariant forall cy, cx | 0 <= cy < out.Length0 && 0 <= cx < out.Length1 ::
        out[cy, cx] == (old(out[cy, cx]) || (Near(cx, cy, x, y, i) && g[cy][cx] != Rock))
    {
      var (nx, ny) := (x + offsets[i].0, y + offsets[i].1);
      if 0 <= nx < out.Length1 && 0 <= ny < out.Length0 && g[ny][nx] != Rock {
        out[ny, nx] := true;
      }
    }
  }

  /** (x, y) is among the first `i` neighbours of (px, py): up, left, right, down. */
  predicate Near(x: int, y: int, px: int, py: int, i: nat)
  {
    (i > 0 && x == px && y == py - 1) || (i > 1 && x == px - 1 && y == py)
    || (i > 2 && x == px + 1 && y == py) || (i > 3 && x == px && y == py + 1)
  }

  /**
   * `perform_step`: a fresh grid, and for every marked cell its non-rock
   * orthogonal neighbours marked in it.  It holds exactly the cells `Step`
   * describes.
   */
  method PerformStep(g: Garden, positions: array2<bool>) returns (out: array2<bool>)
    requires Rect(g, positions.Length1) && |g| == positions.Length0
    ensures fresh(out) && out.Length0 == positions.Length0 && out.Length1 == positions.Length1
    ensures Contents(out) == Step(g, positions.Length1, Contents(positions))
  {
    var h, w := positions.Length0, positions.Length1;
    ghost var marks := Contents(positions);
    out := new bool[h, w]((_, _) => false);
    for y := 0 to h
      invariant forall cy, cx | 0 <= cy < h && 0 <= cx < w :: out[cy, cx] == Partial(g, w, marks, cx, cy, 0, y)
    {
      ScanRow(g, positions, out, y);
    }
    forall cy, cx | 0 <= cy < h && 0 <= cx < w
      ensures out[cy, cx] == Reached(g, w, marks, cx, cy)
    {
      assert Hit(marks, cx, cy - 1, 0, h) == Marked(marks, cx, cy - 1);
      assert Hit(marks, cx, cy + 1, 0, h) == Marked(marks, cx, cy + 1);
    }
    StepCells(g, w, marks);
    SameContents(out, Step(g, w, marks));
  }

  /** One row of the scan: spread from every marked cell of row `y`. */
  method ScanRow(g: Garden, positions: array2<bool>, out: array2<bool>, y: int)
    requires Rect(g, positions.Length1) && |g| == positions.Length0
    requires out.Length0 == positions.Length0 && out.Length1 == positions.Length1 && out != positions
    requires 0 <= y < positions.Length0
    requires forall cy, cx | 0 <= cy < out.Length0 && 0 <= cx < out.Length1 ::
      out[cy, cx] == Partial(g, out.Length1, Contents(positions), cx, cy, 0, y)
    modifies out
    ensures forall cy, cx | 0 <= cy < out.Length0 && 0 <= cx < out.Length1 ::
      out[cy, cx] == Partial(g, out.Length1, Contents(positions), cx, cy, 0, y + 1)
  {
    var w := positions.Length1;
    ghost var marks := Contents(positions);
    ContentsCells(positions);
    for x := 0 to w
      invariant forall cy, cx | 0 <= cy < out.Length0 && 0 <= cx < w :: out[cy, cx] == Partial(g, w, marks, cx, cy, x, y)
    {
      if positions[y, x] {
        Spread(g, out, x, y);
      }
    }
    RowDone(g, w, marks, y);
  }

  /** Finishing a row's scan is starting the next row's. */
  lemma RowDone(g: Garden, w: nat, marks: Marks, y: int)
    requires Rect(g, w) && Rect(marks, w) && |marks| == |g|
    ensures forall cy, cx | 0 <= cy < |g| && 0 <= cx < w ::
      Partial(g, w, marks, cx, cy, w, y) == Partial(g, w, marks, cx, cy, 0, y + 1)
  {
  }

  /** The number of marked cells. */
  function Population(marks: Marks): nat
  {
    if marks == [] then 0 else Population(marks[..|marks| - 1]) + RowPopulation(marks[|marks| - 1])
  }

  function RowPopulation(row: seq<bool>): nat
  {
    if row == [] then 0 else RowPopulation(row[..|row| - 1]) + (if row[|row| - 1] then 1 else 0)
  }

  /** A row holds at most as many marks as it has cells, and exactly one when one cell is marked. */
  lemma {:induction false} RowPopulationBounds(row: seq<bool>)
    ensures RowPopulation(row) <= |row|
    ensures (forall x | 0 <= x < |row| :: !row[x]) ==> RowPopulation(row) == 0
  {
    if row != [] {
      RowPopulationBounds(row[..|row| - 1]);
    }
  }

  /** The start mark: only the start cell, its coordinates wrapped into the grid. */
  function StartMarks(h: nat, w: nat, start: Pos): (r: Marks)
    requires h > 0 && w > 0
    ensures |r| == h && Rect(r, w)
    ensures forall y, x | 0 <= y < h && 0 <= x < w :: r[y][x] == ((x, y) == (start.0 % w, start.1 % h))
  {
    seq(h, y requires 0 <= y < h => seq(w, x requires 0 <= x < w => (x, y) == (start.0 % w, start.1 % h)))
  }

  /** The marks after `n` steps. */
  function Iterate(g: Garden, w: nat, marks: Marks, n: nat): (r: Marks)
    requires Rect(g, w)
    ensures n > 0 ==> |r| == |g| && Rect(r, w)
    decreases n
  {
    if n == 0 then marks else Iterate(g, w, Step(g, w, marks), n - 1)
  }

  /** One more step after `n` steps is `n + 1` steps. */
  lemma {:induction false} IterateSucc(g: Garden, w: nat, marks: Marks, n: nat)
    requires Rect(g, w)
    ensures Iterate(g, w, marks, n + 1) == Step(g, w, Iterate(g, w, marks, n))
    decreases n
  {
    if n > 0 {
      IterateSucc(g, w, Step(g, w, marks), n - 1);
    }
  }

  /** The number of cells reached after `n` steps from `start`. */
  function CountAt(g: Garden, w: nat, start: Marks, n: nat): nat
    decreases n
  {
    if !Rect(g, w) then 0
    else if n == 0 then Population(start)
    else CountAt(g, w, Step(g, w, start), n - 1)
  }

  /** The count after `n` steps is the population of the marks after `n` steps. */
  lemma {:induction false} CountAtIterate(g: Garden, w: nat, start: Marks, n: nat)
    requires Rect(g, w)
    ensures CountAt(g, w, start, n) == Population(Iterate(g, w, start, n))
    decreases n
  {
    if n > 0 {
      CountAtIterate(g, w, Step(g, w, start), n - 1);
    }
  }

  /** The counts from `start`, as a function of the number of steps. */
  function Counter(g: Garden, w: nat, start: Marks): nat -> nat
  {
    (n: nat) => CountAt(g, w, start, n)
  }

  /** The counts from `start` as a function known only through its values. */
  lemma CountFunction(g: Garden, w: nat, start: Marks) returns (count: nat -> nat)
    ensures forall n: nat {:trigger CountAt(g, w, start, n)} :: count(n) == CountAt(g, w, start, n)
  {
    count := Counter(g, w, start);
  }

  /** One step of the simulation on a fresh grid, and the count of its marks. */
  method Advance(g: Garden, w: nat, ghost marks: Marks, ghost count: nat -> nat, ghost k: nat, pos: array2<bool>)
    returns (next: array2<bool>, c: nat)
    requires Rect(g, w) && pos.Length0 == |g| && pos.Length1 == w
    requires forall n: nat {:trigger CountAt(g, w, marks, n)} :: count(n) == CountAt(g, w, marks, n)
    requires Contents(pos) == Iterate(g, w, marks, k)
    ensures fresh(next) && next.Length0 == |g| && next.Length1 == w
    ensures Contents(next) == Iterate(g, w, marks, k + 1)
    ensures c == count(k + 1)
  {
    IterateSucc(g, w, marks, k);
    next := PerformStep(g, pos);
    c := CountMarks(next);
    CountAtIterate(g, w, marks, k + 1);
  }

  /** A fresh grid holding only the start mark. */
  method StartGrid(h: nat, w: nat, start: Pos) returns (pos: array2<bool>)
    requires h > 0 && w > 0
    ensures fresh(pos) && pos.Length0 == h && pos.Length1 == w
    ensures Contents(pos) == StartMarks(h, w, start)
  {
    pos := new bool[h, w]((_, _) => false);
    pos[start.1 % h, start.0 % w] := true;
    SameContents(pos, StartMarks(h, w, start));
  }

  /** `sim_with_start_pos`: the counts after 0, 1, 2, … steps, until they settle. */
  method SimWithStartPos(g: Garden, w: nat, start: Pos, fuel: nat) returns (res: Option<seq<nat>>)
    requires Rect(g, w) && |g| > 0 && w > 0
    ensures res == Settle(Counter(g, w, StartMarks(|g|, w, start)), 0, [1], fuel)
  {
    var h := |g|;
    ghost var marks := StartMarks(h, w, start);
    var pos := StartGrid(h, w, start);
    var counts: seq<nat> := [1];
    var left := fuel;
    ghost var count := CountFunction(g, w, marks);
    ghost var k: nat := 0;
    ghost var goal := Settle(count, 0, [1], fuel);
    while true
      invariant pos.Length0 == h && pos.Length1 == w
      invariant Contents(pos) == Iterate(g, w, marks, k)
      invariant Pending(count, k, counts, left, goal)
      decreases left
    {
      if left == 0 {
        PendingOut(count, k, counts, goal);
        SettleSame(count, Counter(g, w, marks), 0, [1], fuel);
        return None;
      }
      var c;
      pos, c := Advance(g, w, marks, count, k, pos);
      if |counts| > 1 && counts[|counts| - 2] == c {
        PendingStop(count, k, counts, left, c, goal);
        SettleSame(count, Counter(g, w, marks), 0, [1], fuel);
        return Some(counts);
      }
      PendingNext(count, k, counts, left, c, goal);
      counts := counts + [c];
      left := left - 1;
      k := k + 1;
    }
  }

  /** Counting the marked cells of a grid, row by row. */
  method CountMarks(a: array2<bool>) returns (c: nat)
    ensures c == Population(Contents(a))
  {
    ghost var m := Contents(a);
    ContentsCells(a);
    c := 0;
    for y := 0 to a.Length0
      invariant c == Population(m[..y])
    {
      var r := 0;
      for x := 0 to a.Length1
        invariant r == RowPopulation(m[y][..x])
      {
        assert m[y][..x + 1][..x] == m[y][..x];
        if a[y, x] {
          r := r + 1;
        }
      }
      assert m[y][..a.Length1] == m[y];
      assert m[..y + 1][..y] == m[..y];
      c := c + r;
    }
    assert m[..a.Length0] == m;
  }

  /** A single start mark counts as one reached cell. */
  lemma {:induction false} StartPopulation(h: nat, w: nat, start: Pos)
    requires h > 0 && w > 0
    ensures Population(StartMarks(h, w, start)) == 1
  {
    var m := StartMarks(h, w, start);
    var (sx, sy) := (start.0 % w, start.1 % h);
    forall k | 0 <= k <= h
      ensures Population(m[..k]) == if k > sy then 1 else 0
    {
      PopulationPrefix(m, w, sx, sy, k);
    }
    assert m[..h] == m;
  }

  lemma {:induction false} PopulationPrefix(m: Marks, w: nat, sx: nat, sy: nat, k: nat)
    requires Rect(m, w) && sx < w && sy < |m| && k <= |m|
    requires forall y, x | 0 <= y < |m| && 0 <= x < w :: m[y][x] == ((x, y) == (sx, sy))
    ensures Population(m[..k]) == if k > sy then 1 else 0
  {
    if k > 0 {
      PopulationPrefix(m, w, sx, sy, k - 1);
      assert m[..k][..k - 1] == m[..k - 1];
      assert m[k - 1][..w] == m[k - 1];
      RowPopulationOne(m[k - 1], if k - 1 == sy then sx else w, w);
    }
  }

  /** A row whose only mark is at `sx` (none when `sx` is past its end) holds that many marks. */
  lemma {:induction false} RowPopulationOne(row: seq<bool>, sx: nat, n: nat)
    requires n <= |row| && forall x | 0 <= x < |row| :: row[x] == (x == sx)
    ensures RowPopulation(row[..n]) == if sx < n then 1 else 0
  {
    if n > 0 {
      assert row[..n][..n - 1] == row[..n - 1];
      RowPopulationOne(row, sx, n - 1);
    }
  }

  /**
   * Part a: the count after 64 steps, by `get_c_at_time` over the settled
   * counts; it is the true number of plots reached in 64 steps whenever
   * the counts keep alternating after they settle.
   */
  method PartA(g: Garden, w: nat, start: Pos, fuel: nat) returns (r: Option<nat>)
    requires Rect(g, w) && |g| > 0 && w > 0
    ensures var count := Counter(g, w, StartMarks(|g|, w, start));
      var s := Settle(count, 0, [1], fuel);
      && (s.None? ==> r.None?)
      && (s.Some? ==> r == Some(GetCAtTime(s.value, 64)))
      && (s.Some? && (forall n | n >= |s.value| :: Alternates(count, n)) ==> r == Some(count(64)))
  {
    ghost var marks := StartMarks(|g|, w, start);
    ghost var count := Counter(g, w, marks);
    var counts := SimWithStartPos(g, w, start, fuel);
    if counts.None? {
      return None;
    }
    SettleDescribes(count, [1], fuel);
    StartPopulation(|g|, w, start);
    if forall n | n >= |counts.value| :: Alternates(count, n) {
      GetCAtTimeExact(count, counts.value, 64);
    }
    r := Some(GetCAtTime(counts.value, 64));
  }

  // ---------------------------------------------------------------------
  // Parsing

  /** `.` is a garden plot, `S` the start, `#` rock; any other character is refused. */
  function TileOf(c: char): (r: Option<Tile>)
    ensures r == Some(GardenPlot) <==> c == '.'
    ensures r == Some(Start) <==> c == 'S'
    ensures r == Some(Rock) <==> c == '#'
  {
    match c
    case '.' => Some(GardenPlot)
    case 'S' => Some(Start)
    case '#' => Some(Rock)
    case _ => None
  }

  /** The first start tile in reading order among the first `k` rows, or `None` when there is none. */
  function FirstStart(rows: Garden, k: nat): (r: Option<Pos>)
    requires k <= |rows|
    ensures r.Some? ==> (0 <= r.value.1 < k && 0 <= r.value.0 < |rows[r.value.1]| && rows[r.value.1][r.value.0] == Start
      && (forall y, x | 0 <= y < r.value.1 && 0 <= x < |rows[y]| :: rows[y][x] != Start)
      && (forall x | 0 <= x < r.value.0 :: rows[r.value.1][x] != Start))
    ensures r.None? ==> forall y, x | 0 <= y < k && 0 <= x < |rows[y]| :: rows[y][x] != Start
  {
    if k == 0 then None
    else
      match FirstStart(rows, k - 1)
      case Some(p) => Some(p)
      case None =>
        match FirstInRow(rows[k - 1], |rows[k - 1]|)
        case Some(x) => Some((x, k - 1))
        case None => None
  }

  function FirstInRow(row: seq<Tile>, k: nat): (r: Option<nat>)
    requires k <= |row|
    ensures r.Some? ==> r.value < k && row[r.value] == Start && forall x | 0 <= x < r.value :: row[x] != Start
    ensures r.None? ==> forall x | 0 <= x < k :: row[x] != Start
  {
    if k == 0 then None
    else
      match FirstInRow(row, k - 1)
      case Some(x) => Some(x)
      case None => if row[k - 1] == Start then Some(k - 1) else None
  }

  function TileRow(line: string): (r: Option<seq<Tile>>)
    ensures r.Some? <==> forall i | 0 <= i < |line| :: TileOf(line[i]).Some?
    ensures r.Some? ==> |r.value| == |line| && forall i | 0 <= i < |line| :: TileOf(line[i]) == Some(r.value[i])
  {
    if line == [] then Some([])
    else
      match (TileRow(line[..|line| - 1]), TileOf(line[|line| - 1]))
      case (Some(row), Some(t)) => Some(row + [t])
      case _ => None
  }

  function TileRows(lines: seq<string>): (r: Option<Garden>)
    ensures r.Some? <==> forall y, i | 0 <= y < |lines| && 0 <= i < |lines[y]| :: TileOf(lines[y][i]).Some?
    ensures r.Some? ==> |r.value| == |lines|
    ensures r.Some? ==> forall y | 0 <= y < |lines| :: |r.value[y]| == |lines[y]|
    ensures r.Some? ==> forall y, i | 0 <= y < |lines| && 0 <= i < |lines[y]| :: TileOf(lines[y][i]) == Some(r.value[y][i])
  {
    if lines == [] then Some([])
    else
      match (TileRows(lines[..|lines| - 1]), TileRow(lines[|lines| - 1]))
      case (Some(rows), Some(row)) =>
        var r := rows + [row];
        assert forall y | 0 <= y < |lines| - 1 :: r[y] == rows[y];
        Some(r)
      case (None, _) => None
      case (_, None) => None
  }

  /**
   * Parsing: the tiles, and the first start tile in reading order, which
   * becomes a garden plot.  `None` where the source panics: an unknown
   * character or no start.
   */
  function ParseGarden(lines: seq<string>): (r: Option<(Garden, Pos)>)
    ensures r.Some? ==> var (g, s) := r.value;
      |g| == |lines| && 0 <= s.1 < |lines| && 0 <= s.0 < |lines[s.1]| && lines[s.1][s.0] == 'S'
      && (forall y | 0 <= y < |lines| :: |g[y]| == |lines[y]|)
      && g[s.1][s.0] == GardenPlot
      && (forall y, x | 0 <= y < |lines| && 0 <= x < |lines[y]| && (x, y) != s :: TileOf(lines[y][x]) == Some(g[y][x]))
      && (forall y, x | 0 <= y < s.1 && 0 <= x < |lines[y]| :: lines[y][x] != 'S')
      && (forall x | 0 <= x < s.0 :: lines[s.1][x] != 'S')
    ensures r.None? <==>
      (exists y, i | 0 <= y < |lines| && 0 <= i < |lines[y]| :: TileOf(lines[y][i]).None?)
      || (forall y, x | 0 <= y < |lines| && 0 <= x < |lines[y]| :: lines[y][x] != 'S')
  {
    match TileRows(lines)
    case None => None
    case Some(rows) =>
      match FirstStart(rows, |rows|)
      case None =>
        assert forall y, x | 0 <= y < |lines| && 0 <= x < |lines[y]| :: lines[y][x] != 'S' by {
          forall y, x | 0 <= y < |lines| && 0 <= x < |lines[y]|
            ensures lines[y][x] != 'S'
          {
            assert rows[y][x] != Start;
          }
        }
        None
      case Some(s) => Some((rows[s.1 := rows[s.1][s.0 := GardenPlot]], s))
  }
}
