/**
 * Year 2024, day 10: a topographic map of digit heights.  A hiking trail starts
 * at height 0 and climbs by exactly one per orthogonal step to height 9.  Both
 * parts fill a table from height 9 down to height 0: each cell absorbs the
 * entries of its neighbours one higher.  Part A's entries are the sets of
 * height-9 cells reached, part B's the numbers of trails; this module holds the
 * map, the trails and the table's value.
 */
module Y2024Day10Trails {
  /** The map, one row of heights per line; cells are (row, column) pairs. */
  type Map = seq<seq<nat>>
  type Pos = (int, int)

  /** Every row has `w` cells. */
  predicate Rect(g: Map, w: nat)
  {
    forall x | 0 <= x < |g| :: |g[x]| == w
  }

  predicate InGrid(g: Map, w: nat, p: Pos)
  {
    0 <= p.0 < |g| && 0 <= p.1 < w
  }

  function H(g: Map, w: nat, p: Pos): nat
    requires Rect(g, w) && InGrid(g, w, p)
  {
    g[p.0][p.1]
  }

  /** The four neighbours in the order the loops visit them: up, left, down,
      right. */
  function Nbr(p: Pos, d: nat): Pos
  {
    if d == 0 then (p.0 - 1, p.1)
    else if d == 1 then (p.0, p.1 - 1)
    else if d == 2 then (p.0 + 1, p.1)
    else (p.0, p.1 + 1)
  }

  /** Neighbour `d` is one higher and passes the loop's bound check; the right
      neighbour's column is checked against `yb`. */
  predicate Linked(g: Map, w: nat, yb: nat, p: Pos, d: nat)
    requires Rect(g, w) && yb <= w && InGrid(g, w, p)
    ensures Linked(g, w, yb, p, d) ==> InGrid(g, w, Nbr(p, d)) && H(g, w, Nbr(p, d)) == H(g, w, p) + 1
  {
    var h := g[p.0][p.1];
    if d == 0 then p.0 > 0 && g[p.0 - 1][p.1] == h + 1
    else if d == 1 then p.1 > 0 && g[p.0][p.1 - 1] == h + 1
    else if d == 2 then p.0 + 1 < |g| && g[p.0 + 1][p.1] == h + 1
    else if d == 3 then p.1 + 1 < yb && g[p.0][p.1 + 1] == h + 1
    else false
  }

  /** How far cell `p` is from height 9: what the recursion descends on. */
  function Depth(g: Map, w: nat, p: Pos): nat
    requires Rect(g, w) && InGrid(g, w, p)
  {
    if H(g, w, p) <= 9 then 9 - H(g, w, p) else 0
  }

  /**
   * The table entry of cell `p` once every height from 9 down to its own is
   * done: `unit` at height 9, `zero` above it; below it, `plus` folded from
   * `zero` over the linked neighbours one higher.
   */
  function Value<T>(g: Map, w: nat, yb: nat, zero: T, unit: Pos -> T, plus: (T, T) -> T, p: Pos): T
    requires Rect(g, w) && yb <= w && InGrid(g, w, p)
    decreases Depth(g, w, p), 5
  {
    if H(g, w, p) == 9 then unit(p)
    else if H(g, w, p) > 9 then zero
    else Absorbed(g, w, yb, zero, unit, plus, p, 4)
  }

  /** The entry of `p` after the first `k` neighbour checks. */
  function Absorbed<T>(g: Map, w: nat, yb: nat, zero: T, unit: Pos -> T, plus: (T, T) -> T, p: Pos, k: nat): T
    requires Rect(g, w) && yb <= w && InGrid(g, w, p) && H(g, w, p) < 9 && k <= 4
    decreases Depth(g, w, p), k
  {
    if k == 0 then zero
    else
      var acc := Absorbed(g, w, yb, zero, unit, plus, p, k - 1);
      if Linked(g, w, yb, p, k - 1) then plus(acc, Value(g, w, yb, zero, unit, plus, Nbr(p, k - 1))) else acc
  }

  function Single(p: Pos): set<Pos> { {p} }
  function Union(x: set<Pos>, y: set<Pos>): set<Pos> { x + y }
  function One(p: Pos): nat { 1 }
  function Add(x: nat, y: nat): nat { x + y }

  /** Part A's entry: the height-9 cells reached from (a, b). */
  function Reach(g: Map, w: nat, yb: nat, p: Pos): set<Pos>
    requires Rect(g, w) && yb <= w && InGrid(g, w, p)
  {
    Value(g, w, yb, {}, Single, Union, p)
  }

  /** Part B's entry: the number of trails from (a, b). */
  function Count(g: Map, w: nat, yb: nat, p: Pos): nat
    requires Rect(g, w) && yb <= w && InGrid(g, w, p)
  {
    Value(g, w, yb, 0, One, Add, p)
  }

  // ---------------------------------------------------------------------------
  // Trails

  predicate Adjacent(p: Pos, q: Pos)
  {
    (p.0 == q.0 && (p.1 == q.1 + 1 || q.1 == p.1 + 1)) || (p.1 == q.1 && (p.0 == q.0 + 1 || q.0 == p.0 + 1))
  }

  /** A hiking trail: cells of the map, each step to an orthogonal neighbour
      exactly one higher, ending at height 9. */
  ghost predicate IsTrail(g: Map, w: nat, t: seq<Pos>)
    requires Rect(g, w)
  {
    && |t| > 0
    && (forall i | 0 <= i < |t| :: InGrid(g, w, t[i]))
    && H(g, w, t[|t| - 1]) == 9
    && (forall i | 0 <= i < |t| - 1 :: Adjacent(t[i], t[i + 1]) && H(g, w, t[i + 1]) == H(g, w, t[i]) + 1)
  }

  function Extend(p: Pos, s: set<seq<Pos>>): set<seq<Pos>>
  {
    set t | t in s :: [p] + t
  }

  /** The trails from `p`, built neighbour by neighbour like the table. */
  function Trails(g: Map, w: nat, p: Pos): set<seq<Pos>>
    requires Rect(g, w) && InGrid(g, w, p)
    decreases Depth(g, w, p), 5
  {
    if H(g, w, p) == 9 then {[p]}
    else if H(g, w, p) > 9 then {}
    else TrailsVia(g, w, p, 4)
  }

  /** The trails from `p` whose second cell is one of its first `k` neighbours. */
  function TrailsVia(g: Map, w: nat, p: Pos, k: nat): set<seq<Pos>>
    requires Rect(g, w) && InGrid(g, w, p) && H(g, w, p) < 9 && k <= 4
    decreases Depth(g, w, p), k
  {
    if k == 0 then {}
    else
      TrailsVia(g, w, p, k - 1)
      + (if Linked(g, w, w, p, k - 1) then Extend(p, Trails(g, w, Nbr(p, k - 1))) else {})
  }

  /** Every trail from `p` starts at `p`. */
  lemma TrailsStart(g: Map, w: nat, p: Pos)
    requires Rect(g, w) && InGrid(g, w, p)
    ensures forall t | t in Trails(g, w, p) :: |t| > 0 && t[0] == p
    decreases Depth(g, w, p), 5
  {
    if H(g, w, p) < 9 {
      ViaStart(g, w, p, 4);
    }
  }

  lemma ViaStart(g: Map, w: nat, p: Pos, k: nat)
    requires Rect(g, w) && InGrid(g, w, p) && H(g, w, p) < 9 && k <= 4
    ensures forall t | t in TrailsVia(g, w, p, k) :: |t| > 1 && t[0] == p
    decreases Depth(g, w, p), k
  {
    if k > 0 {
      ViaStart(g, w, p, k - 1);
      if Linked(g, w, w, p, k - 1) {
        TrailsStart(g, w, Nbr(p, k - 1));
      }
    }
  }

  /** The neighbour a trail through `TrailsVia` takes second. */
  lemma ViaWitness(g: Map, w: nat, p: Pos, k: nat, t: seq<Pos>) returns (d: nat)
    requires Rect(g, w) && InGrid(g, w, p) && H(g, w, p) < 9 && k <= 4
    requires t in TrailsVia(g, w, p, k)
    ensures d < k && Linked(g, w, w, p, d)
    ensures |t| > 1 && t[0] == p && t[1] == Nbr(p, d) && t[1..] in Trails(g, w, Nbr(p, d))
  {
    if t in TrailsVia(g, w, p, k - 1) {
      d := ViaWitness(g, w, p, k - 1, t);
    } else {
      d := k - 1;
      var u :| u in Trails(g, w, Nbr(p, d)) && t == [p] + u;
      TrailsStart(g, w, Nbr(p, d));
      assert t[1..] == u;
    }
  }

  lemma ViaContains(g: Map, w: nat, p: Pos, k: nat, d: nat, t: seq<Pos>)
    requires Rect(g, w) && InGrid(g, w, p) && H(g, w, p) < 9 && k <= 4
    requires d < k && Linked(g, w, w, p, d)
    requires |t| > 1 && t[0] == p && t[1..] in Trails(g, w, Nbr(p, d))
    ensures t in TrailsVia(g, w, p, k)
  {
    if d < k - 1 {
      ViaContains(g, w, p, k - 1, d, t);
    } else {
      assert t == [p] + t[1..];
    }
  }

  /** A trail of `n` cells starts at height `10 - n`. */
  lemma {:induction false} TrailLength(g: Map, w: nat, t: seq<Pos>)
    requires Rect(g, w) && IsTrail(g, w, t)
    ensures H(g, w, t[0]) + |t| == 10
    decreases |t|
  {
    if |t| > 1 {
      TrailTail(g, w, t);
      TrailLength(g, w, t[1..]);
    }
  }

  lemma TrailTail(g: Map, w: nat, t: seq<Pos>)
    requires Rect(g, w) && IsTrail(g, w, t) && |t| > 1
    ensures IsTrail(g, w, t[1..])
  {
    forall i | 0 <= i < |t| - 2
      ensures Adjacent(t[1..][i], t[1..][i + 1]) && H(g, w, t[1..][i + 1]) == H(g, w, t[1..][i]) + 1
    {
      assert t[1..][i] == t[i + 1] && t[1..][i + 1] == t[i + 2];
    }
  }

  lemma ConsTrail(g: Map, w: nat, p: Pos, t: seq<Pos>)
    requires Rect(g, w) && InGrid(g, w, p) && IsTrail(g, w, t)
    requires Adjacent(p, t[0]) && H(g, w, t[0]) == H(g, w, p) + 1
    ensures IsTrail(g, w, [p] + t)
  {
    var c := [p] + t;
    forall i | 0 <= i < |c| ensures InGrid(g, w, c[i])
    {
      if i > 0 { assert c[i] == t[i - 1]; }
    }
    forall i | 0 <= i < |c| - 1
      ensures Adjacent(c[i], c[i + 1]) && H(g, w, c[i + 1]) == H(g, w, c[i]) + 1
    {
      if i > 0 { assert c[i] == t[i - 1] && c[i + 1] == t[i]; }
    }
  }

  /** Linked neighbours are orthogonally adjacent. */
  lemma LinkedAdjacent(g: Map, w: nat, p: Pos, d: nat)
    requires Rect(g, w) && InGrid(g, w, p) && Linked(g, w, w, p, d)
    ensures Adjacent(p, Nbr(p, d))
  {
  }

  /** Every in-grid neighbour one higher is one of the four linked ones. */
  lemma NbrOf(g: Map, w: nat, p: Pos, q: Pos) returns (d: nat)
    requires Rect(g, w) && InGrid(g, w, p) && InGrid(g, w, q)
    requires Adjacent(p, q) && H(g, w, q) == H(g, w, p) + 1
    ensures d < 4 && Linked(g, w, w, p, d) && Nbr(p, d) == q
  {
    if q.0 + 1 == p.0 { d := 0; }
    else if q.1 + 1 == p.1 { d := 1; }
    else if q.0 == p.0 + 1 { d := 2; }
    else { d := 3; }
  }

  lemma {:induction false} TrailsSound(g: Map, w: nat, p: Pos, t: seq<Pos>)
    requires Rect(g, w) && InGrid(g, w, p) && t in Trails(g, w, p)
    ensures IsTrail(g, w, t) && t[0] == p
    decreases Depth(g, w, p)
  {
    if H(g, w, p) < 9 {
      var d := ViaWitness(g, w, p, 4, t);
      TrailsSound(g, w, Nbr(p, d), t[1..]);
      LinkedAdjacent(g, w, p, d);
      ConsTrail(g, w, p, t[1..]);
      assert [p] + t[1..] == t;
    }
  }

  lemma {:induction false} TrailsComplete(g: Map, w: nat, p: Pos, t: seq<Pos>)
    requires Rect(g, w) && InGrid(g, w, p) && IsTrail(g, w, t) && t[0] == p
    ensures t in Trails(g, w, p)
    decreases |t|
  {
    TrailLength(g, w, t);
    if |t| == 1 {
      assert t == [p];
    } else {
      var d := NbrOf(g, w, p, t[1]);
      TrailTail(g, w, t);
      TrailsComplete(g, w, t[1], t[1..]);
      ViaContains(g, w, p, 4, d, t);
    }
  }

  /** The trails from `p` are exactly the hiking trails starting there. */
  lemma TrailsExact(g: Map, w: nat, p: Pos, t: seq<Pos>)
    requires Rect(g, w) && InGrid(g, w, p)
    ensures t in Trails(g, w, p) <==> IsTrail(g, w, t) && t[0] == p
  {
    if t in Trails(g, w, p) {
      TrailsSound(g, w, p, t);
    }
    if |t| > 0 && t[0] == p && IsTrail(g, w, t) {
      TrailsComplete(g, w, p, t);
    }
  }

  function Ends(s: set<seq<Pos>>): set<Pos>
  {
    set t | t in s && |t| > 0 :: t[|t| - 1]
  }

  lemma EndsExtend(p: Pos, s: set<seq<Pos>>)
    requires forall t | t in s :: |t| > 0
    ensures Ends(Extend(p, s)) == Ends(s)
  {
    forall e | e in Ends(s) ensures e in Ends(Extend(p, s))
    {
      var t :| t in s && |t| > 0 && t[|t| - 1] == e;
      var c := [p] + t;
      assert c in Extend(p, s) && c[|c| - 1] == e;
    }
  }

  lemma {:induction false} ExtendCard(p: Pos, s: set<seq<Pos>>)
    ensures |Extend(p, s)| == |s|
    decreases |s|
  {
    if s != {} {
      var t :| t in s;
      ExtendCard(p, s - {t});
      assert Extend(p, s) == Extend(p, s - {t}) + {[p] + t};
      forall u | u in s - {t} ensures [p] + u != [p] + t
      {
        assert ([p] + u)[1..] == u && ([p] + t)[1..] == t;
      }
    }
  }

  /** Part A's table entry is the set of ends of the trails from `p`. */
  lemma {:induction false} ReachIsTrailEnds(g: Map, w: nat, p: Pos)
    requires Rect(g, w) && InGrid(g, w, p)
    ensures Reach(g, w, w, p) == Ends(Trails(g, w, p))
    decreases Depth(g, w, p), 5
  {
    if H(g, w, p) < 9 {
      AbsorbedEnds(g, w, p, 4);
    }
  }

  lemma {:induction false} AbsorbedEnds(g: Map, w: nat, p: Pos, k: nat)
    requires Rect(g, w) && InGrid(g, w, p) && H(g, w, p) < 9 && k <= 4
    ensures Absorbed(g, w, w, {}, Single, Union, p, k) == Ends(TrailsVia(g, w, p, k))
    decreases Depth(g, w, p), k
  {
    if k > 0 {
      AbsorbedEnds(g, w, p, k - 1);
      if Linked(g, w, w, p, k - 1) {
        var q := Nbr(p, k - 1);
        ReachIsTrailEnds(g, w, q);
        TrailsStart(g, w, q);
        EndsExtend(p, Trails(g, w, q));
        EndsUnion(TrailsVia(g, w, p, k - 1), Extend(p, Trails(g, w, q)));
      }
    }
  }

  lemma EndsUnion(s: set<seq<Pos>>, s': set<seq<Pos>>)
    ensures Ends(s + s') == Ends(s) + Ends(s')
  {
  }

  /** Part B's table entry is the number of trails from `p`. */
  lemma {:induction false} CountIsTrails(g: Map, w: nat, p: Pos)
    requires Rect(g, w) && InGrid(g, w, p)
    ensures Count(g, w, w, p) == |Trails(g, w, p)|
    decreases Depth(g, w, p), 5
  {
    if H(g, w, p) < 9 {
      AbsorbedCount(g, w, p, 4);
    }
  }

  lemma {:induction false} AbsorbedCount(g: Map, w: nat, p: Pos, k: nat)
    requires Rect(g, w) && InGrid(g, w, p) && H(g, w, p) < 9 && k <= 4
    ensures Absorbed(g, w, w, 0, One, Add, p, k) == |TrailsVia(g, w, p, k)|
    decreases Depth(g, w, p), k
  {
    if k > 0 {
      AbsorbedCount(g, w, p, k - 1);
      if Linked(g, w, w, p, k - 1) {
        var q := Nbr(p, k - 1);
        CountIsTrails(g, w, q);
        LinkedStep(g, w, p, k, q);
      }
    }
  }

  /** One linked neighbour adds its trails, none of which were counted before. */
  lemma LinkedStep(g: Map, w: nat, p: Pos, k: nat, q: Pos)
    requires Rect(g, w) && InGrid(g, w, p) && H(g, w, p) < 9 && 0 < k <= 4
    requires Linked(g, w, w, p, k - 1) && q == Nbr(p, k - 1)
    requires Absorbed(g, w, w, 0, One, Add, p, k - 1) == |TrailsVia(g, w, p, k - 1)|
    requires Count(g, w, w, q) == |Trails(g, w, q)|
    ensures Absorbed(g, w, w, 0, One, Add, p, k) == |TrailsVia(g, w, p, k)|
  {
    var before := TrailsVia(g, w, p, k - 1);
    var added := Extend(p, Trails(g, w, q));
    assert TrailsVia(g, w, p, k) == before + added;
    var acc: nat := Absorbed(g, w, w, 0, One, Add, p, k - 1);
    assert Absorbed(g, w, w, 0, One, Add, p, k) == Add(acc, Count(g, w, w, q));
    ExtendCard(p, Trails(g, w, q));
    ViaDisjoint(g, w, p, k);
    DisjointCard(before, added);
  }

  lemma DisjointCard<X>(a: set<X>, b: set<X>)
    requires a * b == {}
    ensures |a + b| == |a| + |b|
  {
  }

  /** Trails through different neighbours differ in their second cell. */
  lemma ViaDisjoint(g: Map, w: nat, p: Pos, k: nat)
    requires Rect(g, w) && InGrid(g, w, p) && H(g, w, p) < 9 && 0 < k <= 4
    requires Linked(g, w, w, p, k - 1)
    ensures TrailsVia(g, w, p, k - 1) * Extend(p, Trails(g, w, Nbr(p, k - 1))) == {}
  {
    var q := Nbr(p, k - 1);
    TrailsStart(g, w, q);
    forall t | t in TrailsVia(g, w, p, k - 1) ensures t !in Extend(p, Trails(g, w, q))
    {
      var d := ViaWitness(g, w, p, k - 1, t);
      forall u | u in Trails(g, w, q) ensures t != [p] + u
      {
        assert ([p] + u)[1] == q;
      }
    }
  }
}

/**
 * The solver: the map parsed from digits, the table filled in place height by
 * height, and the entries of the trailheads added up.  `yb` is the bound the
 * right-neighbour check compares the column with; the source uses the number of
 * rows there (see the Findings of README.md), the corrected parts the row width.
 */
module Y2024Day10 {
  import opened Common
  import opened Y2024Day10Trails

  /** `to_digit(10).unwrap()`: a digit's value, `None` where the source panics. */
  function DigitRow(line: string): (r: Option<seq<nat>>)
    ensures r.Some? <==> forall i | 0 <= i < |line| :: '0' <= line[i] <= '9'
    ensures r.Some? ==> |r.value| == |line| && forall i | 0 <= i < |line| :: r.value[i] == line[i] as int - '0' as int
  {
    if line == [] then Some([])
    else if !('0' <= line[|line| - 1] <= '9') then None
    else
      match DigitRow(line[..|line| - 1])
      case None =>
        assert forall i | 0 <= i < |line| - 1 :: line[..|line| - 1][i] == line[i];
        None
      case Some(row) =>
        var r := row + [line[|line| - 1] as int - '0' as int];
        assert forall i | 0 <= i < |line| - 1 :: line[..|line| - 1][i] == line[i] && r[i] == row[i];
        Some(r)
  }

  /** `parse`: a row of heights per line, every height a single digit. */
  function Parse(lines: seq<string>): (r: Option<Map>)
    ensures r.Some? <==> forall x, i | 0 <= x < |lines| && 0 <= i < |lines[x]| :: '0' <= lines[x][i] <= '9'
    ensures r.Some? ==> |r.value| == |lines| && forall x | 0 <= x < |lines| ::
      |r.value[x]| == |lines[x]| && forall i | 0 <= i < |lines[x]| :: r.value[x][i] == lines[x][i] as int - '0' as int
  {
    if lines == [] then Some([])
    else
      match (Parse(lines[..|lines| - 1]), DigitRow(lines[|lines| - 1]))
      case (Some(rows), Some(row)) =>
        var r := rows + [row];
        assert forall x | 0 <= x < |lines| - 1 :: r[x] == rows[x] && lines[..|lines| - 1][x] == lines[x];
        Some(r)
      case (None, _) =>
        assert forall x | 0 <= x < |lines| - 1 :: lines[..|lines| - 1][x] == lines[x];
        None
      case (_, None) => None
  }

  /** Every cell of height at least `i` holds its final entry, every other cell `zero`. */
  ghost predicate Done<T>(t: array2<T>, g: Map, w: nat, yb: nat, zero: T, unit: Pos -> T, plus: (T, T) -> T, i: nat)
    requires Rect(g, w) && yb <= w && t.Length0 == |g| && t.Length1 == w
    reads t
  {
    forall a, b | 0 <= a < |g| && 0 <= b < w ::
      t[a, b] == if g[a][b] >= i then Value(g, w, yb, zero, unit, plus, (a, b)) else zero
  }

  /** Cell (a, b) comes before (x, y) in row-major order. */
  predicate Before(a: int, b: int, x: int, y: int)
  {
    a < x || (a == x && b < y)
  }

  /** Level `i` is done up to (x, y): the cells of height `i` before it hold their
      final entries, every other cell is as `Done(i + 1)` says. */
  ghost predicate LevelUpTo<T>(t: array2<T>, g: Map, w: nat, yb: nat, zero: T, unit: Pos -> T, plus: (T, T) -> T, i: nat, x: nat, y: nat)
    requires Rect(g, w) && yb <= w && t.Length0 == |g| && t.Length1 == w
    reads t
  {
    forall a, b | 0 <= a < |g| && 0 <= b < w ::
      t[a, b] == if g[a][b] > i || (g[a][b] == i && Before(a, b, x, y)) then Value(g, w, yb, zero, unit, plus, (a, b)) else zero
  }

  /** The initial loop: every cell of height 9 holds `unit` of itself. */
  method Seed<T>(g: Map, w: nat, yb: nat, zero: T, unit: Pos -> T, plus: (T, T) -> T) returns (t: array2<T>)
    requires Rect(g, w) && yb <= w
    ensures fresh(t) && t.Length0 == |g| && t.Length1 == w
    ensures Done(t, g, w, yb, zero, unit, plus, 9)
  {
    t := new T[|g|, w]((a, b) => zero);
    for x := 0 to |g|
      invariant forall a, b | 0 <= a < |g| && 0 <= b < w ::
        t[a, b] == if g[a][b] == 9 && a < x then unit((a, b)) else zero
    {
      for y := 0 to w
        invariant forall a, b | 0 <= a < |g| && 0 <= b < w ::
          t[a, b] == if g[a][b] == 9 && Before(a, b, x, y) then unit((a, b)) else zero
      {
        if g[x][y] == 9 {
          t[x, y] := unit((x, y));
        }
      }
    }
  }

  /**
   * One cell of height `h < 9` absorbs its neighbours one higher, in the order
   * up, left, down, right; the right neighbour is checked against `yb`.
   */
  method Absorb<T>(t: array2<T>, g: Map, w: nat, yb: nat, zero: T, unit: Pos -> T, plus: (T, T) -> T, x: nat, y: nat)
    requires Rect(g, w) && yb <= w && t.Length0 == |g| && t.Length1 == w
    requires x < |g| && y < w && g[x][y] < 9 && t[x, y] == zero
    requires forall d | 0 <= d < 4 :: Linked(g, w, yb, (x, y), d) ==>
      t[Nbr((x, y), d).0, Nbr((x, y), d).1] == Value(g, w, yb, zero, unit, plus, Nbr((x, y), d))
    modifies t
    ensures t[x, y] == Value(g, w, yb, zero, unit, plus, (x, y))
    ensures forall a, b | 0 <= a < |g| && 0 <= b < w && (a, b) != (x, y) :: t[a, b] == old(t[a, b])
  {
    var h := g[x][y];
    ghost var p := (x, y);
    if x > 0 && g[x - 1][y] == h + 1 {
      assert Linked(g, w, yb, p, 0);
      t[x, y] := plus(t[x, y], t[x - 1, y]);
    }
    assert t[x, y] == Absorbed(g, w, yb, zero, unit, plus, p, 1);
    if y > 0 && g[x][y - 1] == h + 1 {
      assert Linked(g, w, yb, p, 1);
      t[x, y] := plus(t[x, y], t[x, y - 1]);
    }
    assert t[x, y] == Absorbed(g, w, yb, zero, unit, plus, p, 2);
    if x + 1 < |g| && g[x + 1][y] == h + 1 {
      assert Linked(g, w, yb, p, 2);
      t[x, y] := plus(t[x, y], t[x + 1, y]);
    }
    assert t[x, y] == Absorbed(g, w, yb, zero, unit, plus, p, 3);
    if y + 1 < yb && g[x][y + 1] == h + 1 {
      assert Linked(g, w, yb, p, 3);
      t[x, y] := plus(t[x, y], t[x, y + 1]);
    }
    assert t[x, y] == Absorbed(g, w, yb, zero, unit, plus, p, 4);
  }

  /** One round of the outer loop: every cell of height `i` absorbs its
      neighbours, row by row. */
  method Level<T>(t: array2<T>, g: Map, w: nat, yb: nat, zero: T, unit: Pos -> T, plus: (T, T) -> T, i: nat)
    requires Rect(g, w) && yb <= w && t.Length0 == |g| && t.Length1 == w && i < 9
    requires Done(t, g, w, yb, zero, unit, plus, i + 1)
    modifies t
    ensures Done(t, g, w, yb, zero, unit, plus, i)
  {
    for x := 0 to |g|
      invariant LevelUpTo(t, g, w, yb, zero, unit, plus, i, x, 0)
    {
      for y := 0 to w
        invariant LevelUpTo(t, g, w, yb, zero, unit, plus, i, x, y)
      {
        if g[x][y] == i {
          Absorb(t, g, w, yb, zero, unit, plus, x, y);
        }
      }
    }
  }

  /** Both parts' table: seeded at height 9, then filled for heights 8 down to 0. */
  method Fill<T>(g: Map, w: nat, yb: nat, zero: T, unit: Pos -> T, plus: (T, T) -> T) returns (t: array2<T>)
    requires Rect(g, w) && yb <= w
    ensures fresh(t) && t.Length0 == |g| && t.Length1 == w
    ensures forall a, b | 0 <= a < |g| && 0 <= b < w :: t[a, b] == Value(g, w, yb, zero, unit, plus, (a, b))
  {
    t := Seed(g, w, yb, zero, unit, plus);
    var i := 9;
    while i > 0
      invariant i <= 9 && Done(t, g, w, yb, zero, unit, plus, i)
    {
      i := i - 1;
      Level(t, g, w, yb, zero, unit, plus, i);
    }
  }

  /** The values of `f` at the trailheads (height 0) among the first `y` cells of row `x`. */
  function RowHeads(g: Map, w: nat, f: Pos -> nat, x: nat, y: nat): nat
    requires Rect(g, w) && x < |g| && y <= w
  {
    if y == 0 then 0 else RowHeads(g, w, f, x, y - 1) + (if g[x][y - 1] == 0 then f((x, y - 1)) else 0)
  }

  /** The values of `f` at the trailheads of the first `x` rows. */
  function Heads(g: Map, w: nat, f: Pos -> nat, x: nat): nat
    requires Rect(g, w) && x <= |g|
  {
    if x == 0 then 0 else Heads(g, w, f, x - 1) + RowHeads(g, w, f, x - 1, w)
  }

  /** The final loop: adds the entry sizes of the trailheads in row-major order. */
  method SumHeads<T>(g: Map, w: nat, t: array2<T>, size: T -> nat, ghost f: Pos -> nat) returns (sum: nat)
    requires Rect(g, w) && t.Length0 == |g| && t.Length1 == w
    requires forall a, b | 0 <= a < |g| && 0 <= b < w :: size(t[a, b]) == f((a, b))
    ensures sum == Heads(g, w, f, |g|)
  {
    sum := 0;
    for x := 0 to |g|
      invariant sum == Heads(g, w, f, x)
    {
      for y := 0 to w
        invariant sum == Heads(g, w, f, x) + RowHeads(g, w, f, x, y)
      {
        if g[x][y] == 0 {
          sum := sum + size(t[x, y]);
        }
      }
    }
  }

  /** The size of a part A entry: `r.len()`. */
  function Card(s: set<Pos>): nat { |s| }
  /** A part B entry is its own size. */
  function Id(n: nat): nat { n }

  /** Part A's entry sizes: the number of height-9 cells reached. */
  function Scores(g: Map, w: nat, yb: nat): Pos -> nat
  {
    p => if Rect(g, w) && yb <= w && InGrid(g, w, p) then |Reach(g, w, yb, p)| else 0
  }

  /** Part B's entry sizes: the number of trails counted. */
  function Ratings(g: Map, w: nat, yb: nat): Pos -> nat
  {
    p => if Rect(g, w) && yb <= w && InGrid(g, w, p) then Count(g, w, yb, p) else 0
  }

  /** A trailhead's score: the height-9 cells its hiking trails end at. */
  function TrailEnds(g: Map, w: nat): Pos -> nat
  {
    p => if Rect(g, w) && InGrid(g, w, p) then |Ends(Trails(g, w, p))| else 0
  }

  /** A trailhead's rating: the number of its hiking trails. */
  function TrailCount(g: Map, w: nat): Pos -> nat
  {
    p => if Rect(g, w) && InGrid(g, w, p) then |Trails(g, w, p)| else 0
  }

  /** Sums over the trailheads agree for functions that agree on the map. */
  lemma {:induction false} HeadsAgree(g: Map, w: nat, f: Pos -> nat, f': Pos -> nat, x: nat)
    requires Rect(g, w) && x <= |g|
    requires forall a, b | 0 <= a < |g| && 0 <= b < w :: f((a, b)) == f'((a, b))
    ensures Heads(g, w, f, x) == Heads(g, w, f', x)
  {
    if x > 0 {
      HeadsAgree(g, w, f, f', x - 1);
      RowHeadsAgree(g, w, f, f', x - 1, w);
    }
  }

  lemma {:induction false} RowHeadsAgree(g: Map, w: nat, f: Pos -> nat, f': Pos -> nat, x: nat, y: nat)
    requires Rect(g, w) && x < |g| && y <= w
    requires forall a, b | 0 <= a < |g| && 0 <= b < w :: f((a, b)) == f'((a, b))
    ensures RowHeads(g, w, f, x, y) == RowHeads(g, w, f', x, y)
  {
    if y > 0 {
      RowHeadsAgree(g, w, f, f', x, y - 1);
    }
  }

  /** The row width, taken from the first row. */
  function Width(g: Map): nat
  {
    if |g| == 0 then 0 else |g[0]|
  }

  /** Part A with the right-neighbour check against the row width: the sum over
      the trailheads of the number of height-9 cells their hiking trails reach. */
  method PartA(g: Map) returns (score: nat)
    requires Rect(g, Width(g))
    ensures score == Heads(g, Width(g), TrailEnds(g, Width(g)), |g|)
  {
    var w := Width(g);
    var t := Fill(g, w, w, {}, Single, Union);
    score := SumHeads(g, w, t, Card, Scores(g, w, w));
    forall a, b | 0 <= a < |g| && 0 <= b < w ensures Scores(g, w, w)((a, b)) == TrailEnds(g, w)((a, b))
    {
      ReachIsTrailEnds(g, w, (a, b));
    }
    HeadsAgree(g, w, Scores(g, w, w), TrailEnds(g, w), |g|);
  }

  /** Part B with the corrected check: the sum over the trailheads of the number
      of their hiking trails. */
  method PartB(g: Map) returns (rating: nat)
    requires Rect(g, Width(g))
    ensures rating == Heads(g, Width(g), TrailCount(g, Width(g)), |g|)
  {
    var w := Width(g);
    var t := Fill(g, w, w, 0, One, Add);
    rating := SumHeads(g, w, t, Id, Ratings(g, w, w));
    forall a, b | 0 <= a < |g| && 0 <= b < w ensures Ratings(g, w, w)((a, b)) == TrailCount(g, w)((a, b))
    {
      CountIsTrails(g, w, (a, b));
    }
    HeadsAgree(g, w, Ratings(g, w, w), TrailCount(g, w), |g|);
  }

  /** `part_a` as written: the right neighbour is checked against the number of
      rows, which must not exceed the row width (else the index panics). */
  method PartAAsWritten(g: Map) returns (score: nat)
    requires Rect(g, Width(g)) && |g| <= Width(g)
    ensures score == Heads(g, Width(g), Scores(g, Width(g), |g|), |g|)
  {
    var w := Width(g);
    var t := Fill(g, w, |g|, {}, Single, Union);
    score := SumHeads(g, w, t, Card, Scores(g, w, |g|));
  }

  /** `part_b` as written, with the same check against the number of rows. */
  method PartBAsWritten(g: Map) returns (rating: nat)
    requires Rect(g, Width(g)) && |g| <= Width(g)
    ensures rating == Heads(g, Width(g), Ratings(g, Width(g), |g|), |g|)
  {
    var w := Width(g);
    var t := Fill(g, w, |g|, 0, One, Add);
    rating := SumHeads(g, w, t, Id, Ratings(g, w, |g|));
  }

  /** The one-row map 0123456789. */
  function Ramp(): Map
  {
    [[0, 1, 2, 3, 4, 5, 6, 7, 8, 9]]
  }

  /** Its only trail climbs left to right, so its only trailhead scores 1. */
  lemma RampTrailEnds(g: Map)
    requires g == Ramp()
    ensures Ends(Trails(g, 10, (0, 0))) == {(0, 9)}
  {
    var t := seq(10, i => (0, i));
    RampTrail(g, t);
    TrailsExact(g, 10, (0, 0), t);
    assert t[9] == (0, 9);
    forall e | e in Ends(Trails(g, 10, (0, 0))) ensures e == (0, 9)
    {
      var u :| u in Trails(g, 10, (0, 0)) && |u| > 0 && u[|u| - 1] == e;
      TrailsSound(g, 10, (0, 0), u);
      RampHeights(g);
      assert e.0 == 0 && g[0][e.1] == 9;
    }
  }

  lemma RampHeights(g: Map)
    requires g == Ramp()
    ensures |g| == 1 && |g[0]| == 10 && forall c | 0 <= c < 10 :: g[0][c] == c
  {
    assert g[0] == seq(10, i => i);
  }

  lemma RampTrail(g: Map, t: seq<Pos>)
    requires g == Ramp() && t == seq(10, i => (0, i))
    ensures IsTrail(g, 10, t)
  {
  }

  /**
   * On a map with fewer rows than columns, the check against the number of rows
   * hides the right neighbours of every column from the row count on: the ramp,
   * one row high, scores 0 and rates 0 as written, and 1 and 1 corrected.
   */
  lemma RowCountBound()
    ensures Heads(Ramp(), 10, Scores(Ramp(), 10, 1), 1) == 0
    ensures Heads(Ramp(), 10, Ratings(Ramp(), 10, 1), 1) == 0
    ensures Heads(Ramp(), 10, TrailEnds(Ramp(), 10), 1) == 1
    ensures Heads(Ramp(), 10, TrailCount(Ramp(), 10), 1) == 1
  {
    RampAsWritten(Ramp());
    RampCorrected(Ramp());
  }

  lemma RampAsWritten(g: Map)
    requires g == Ramp()
    ensures Heads(g, 10, Scores(g, 10, 1), 1) == 0
    ensures Heads(g, 10, Ratings(g, 10, 1), 1) == 0
  {
    assert Reach(g, 10, 1, (0, 0)) == Absorbed(g, 10, 1, {}, Single, Union, (0, 0), 4) == {};
    assert Count(g, 10, 1, (0, 0)) == Absorbed(g, 10, 1, 0, One, Add, (0, 0), 4) == 0;
    assert RowHeads(g, 10, Scores(g, 10, 1), 0, 10) == Scores(g, 10, 1)((0, 0));
    assert RowHeads(g, 10, Ratings(g, 10, 1), 0, 10) == Ratings(g, 10, 1)((0, 0));
  }

  lemma RampCorrected(g: Map)
    requires g == Ramp()
    ensures Heads(g, 10, TrailEnds(g, 10), 1) == 1
    ensures Heads(g, 10, TrailCount(g, 10), 1) == 1
  {
    RampTrailEnds(g);
    RampTrails(g);
    assert RowHeads(g, 10, TrailEnds(g, 10), 0, 10) == TrailEnds(g, 10)((0, 0));
    assert RowHeads(g, 10, TrailCount(g, 10), 0, 10) == TrailCount(g, 10)((0, 0));
  }

  /** The ramp has exactly one trail. */
  lemma RampTrails(g: Map)
    requires g == Ramp()
    ensures |Trails(g, 10, (0, 0))| == 1
  {
    var t := seq(10, i => (0, i));
    RampTrail(g, t);
    TrailsExact(g, 10, (0, 0), t);
    forall u | u in Trails(g, 10, (0, 0)) ensures u == t
    {
      TrailsSound(g, 10, (0, 0), u);
      RampClimbs(g, u);
    }
    assert Trails(g, 10, (0, 0)) == {t};
  }

  /** A trail on the ramp from its first cell visits every cell in order. */
  lemma RampClimbs(g: Map, u: seq<Pos>)
    requires g == Ramp() && IsTrail(g, 10, u) && u[0] == (0, 0)
    ensures u == seq(10, i => (0, i))
  {
    TrailLength(g, 10, u);
    forall i | 0 <= i < 10 ensures u[i] == (0, i)
    {
      TrailCell(g, u, i);
    }
  }

  lemma {:induction false} TrailCell(g: Map, u: seq<Pos>, i: nat)
    requires g == Ramp() && IsTrail(g, 10, u) && u[0] == (0, 0) && |u| == 10 && i < 10
    ensures u[i] == (0, i)
  {
    if i > 0 {
      TrailCell(g, u, i - 1);
      assert Adjacent(u[i - 1], u[i]) && H(g, 10, u[i]) == i;
    }
  }
}
