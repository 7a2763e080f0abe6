/**
 * Year 2023, day 17: a crucible crosses a city of blocks from the top-left to
 * the bottom-right corner, losing each entered block's heat; it must go straight
 * at least `lo + 1` and at most `hi` blocks before turning.  This module holds
 * the loss tables' update rule and the walks it bounds.
 */
module Y2023Day17Spec {
  import opened Common

  /** `u32::MAX`: an unreachable entry. */
  const U32_MAX: nat := 0xFFFF_FFFF

  /** A `u32` value. */
  type U32 = v: nat | v <= U32_MAX

  datatype Direction = N | E | S | W

  /** The table a direction's entries are kept in (`direction as usize`). */
  function Layer(d: Direction): (i: nat)
    ensures i < 4 && DirOf(i) == d
  {
    match d
    case N => 0
    case E => 1
    case S => 2
    case W => 3
  }

  function DirOf(i: nat): Direction
    requires i < 4
  {
    if i == 0 then N else if i == 1 then E else if i == 2 then S else W
  }

  /** The step a move in direction `d` takes, y growing downwards; the source's
      offset to the previous cell is its negation. */
  function Forward(d: Direction): (int, int)
  {
    match d
    case N => (0, -1)
    case S => (0, 1)
    case W => (-1, 0)
    case E => (1, 0)
  }

  /** The directions a move in `d` may turn from (`vert_dirs`). */
  function Turns(d: Direction): (Direction, Direction)
  {
    if d == N || d == S then (E, W) else (N, S)
  }

  predicate TurnsFrom(d: Direction, e: Direction)
  {
    e == Turns(d).0 || e == Turns(d).1
  }

  /** `saturating_add` on `u32` operands. */
  function SatAdd(a: U32, b: U32): (r: U32)
    ensures r <= a + b
    ensures r == a + b || r == U32_MAX
  {
    if a + b > U32_MAX then U32_MAX else a + b
  }

  /** Saturating addition is monotone, and an unreachable entry stays unreachable. */
  lemma SatAddMono(a: U32, a': U32, b: U32)
    requires a <= a'
    ensures SatAdd(a, b) <= SatAdd(a', b)
    ensures SatAdd(U32_MAX, b) == U32_MAX
  {
  }

  /** The city: rows of block costs. */
  type Blocks = seq<seq<U32>>

  /** The loss table matches the city: four directions, `Length1` runs, one entry
      per block. */
  predicate Fits(a: array4<U32>, blocks: Blocks)
  {
    a.Length0 == 4 && |blocks| == a.Length2 && forall y | 0 <= y < |blocks| :: |blocks[y]| == a.Length3
  }

  /** An entry of the tables: arriving at (x, y) by a move in `d`, the `s`+1-th
      move in a row in that direction. */
  datatype State = State(d: Direction, s: nat, x: int, y: int)

  predicate OnTable(a: array4<U32>, st: State)
  {
    st.s < a.Length1 && 0 <= st.y < a.Length2 && 0 <= st.x < a.Length3
  }

  function At(a: array4<U32>, st: State): U32
    requires a.Length0 == 4 && OnTable(a, st)
    reads a
  {
    a[Layer(st.d), st.s, st.y, st.x]
  }

  function MinOpt(p: Option<U32>, q: Option<U32>): (r: Option<U32>)
    ensures r.Some? <==> p.Some? || q.Some?
    ensures p.Some? ==> r.value <= p.value
    ensures q.Some? ==> r.value <= q.value
    ensures r.Some? ==> r == p || r == q
  {
    if p.None? then q else if q.None? then p else if q.value < p.value then q else p
  }

  function ValueOr(o: Option<U32>, v: U32): U32
  {
    if o.Some? then o.value else v
  }

  /** The least entry of direction `d` at (x, y) over runs `lo` to `s` - 1: `None` off
      the grid (`get` fails) or for no runs. */
  function RunMin(a: array4<U32>, d: Direction, lo: nat, s: nat, x: int, y: int): (r: Option<U32>)
    requires a.Length0 == 4 && s <= a.Length1
    reads a
    decreases s
  {
    if s <= lo || !(0 <= y < a.Length2 && 0 <= x < a.Length3) then None
    else MinOpt(RunMin(a, d, lo, s - 1, x, y), Some(a[Layer(d), s - 1, y, x]))
  }

  /** The run minimum exists exactly for a cell on the grid and some run; it is no
      larger than any of those runs' entries and equal to one of them. */
  lemma {:induction false} RunMinBelow(a: array4<U32>, d: Direction, lo: nat, s: nat, x: int, y: int)
    requires a.Length0 == 4 && s <= a.Length1
    ensures RunMin(a, d, lo, s, x, y).Some? <==> lo < s && 0 <= y < a.Length2 && 0 <= x < a.Length3
    ensures RunMin(a, d, lo, s, x, y).Some? ==>
      (forall t | lo <= t < s :: RunMin(a, d, lo, s, x, y).value <= a[Layer(d), t, y, x])
      && exists t | lo <= t < s :: RunMin(a, d, lo, s, x, y).value == a[Layer(d), t, y, x]
    decreases s
  {
    if s > lo && 0 <= y < a.Length2 && 0 <= x < a.Length3 {
      RunMinBelow(a, d, lo, s - 1, x, y);
      var r := RunMin(a, d, lo, s, x, y).value;
      if RunMin(a, d, lo, s - 1, x, y).Some? && RunMin(a, d, lo, s, x, y) == RunMin(a, d, lo, s - 1, x, y) {
        var t :| lo <= t < s - 1 && r == a[Layer(d), t, y, x];
      } else {
        assert r == a[Layer(d), s - 1, y, x];
      }
    }
  }

  /** The best entry a move in `d` can turn from at (x, y): the perpendicular
      directions, runs `lo` to the last. */
  function TurnMin(a: array4<U32>, d: Direction, lo: nat, x: int, y: int): Option<U32>
    requires a.Length0 == 4
    reads a
  {
    MinOpt(RunMin(a, Turns(d).0, lo, a.Length1, x, y), RunMin(a, Turns(d).1, lo, a.Length1, x, y))
  }

  /** The entry a state can get in one relaxation (`res`): from the previous cell,
      the same direction's previous run when `s` > 0, else the best turn; `u32::MAX`
      when there is none; plus this block's cost, saturating. */
  function Candidate(a: array4<U32>, blocks: Blocks, lo: nat, st: State): U32
    requires Fits(a, blocks) && OnTable(a, st)
    reads a
  {
    var (px, py) := (st.x - Forward(st.d).0, st.y - Forward(st.d).1);
    var before :=
      if st.s > 0 then
        (if 0 <= py < a.Length2 && 0 <= px < a.Length3 then Some(a[Layer(st.d), st.s - 1, py, px]) else None)
      else TurnMin(a, st.d, lo, px, py);
    SatAdd(ValueOr(before, U32_MAX), blocks[st.y][st.x])
  }

  /** A state no relaxation can lower. */
  ghost predicate Ok(a: array4<U32>, blocks: Blocks, lo: nat, st: State)
    requires Fits(a, blocks) && OnTable(a, st)
    reads a
  {
    At(a, st) <= Candidate(a, blocks, lo, st)
  }

  /** The first `k` directions at (x, y), run `s`, are settled. */
  ghost predicate CellDone(a: array4<U32>, blocks: Blocks, lo: nat, s: nat, x: int, y: int, k: nat)
    requires Fits(a, blocks) && s < a.Length1 && 0 <= y < a.Length2 && 0 <= x < a.Length3
    reads a
  {
    forall i | 0 <= i < k && i < 4 :: Ok(a, blocks, lo, State(DirOf(i), s, x, y))
  }

  /** The first `k` cells of row `y`, run `s`, are settled. */
  ghost predicate RowDone(a: array4<U32>, blocks: Blocks, lo: nat, s: nat, y: int, k: nat)
    requires Fits(a, blocks) && s < a.Length1 && 0 <= y < a.Length2
    reads a
  {
    forall x | 0 <= x < k && x < a.Length3 :: CellDone(a, blocks, lo, s, x, y, 4)
  }

  lemma RowDoneGrow(a: array4<U32>, blocks: Blocks, lo: nat, s: nat, y: int, x: nat)
    requires Fits(a, blocks) && s < a.Length1 && 0 <= y < a.Length2 && x < a.Length3
    requires RowDone(a, blocks, lo, s, y, x) && CellDone(a, blocks, lo, s, x, y, 4)
    ensures RowDone(a, blocks, lo, s, y, x + 1)
  {
  }

  /** The first `k` rows of run `s` are settled. */
  ghost predicate LayerDone(a: array4<U32>, blocks: Blocks, lo: nat, s: nat, k: nat)
    requires Fits(a, blocks) && s < a.Length1
    reads a
  {
    forall y | 0 <= y < k && y < a.Length2 :: RowDone(a, blocks, lo, s, y, a.Length3)
  }

  lemma LayerDoneGrow(a: array4<U32>, blocks: Blocks, lo: nat, s: nat, y: nat)
    requires Fits(a, blocks) && s < a.Length1 && y < a.Length2
    requires LayerDone(a, blocks, lo, s, y) && RowDone(a, blocks, lo, s, y, a.Length3)
    ensures LayerDone(a, blocks, lo, s, y + 1)
  {
  }

  /** The first `k` runs are settled. */
  ghost predicate PassDone(a: array4<U32>, blocks: Blocks, lo: nat, k: nat)
    requires Fits(a, blocks)
    reads a
  {
    forall s | 0 <= s < k && s < a.Length1 :: LayerDone(a, blocks, lo, s, a.Length2)
  }

  lemma PassDoneGrow(a: array4<U32>, blocks: Blocks, lo: nat, s: nat)
    requires Fits(a, blocks) && s < a.Length1
    requires PassDone(a, blocks, lo, s) && LayerDone(a, blocks, lo, s, a.Length2)
    ensures PassDone(a, blocks, lo, s + 1)
  {
  }

  /** The tables are a fixpoint of the relaxation: no entry can be lowered. */
  ghost predicate Fixpoint(a: array4<U32>, blocks: Blocks, lo: nat)
    requires Fits(a, blocks)
    reads a
  {
    PassDone(a, blocks, lo, a.Length1)
  }

  lemma FixpointOk(a: array4<U32>, blocks: Blocks, lo: nat, st: State)
    requires Fits(a, blocks) && Fixpoint(a, blocks, lo) && OnTable(a, st)
    ensures Ok(a, blocks, lo, st)
  {
    assert LayerDone(a, blocks, lo, st.s, a.Length2);
    assert RowDone(a, blocks, lo, st.s, st.y, a.Length3);
    assert CellDone(a, blocks, lo, st.s, st.x, st.y, 4);
    assert State(DirOf(Layer(st.d)), st.s, st.x, st.y) == st;
  }

  /** The entries set before the relaxation starts: 0 at the origin for every
      direction at run 0, the first block's cost for the first move south and the
      first move east, `u32::MAX` elsewhere. */
  function Seed(blocks: Blocks, st: State): U32
    requires |blocks| >= 2 && |blocks[0]| >= 2 && |blocks[1]| >= 1
  {
    if st.s == 0 && st.x == 0 && st.y == 0 then 0
    else if st == State(S, 0, 0, 1) then blocks[1][0]
    else if st == State(E, 0, 1, 0) then blocks[0][1]
    else U32_MAX
  }

  /** Every entry is at most its seed. */
  ghost predicate Seeded(a: array4<U32>, blocks: Blocks)
    requires Fits(a, blocks) && a.Length2 >= 2 && a.Length3 >= 2
    reads a
  {
    forall st | OnTable(a, st) :: At(a, st) <= Seed(blocks, st)
  }

  // ---------------------------------------------------------------------------
  // Termination: the potential of the tables

  /** The pairs (entry, value) with value below the entry; lowering an entry removes
      pairs and adds none, so the set shrinks with every change. */
  ghost function Potential(a: array4<U32>): set<(int, int, int, int, int)>
    reads a
  {
    set i, s, y, x, v | 0 <= i < a.Length0 && 0 <= s < a.Length1 && 0 <= y < a.Length2 && 0 <= x < a.Length3
                        && 0 <= v < a[i, s, y, x] :: (i, s, y, x, v)
  }

  lemma PotentialIff(a: array4<U32>)
    ensures forall e: (int, int, int, int, int) :: e in Potential(a) <==>
      0 <= e.0 < a.Length0 && 0 <= e.1 < a.Length1 && 0 <= e.2 < a.Length2 && 0 <= e.3 < a.Length3
      && 0 <= e.4 < a[e.0, e.1, e.2, e.3]
  {
  }

  lemma ProperSubsetCard<T>(A: set<T>, B: set<T>)
    requires A < B
    ensures |A| < |B|
  {
    assert B == A + (B - A);
    assert B - A != {};
  }

  // ---------------------------------------------------------------------------
  // Walks

  /** A block of the city. */
  predicate InCity(blocks: Blocks, st: State)
  {
    0 <= st.y < |blocks| && 0 <= st.x < |blocks[st.y]|
  }

  /** A legal move of the crucible from `st` to `nx`: one step in `nx.d`, either
      going on straight (the run grows by one, staying below `hi`) or turning from
      a run of at least `lo`. */
  predicate Move(blocks: Blocks, lo: nat, hi: nat, st: State, nx: State)
  {
    InCity(blocks, st) && InCity(blocks, nx) && st.s < hi && nx.s < hi
    && nx.x == st.x + Forward(nx.d).0 && nx.y == st.y + Forward(nx.d).1
    && ((nx.d == st.d && nx.s == st.s + 1) || (TurnsFrom(nx.d, st.d) && nx.s == 0 && lo <= st.s))
  }

  /** A route of the crucible through the city, from any state. */
  ghost predicate Walk(blocks: Blocks, lo: nat, hi: nat, p: seq<State>)
  {
    |p| > 0
    && (forall i | 0 <= i < |p| :: InCity(blocks, p[i]) && p[i].s < hi)
    && forall i | 0 <= i < |p| - 1 :: Move(blocks, lo, hi, p[i], p[i + 1])
  }

  /** A walk's last state is the bottom-right block, after a run of at least `lo`. */
  predicate Finishes(blocks: Blocks, lo: nat, st: State)
  {
    |blocks| > 0 && st.y == |blocks| - 1 && st.x == |blocks[|blocks| - 1]| - 1 && lo <= st.s
  }

  /** The heat lost along a walk: its first state's seed (`u32::MAX` unless it is
      seeded), plus each entered block's cost, saturating. */
  function WalkCost(blocks: Blocks, p: seq<State>): U32
    requires |blocks| >= 2 && |blocks[0]| >= 2 && |blocks[1]| >= 1
    requires forall i | 0 <= i < |p| :: InCity(blocks, p[i])
    requires |p| > 0
  {
    if |p| == 1 then Seed(blocks, p[0])
    else
      var last := p[|p| - 1];
      assert InCity(blocks, last);
      SatAdd(WalkCost(blocks, p[..|p| - 1]), blocks[last.y][last.x])
  }

  /** A walk extended by one move is a walk, and it loses the entered block's heat
      on top of the walk's. */
  lemma Extend(blocks: Blocks, lo: nat, hi: nat, q: seq<State>, nx: State)
    requires |blocks| >= 2 && |blocks[0]| >= 2 && |blocks[1]| >= 1
    requires Walk(blocks, lo, hi, q) && Move(blocks, lo, hi, q[|q| - 1], nx)
    ensures Walk(blocks, lo, hi, q + [nx])
    ensures WalkCost(blocks, q + [nx]) == SatAdd(WalkCost(blocks, q), blocks[nx.y][nx.x])
  {
    var p := q + [nx];
    assert p[..|p| - 1] == q;
    forall i | 0 <= i < |p| - 1
      ensures Move(blocks, lo, hi, p[i], p[i + 1])
    {
      if i < |q| - 1 {
        assert p[i] == q[i] && p[i + 1] == q[i + 1];
      }
    }
  }

  /** A value is realised at `st` when it is `u32::MAX` or the heat lost along some
      walk ending in `st`. */
  ghost predicate RealisedAt(blocks: Blocks, lo: nat, hi: nat, st: State, v: U32)
    requires |blocks| >= 2 && |blocks[0]| >= 2 && |blocks[1]| >= 1
  {
    v < U32_MAX ==> exists p | Walk(blocks, lo, hi, p) && p[|p| - 1] == st :: WalkCost(blocks, p) == v
  }

  /** The tables never claim too much: every entry is at most its seed and is
      realised by a walk. */
  ghost predicate Honest(a: array4<U32>, blocks: Blocks, lo: nat)
    requires Fits(a, blocks) && a.Length2 >= 2 && a.Length3 >= 2
    reads a
  {
    forall st | OnTable(a, st) :: At(a, st) <= Seed(blocks, st) && RealisedAt(blocks, lo, a.Length1, st, At(a, st))
  }

  /** The seeded tables are honest: each finite seed is the heat lost along the
      one-state walk. */
  lemma SeedHonest(a: array4<U32>, blocks: Blocks, lo: nat)
    requires Fits(a, blocks) && a.Length2 >= 2 && a.Length3 >= 2
    requires forall st | OnTable(a, st) :: At(a, st) == Seed(blocks, st)
    ensures Honest(a, blocks, lo)
  {
    forall st | OnTable(a, st)
      ensures RealisedAt(blocks, lo, a.Length1, st, At(a, st))
    {
      var p := [st];
      assert Walk(blocks, lo, a.Length1, p) && p[|p| - 1] == st;
    }
  }

  /** In honest tables every candidate is realised: the walk to the entry it
      extends, plus one move. */
  lemma CandidateRealised(a: array4<U32>, blocks: Blocks, lo: nat, st: State)
    requires Fits(a, blocks) && a.Length2 >= 2 && a.Length3 >= 2 && OnTable(a, st)
    requires Honest(a, blocks, lo)
    ensures RealisedAt(blocks, lo, a.Length1, st, Candidate(a, blocks, lo, st))
  {
    if Candidate(a, blocks, lo, st) < U32_MAX {
      var prev := CandidateSource(a, blocks, lo, st);
      var q :| Walk(blocks, lo, a.Length1, q) && q[|q| - 1] == prev && WalkCost(blocks, q) == At(a, prev);
      Extend(blocks, lo, a.Length1, q, st);
      assert (q + [st])[|q|] == st;
    }
  }

  /** A finite candidate comes from an entry one move back. */
  lemma CandidateSource(a: array4<U32>, blocks: Blocks, lo: nat, st: State) returns (prev: State)
    requires Fits(a, blocks) && OnTable(a, st) && Candidate(a, blocks, lo, st) < U32_MAX
    ensures OnTable(a, prev) && Move(blocks, lo, a.Length1, prev, st)
    ensures Candidate(a, blocks, lo, st) == SatAdd(At(a, prev), blocks[st.y][st.x])
  {
    var (px, py) := (st.x - Forward(st.d).0, st.y - Forward(st.d).1);
    if st.s > 0 {
      prev := State(st.d, st.s - 1, px, py);
    } else {
      var t := Turns(st.d);
      RunMinBelow(a, t.0, lo, a.Length1, px, py);
      RunMinBelow(a, t.1, lo, a.Length1, px, py);
      var m := TurnMin(a, st.d, lo, px, py);
      var e := if m == RunMin(a, t.0, lo, a.Length1, px, py) then t.0 else t.1;
      var r :| lo <= r < a.Length1 && m.value == a[Layer(e), r, py, px];
      prev := State(e, r, px, py);
    }
  }

  /** One move bounds the candidate of the state it reaches. */
  lemma CandidateBelowMove(a: array4<U32>, blocks: Blocks, lo: nat, st: State, nx: State)
    requires Fits(a, blocks) && Move(blocks, lo, a.Length1, st, nx)
    ensures OnTable(a, st) && OnTable(a, nx)
    ensures Candidate(a, blocks, lo, nx) <= SatAdd(At(a, st), blocks[nx.y][nx.x])
  {
    if nx.s == 0 {
      var t := Turns(nx.d);
      RunMinBelow(a, t.0, lo, a.Length1, st.x, st.y);
      RunMinBelow(a, t.1, lo, a.Length1, st.x, st.y);
      var m := TurnMin(a, nx.d, lo, st.x, st.y);
      assert m.Some? && m.value <= At(a, st);
      SatAddMono(m.value, At(a, st), blocks[nx.y][nx.x]);
    }
  }

  /** At a fixpoint below the seeds, every entry is at most the heat lost along any
      walk ending in it: the tables hold lower bounds of every legal route. */
  lemma {:induction false} FixpointBelowWalks(a: array4<U32>, blocks: Blocks, lo: nat, p: seq<State>)
    requires Fits(a, blocks) && a.Length2 >= 2 && a.Length3 >= 2
    requires Fixpoint(a, blocks, lo) && Seeded(a, blocks) && Walk(blocks, lo, a.Length1, p)
    ensures forall i | 0 <= i < |p| :: OnTable(a, p[i]) && InCity(blocks, p[i])
    ensures At(a, p[|p| - 1]) <= WalkCost(blocks, p)
  {
    if |p| > 1 {
      var q := p[..|p| - 1];
      assert Walk(blocks, lo, a.Length1, q) by {
        forall i | 0 <= i < |q| - 1
          ensures Move(blocks, lo, a.Length1, q[i], q[i + 1])
        {
          assert q[i] == p[i] && q[i + 1] == p[i + 1];
        }
      }
      FixpointBelowWalks(a, blocks, lo, q);
      var st, nx := p[|p| - 2], p[|p| - 1];
      assert Move(blocks, lo, a.Length1, st, nx);
      FixpointOk(a, blocks, lo, nx);
      assert At(a, st) <= WalkCost(blocks, q);
      CandidateBelowMove(a, blocks, lo, st, nx);
      SatAddMono(At(a, st), WalkCost(blocks, q), blocks[nx.y][nx.x]);
    }
  }

  /** The answer: the least entry at the bottom-right block over all directions and
      runs `lo` to the last (`min`, `None` without runs). */
  function TargetMin(a: array4<U32>, lo: nat): Option<U32>
    requires a.Length0 == 4
    reads a
  {
    var (tx, ty) := (a.Length3 - 1, a.Length2 - 1);
    MinOpt(MinOpt(RunMin(a, N, lo, a.Length1, tx, ty), RunMin(a, E, lo, a.Length1, tx, ty)),
           MinOpt(RunMin(a, S, lo, a.Length1, tx, ty), RunMin(a, W, lo, a.Length1, tx, ty)))
  }

  /** The answer is the least bottom-right entry over runs `lo..`: no such entry is
      smaller and one of them equals it. */
  lemma TargetMinIsMin(a: array4<U32>, lo: nat)
    requires a.Length0 == 4 && lo < a.Length1 && a.Length2 > 0 && a.Length3 > 0
    ensures TargetMin(a, lo).Some?
    ensures forall st | OnTable(a, st) && st.x == a.Length3 - 1 && st.y == a.Length2 - 1 && lo <= st.s ::
      TargetMin(a, lo).value <= At(a, st)
    ensures exists st | OnTable(a, st) && st.x == a.Length3 - 1 && st.y == a.Length2 - 1 && lo <= st.s ::
      TargetMin(a, lo).value == At(a, st)
  {
    var (tx, ty) := (a.Length3 - 1, a.Length2 - 1);
    RunMinBelow(a, N, lo, a.Length1, tx, ty);
    RunMinBelow(a, E, lo, a.Length1, tx, ty);
    RunMinBelow(a, S, lo, a.Length1, tx, ty);
    RunMinBelow(a, W, lo, a.Length1, tx, ty);
    var m := TargetMin(a, lo).value;
    var d: Direction :| RunMin(a, d, lo, a.Length1, tx, ty) == Some(m);
    var t :| lo <= t < a.Length1 && m == a[Layer(d), t, ty, tx];
    assert At(a, State(d, t, tx, ty)) == m;
  }
}

/**
 * Year 2023, day 17: the relaxation itself.  The loss tables start from the
 * seeds and are lowered pass after pass, in the source's loop order, until a
 * pass changes nothing; the answer is the least bottom-right entry.
 */
module Y2023Day17 {
  import opened Common
  import opened Y2023Day17Spec

  /** The tables before the first pass: every entry its seed. */
  method Start(blocks: Blocks, w: nat, hi: nat) returns (a: array4<U32>)
    requires |blocks| >= 2 && w >= 2 && hi >= 1 && forall y | 0 <= y < |blocks| :: |blocks[y]| == w
    ensures fresh(a) && Fits(a, blocks) && a.Length1 == hi && a.Length2 == |blocks| && a.Length3 == w
    ensures forall st | OnTable(a, st) :: At(a, st) == Seed(blocks, st)
  {
    a := new U32[4, hi, |blocks|, w]((_, _, _, _) => U32_MAX);
    a[0, 0, 0, 0] := 0;
    a[1, 0, 0, 0] := 0;
    a[2, 0, 0, 0] := 0;
    a[3, 0, 0, 0] := 0;
    a[Layer(S), 0, 1, 0] := blocks[1][0];
    a[Layer(E), 0, 0, 1] := blocks[0][1];
  }

  /** One update: the state's entry is lowered to its candidate when that is
      smaller.  The tables stay honest; lowering shrinks the potential, and
      otherwise nothing changes and the state is settled. */
  method Relax(a: array4<U32>, blocks: Blocks, lo: nat, st: State) returns (lowered: bool)
    requires Fits(a, blocks) && a.Length2 >= 2 && a.Length3 >= 2 && OnTable(a, st)
    requires Honest(a, blocks, lo)
    modifies a
    ensures Honest(a, blocks, lo)
    ensures Potential(a) <= old(Potential(a))
    ensures lowered <==> old(Candidate(a, blocks, lo, st)) < old(At(a, st))
    ensures lowered ==> At(a, st) == old(Candidate(a, blocks, lo, st)) && Potential(a) < old(Potential(a))
    ensures forall t | OnTable(a, t) && t != st :: At(a, t) == old(At(a, t))
    ensures !lowered ==> unchanged(a) && Ok(a, blocks, lo, st)
  {
    var res := Candidate(a, blocks, lo, st);
    lowered := false;
    if res < a[Layer(st.d), st.s, st.y, st.x] {
      ghost var P0 := Potential(a);
      PotentialIff(a);
      CandidateRealised(a, blocks, lo, st);
      a[Layer(st.d), st.s, st.y, st.x] := res;
      lowered := true;
      PotentialIff(a);
      assert (Layer(st.d), st.s, st.y, st.x, res as int) in P0 - Potential(a);
      forall t | OnTable(a, t)
        ensures At(a, t) <= Seed(blocks, t) && RealisedAt(blocks, lo, a.Length1, t, At(a, t))
      {
        if t != st {
          assert At(a, t) == old(At(a, t));
        }
      }
    }
  }

  /** The four directions of one cell, run `s`. */
  method RelaxCell(a: array4<U32>, blocks: Blocks, lo: nat, s: nat, x: nat, y: nat) returns (changed: bool)
    requires Fits(a, blocks) && a.Length2 >= 2 && a.Length3 >= 2
    requires s < a.Length1 && y < a.Length2 && x < a.Length3
    requires Honest(a, blocks, lo)
    modifies a
    ensures Honest(a, blocks, lo)
    ensures Potential(a) <= old(Potential(a))
    ensures changed ==> Potential(a) < old(Potential(a))
    ensures !changed ==> unchanged(a) && CellDone(a, blocks, lo, s, x, y, 4)
    ensures forall t | OnTable(a, t) :: At(a, t) <= old(At(a, t))
    ensures forall t | OnTable(a, t) && (t.s != s || t.x != x || t.y != y) :: At(a, t) == old(At(a, t))
  {
    changed := false;
    for i := 0 to 4
      invariant Honest(a, blocks, lo)
      invariant Potential(a) <= old(Potential(a))
      invariant changed ==> Potential(a) < old(Potential(a))
      invariant !changed ==> unchanged(a) && CellDone(a, blocks, lo, s, x, y, i)
      invariant forall t | OnTable(a, t) :: At(a, t) <= old(At(a, t))
      invariant forall t | OnTable(a, t) && (t.s != s || t.x != x || t.y != y) :: At(a, t) == old(At(a, t))
    {
      var lowered := Relax(a, blocks, lo, State(DirOf(i), s, x, y));
      changed := changed || lowered;
    }
  }

  /** Every cell of row `y`, run `s`, left to right. */
  method RelaxRow(a: array4<U32>, blocks: Blocks, lo: nat, s: nat, y: nat) returns (changed: bool)
    requires Fits(a, blocks) && a.Length2 >= 2 && a.Length3 >= 2
    requires s < a.Length1 && y < a.Length2
    requires Honest(a, blocks, lo)
    modifies a
    ensures Honest(a, blocks, lo)
    ensures Potential(a) <= old(Potential(a))
    ensures changed ==> Potential(a) < old(Potential(a))
    ensures !changed ==> unchanged(a) && RowDone(a, blocks, lo, s, y, a.Length3)
    ensures forall t | OnTable(a, t) :: At(a, t) <= old(At(a, t))
    ensures forall t | OnTable(a, t) && (t.s != s || t.y != y) :: At(a, t) == old(At(a, t))
  {
    changed := false;
    for x := 0 to a.Length3
      invariant Honest(a, blocks, lo)
      invariant Potential(a) <= old(Potential(a))
      invariant changed ==> Potential(a) < old(Potential(a))
      invariant !changed ==> unchanged(a) && RowDone(a, blocks, lo, s, y, x)
      invariant forall t | OnTable(a, t) :: At(a, t) <= old(At(a, t))
      invariant forall t | OnTable(a, t) && (t.s != s || t.y != y) :: At(a, t) == old(At(a, t))
    {
      var c := RelaxCell(a, blocks, lo, s, x, y);
      if !changed && !c {
        assert RowDone(a, blocks, lo, s, y, x);
        RowDoneGrow(a, blocks, lo, s, y, x);
      }
      changed := changed || c;
    }
  }

  /** Every row of run `s`, top to bottom. */
  method RelaxLayer(a: array4<U32>, blocks: Blocks, lo: nat, s: nat) returns (changed: bool)
    requires Fits(a, blocks) && a.Length2 >= 2 && a.Length3 >= 2 && s < a.Length1
    requires Honest(a, blocks, lo)
    modifies a
    ensures Honest(a, blocks, lo)
    ensures Potential(a) <= old(Potential(a))
    ensures changed ==> Potential(a) < old(Potential(a))
    ensures !changed ==> unchanged(a) && LayerDone(a, blocks, lo, s, a.Length2)
    ensures forall t | OnTable(a, t) :: At(a, t) <= old(At(a, t))
    ensures forall t | OnTable(a, t) && t.s != s :: At(a, t) == old(At(a, t))
  {
    changed := false;
    for y := 0 to a.Length2
      invariant Honest(a, blocks, lo)
      invariant Potential(a) <= old(Potential(a))
      invariant changed ==> Potential(a) < old(Potential(a))
      invariant !changed ==> unchanged(a) && LayerDone(a, blocks, lo, s, y)
      invariant forall t | OnTable(a, t) :: At(a, t) <= old(At(a, t))
      invariant forall t | OnTable(a, t) && t.s != s :: At(a, t) == old(At(a, t))
    {
      var c := RelaxRow(a, blocks, lo, s, y);
      if !changed && !c {
        assert LayerDone(a, blocks, lo, s, y);
        LayerDoneGrow(a, blocks, lo, s, y);
      }
      changed := changed || c;
    }
  }

  /** One pass over every run; a pass that changes nothing leaves a fixpoint. */
  method Pass(a: array4<U32>, blocks: Blocks, lo: nat) returns (changed: bool)
    requires Fits(a, blocks) && a.Length2 >= 2 && a.Length3 >= 2
    requires Honest(a, blocks, lo)
    modifies a
    ensures Honest(a, blocks, lo)
    ensures changed ==> Potential(a) < old(Potential(a))
    ensures !changed ==> unchanged(a) && Fixpoint(a, blocks, lo)
    ensures forall t | OnTable(a, t) :: At(a, t) <= old(At(a, t))
  {
    changed := false;
    for s := 0 to a.Length1
      invariant Honest(a, blocks, lo)
      invariant Potential(a) <= old(Potential(a))
      invariant changed ==> Potential(a) < old(Potential(a))
      invariant !changed ==> unchanged(a) && PassDone(a, blocks, lo, s)
      invariant forall t | OnTable(a, t) :: At(a, t) <= old(At(a, t))
    {
      var c := RelaxLayer(a, blocks, lo, s);
      if !changed && !c {
        assert PassDone(a, blocks, lo, s);
        PassDoneGrow(a, blocks, lo, s);
      }
      changed := changed || c;
    }
  }

  /** `loss::<lo, hi>`: the least heat a crucible can lose from the top-left to the
      bottom-right block, turning only after a run of more than `lo` and never going
      more than `hi` blocks straight.  No walk finishing there loses less, and
      unless the answer is `u32::MAX` some walk loses exactly that much. */
  method Loss(blocks: Blocks, w: nat, lo: nat, hi: nat) returns (r: U32)
    requires |blocks| >= 2 && w >= 2 && lo < hi && forall y | 0 <= y < |blocks| :: |blocks[y]| == w
    ensures forall p | Walk(blocks, lo, hi, p) && Finishes(blocks, lo, p[|p| - 1]) :: r <= WalkCost(blocks, p)
    ensures r < U32_MAX ==> exists p | Walk(blocks, lo, hi, p) && Finishes(blocks, lo, p[|p| - 1]) :: WalkCost(blocks, p) == r
  {
    var a := Start(blocks, w, hi);
    SeedHonest(a, blocks, lo);
    var changed := true;
    while changed
      invariant Fits(a, blocks) && a.Length1 == hi && Honest(a, blocks, lo)
      invariant !changed ==> Fixpoint(a, blocks, lo)
      decreases |Potential(a)| + (if changed then 1 else 0)
    {
      ghost var P := Potential(a);
      changed := Pass(a, blocks, lo);
      if changed {
        ProperSubsetCard(Potential(a), P);
      }
    }
    TargetMinIsMin(a, lo);
    r := TargetMin(a, lo).value;
    forall p | Walk(blocks, lo, hi, p) && Finishes(blocks, lo, p[|p| - 1])
      ensures r <= WalkCost(blocks, p)
    {
      FixpointBelowWalks(a, blocks, lo, p);
    }
    if r < U32_MAX {
      var st :| OnTable(a, st) && st.x == a.Length3 - 1 && st.y == a.Length2 - 1 && lo <= st.s && r == At(a, st);
      assert RealisedAt(blocks, lo, hi, st, r);
    }
  }

  /** Part one: runs of one to three blocks. */
  method PartA(blocks: Blocks, w: nat) returns (r: U32)
    requires |blocks| >= 2 && w >= 2 && forall y | 0 <= y < |blocks| :: |blocks[y]| == w
    ensures forall p | Walk(blocks, 0, 3, p) && Finishes(blocks, 0, p[|p| - 1]) :: r <= WalkCost(blocks, p)
    ensures r < U32_MAX ==> exists p | Walk(blocks, 0, 3, p) && Finishes(blocks, 0, p[|p| - 1]) :: WalkCost(blocks, p) == r
  {
    r := Loss(blocks, w, 0, 3);
  }

  /** Part two: the ultra crucible, runs of four to ten blocks. */
  method PartB(blocks: Blocks, w: nat) returns (r: U32)
    requires |blocks| >= 2 && w >= 2 && forall y | 0 <= y < |blocks| :: |blocks[y]| == w
    ensures forall p | Walk(blocks, 3, 10, p) && Finishes(blocks, 3, p[|p| - 1]) :: r <= WalkCost(blocks, p)
    ensures r < U32_MAX ==> exists p | Walk(blocks, 3, 10, p) && Finishes(blocks, 3, p[|p| - 1]) :: WalkCost(blocks, p) == r
  {
    r := Loss(blocks, w, 3, 10);
  }
}

/**
 * Year 2023, day 17: reading the city, one decimal digit per block.
 */
module Y2023Day17Parse {
  import opened Common
  import opened Y2023Day17Spec

  /** `to_digit(10)`: the value of a decimal digit, `None` for any other character. */
  function DigitOf(c: char): (r: Option<U32>)
    ensures r.Some? <==> '0' <= c <= '9'
    ensures r.Some? ==> r.value < 10 && r.value == (c as int) - ('0' as int)
  {
    if '0' <= c <= '9' then Some((c as int - '0' as int) as U32) else None
  }

  /** The character of a digit value. */
  function DigitChar(v: U32): (c: char)
    requires v < 10
    ensures '0' <= c <= '9'
  {
    (v + '0' as int) as char
  }

  lemma DigitRoundTrip(v: U32)
    requires v < 10
    ensures DigitOf(DigitChar(v)) == Some(v)
  {
  }

  /** One row of blocks: a cost per character, failing on a non-digit. */
  function DigitRow(line: string): (r: Option<seq<U32>>)
    ensures r.Some? <==> forall i | 0 <= i < |line| :: DigitOf(line[i]).Some?
    ensures r.Some? ==> |r.value| == |line| && forall i | 0 <= i < |line| :: DigitOf(line[i]) == Some(r.value[i])
  {
    if line == [] then Some([])
    else
      match (DigitRow(line[..|line| - 1]), DigitOf(line[|line| - 1]))
      case (Some(row), Some(v)) =>
        var r := row + [v];
        assert forall i | 0 <= i < |line| - 1 :: r[i] == row[i];
        Some(r)
      case (None, _) =>
        var front := line[..|line| - 1];
        assert forall i | 0 <= i < |front| :: front[i] == line[i];
        None
      case (_, None) => None
  }

  /** `parse`: one row of blocks per line; `None` where the source's `unwrap` panics. */
  function ParseCity(lines: seq<string>): (r: Option<Blocks>)
    ensures r.Some? <==> forall y, i | 0 <= y < |lines| && 0 <= i < |lines[y]| :: DigitOf(lines[y][i]).Some?
    ensures r.Some? ==> |r.value| == |lines|
    ensures r.Some? ==> forall y | 0 <= y < |lines| ::
      |r.value[y]| == |lines[y]| && forall i | 0 <= i < |lines[y]| :: DigitOf(lines[y][i]) == Some(r.value[y][i])
  {
    if lines == [] then Some([])
    else
      match (ParseCity(lines[..|lines| - 1]), DigitRow(lines[|lines| - 1]))
      case (Some(rows), Some(row)) =>
        var r := rows + [row];
        assert forall y | 0 <= y < |lines| - 1 :: r[y] == rows[y];
        Some(r)
      case (None, _) =>
        var front := lines[..|lines| - 1];
        assert forall y | 0 <= y < |front| :: front[y] == lines[y];
        None
      case (_, None) => None
  }

  /** A city of single-digit blocks as text. */
  function Render(blocks: Blocks): (r: seq<string>)
    requires forall y, x | 0 <= y < |blocks| && 0 <= x < |blocks[y]| :: blocks[y][x] < 10
    ensures |r| == |blocks| && forall y | 0 <= y < |blocks| :: |r[y]| == |blocks[y]|
  {
    seq(|blocks|, y requires 0 <= y < |blocks| => seq(|blocks[y]|, x requires 0 <= x < |blocks[y]| => DigitChar(blocks[y][x])))
  }

  /** Parsing a rendered city gives it back. */
  lemma ParseRender(blocks: Blocks)
    requires forall y, x | 0 <= y < |blocks| && 0 <= x < |blocks[y]| :: blocks[y][x] < 10
    ensures ParseCity(Render(blocks)) == Some(blocks)
  {
    var r := ParseCity(Render(blocks));
    assert r.Some?;
    forall y | 0 <= y < |blocks|
      ensures r.value[y] == blocks[y]
    {
      forall i | 0 <= i < |blocks[y]|
        ensures r.value[y][i] == blocks[y][i]
      {
        DigitRoundTrip(blocks[y][i]);
      }
    }
    assert r.value == blocks;
  }
}
