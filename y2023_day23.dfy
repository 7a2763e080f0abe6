/**
 * Year 2023, day 23, the graph side: the condensed map as junctions and
 * corridors, and the depth-first search for the longest walk over it.
 */
module Y2023Day23Graph {
  import opened Common

  /** Edges as (length, destination); each junction lists the edges leaving it. */
  datatype HikingGraph = HikingGraph(paths: seq<(nat, nat)>, junctions: seq<seq<nat>>, start: nat, end: nat)

  /** Every edge leads to a junction and every listed edge exists. */
  predicate Valid(gr: HikingGraph)
  {
    gr.start < |gr.junctions| && gr.end < |gr.junctions|
    && (forall k | 0 <= k < |gr.paths| :: gr.paths[k].1 < |gr.junctions|)
    && (forall j, i | 0 <= j < |gr.junctions| && 0 <= i < |gr.junctions[j]| :: gr.junctions[j][i] < |gr.paths|)
  }

  /** A new edge of length `length` from `from` to `dest`, listed at `from`. */
  function AddPath(gr: HikingGraph, from: nat, length: nat, dest: nat): (r: HikingGraph)
    requires Valid(gr) && from < |gr.junctions| && dest < |gr.junctions|
    ensures Valid(r) && r.start == gr.start && r.end == gr.end && |r.junctions| == |gr.junctions|
    ensures r.paths == gr.paths + [(length, dest)]
    ensures r.junctions[from] == gr.junctions[from] + [|gr.paths|]
    ensures forall j | 0 <= j < |gr.junctions| && j != from :: r.junctions[j] == gr.junctions[j]
  {
    gr.(paths := gr.paths + [(length, dest)], junctions := gr.junctions[from := gr.junctions[from] + [|gr.paths|]])
  }

  /** The edges one traced corridor contributes: forward to `dest`, and backward to `from`. */
  function AddEdges(gr: HikingGraph, from: nat, dest: nat, length: nat, forward: bool, backward: bool): (r: HikingGraph)
    requires Valid(gr) && from < |gr.junctions| && dest < |gr.junctions|
    ensures Valid(r) && r.start == gr.start && r.end == gr.end && |r.junctions| == |gr.junctions|
    ensures r.paths == gr.paths + (if forward then [(length, dest)] else []) + (if backward then [(length, from)] else [])
  {
    var gr' := if forward then AddPath(gr, from, length, dest) else gr;
    if backward then AddPath(gr', dest, length, from) else gr'
  }

  // ---------------------------------------------------------------------
  // The longest walk

  /** How many junctions below `n` are not in `vis`. */
  ghost function Unvisited(n: nat, vis: set<nat>): nat
  {
    if n == 0 then 0 else Unvisited(n - 1, vis) + (if n - 1 in vis then 0 else 1)
  }

  lemma {:induction false} VisitNoMore(n: nat, vis: set<nat>, j: nat)
    ensures Unvisited(n, vis + {j}) <= Unvisited(n, vis)
  {
    if n > 0 {
      var m: nat := n - 1;
      VisitNoMore(m, vis, j);
    }
  }

  /** Visiting a new junction leaves fewer unvisited ones. */
  lemma {:induction false} VisitShrinks(n: nat, vis: set<nat>, j: nat)
    requires j < n && j !in vis
    ensures Unvisited(n, vis + {j}) < Unvisited(n, vis)
  {
    var m: nat := n - 1;
    if j == m {
      VisitNoMore(m, vis, j);
    } else {
      VisitShrinks(m, vis, j);
    }
  }

  /**
   * The largest total reached at the end by the search from junction `j`
   * with `soFar` already walked and the junctions in `vis` on the current
   * walk; 0 when the end is never reached.
   */
  ghost function Best(gr: HikingGraph, vis: set<nat>, soFar: nat, j: nat): nat
    requires Valid(gr) && j < |gr.junctions| && j !in vis
    decreases Unvisited(|gr.junctions|, vis), 0
  {
    VisitShrinks(|gr.junctions|, vis, j);
    Max(if j == gr.end then soFar else 0, BestOver(gr, vis + {j}, soFar, j, |gr.junctions[j]|))
  }

  /** The best over the first `k` edges leaving `j`, skipping edges into visited junctions. */
  ghost function BestOver(gr: HikingGraph, vis: set<nat>, soFar: nat, j: nat, k: nat): nat
    requires Valid(gr) && j < |gr.junctions| && k <= |gr.junctions[j]|
    decreases Unvisited(|gr.junctions|, vis), 1, k
  {
    if k == 0 then 0
    else
      var e := gr.paths[gr.junctions[j][k - 1]];
      Max(BestOver(gr, vis, soFar, j, k - 1), if e.1 in vis then 0 else Best(gr, vis, soFar + e.0, e.1))
  }

  /** The junctions marked in `visited`. */
  ghost function Seen(visited: seq<bool>): set<nat>
  {
    set i | 0 <= i < |visited| && visited[i]
  }

  /**
   * `internal`: the depth-first search from junction `j`.  It raises
   * `maxSoFar` to the best total reached at the end, and leaves `visited`
   * as it found it.
   */
  method Internal(gr: HikingGraph, visited: array<bool>, maxSoFar: nat, soFar: nat, j: nat) returns (m: nat)
    requires Valid(gr) && visited.Length == |gr.junctions| && j < |gr.junctions| && !visited[j]
    modifies visited
    ensures visited[..] == old(visited[..])
    ensures m == Max(maxSoFar, Best(gr, Seen(old(visited[..])), soFar, j))
    decreases Unvisited(|gr.junctions|, Seen(visited[..]))
  {
    ghost var before := visited[..];
    ghost var vis := Seen(before);
    m := if j == gr.end then Max(maxSoFar, soFar) else maxSoFar;
    visited[j] := true;
    assert Seen(visited[..]) == vis + {j};
    VisitShrinks(|gr.junctions|, vis, j);
    var edges := gr.junctions[j];
    for i := 0 to |edges|
      invariant visited[..] == before[j := true]
      invariant m == Max(maxSoFar, Max(if j == gr.end then soFar else 0, BestOver(gr, vis + {j}, soFar, j, i)))
    {
      var (length, dest) := gr.paths[edges[i]];
      assert Seen(visited[..]) == vis + {j};
      ghost var prev := BestOver(gr, vis + {j}, soFar, j, i);
      if !visited[dest] {
        assert dest !in vis + {j};
        ghost var here := Best(gr, vis + {j}, soFar + length, dest);
        assert BestOver(gr, vis + {j}, soFar, j, i + 1) == Max(prev, here);
        m := Internal(gr, visited, m, soFar + length, dest);
        MaxAssoc(maxSoFar, if j == gr.end then soFar else 0, prev, here);
      } else {
        assert dest in vis + {j};
        assert BestOver(gr, vis + {j}, soFar, j, i + 1) == Max(prev, 0);
      }
    }
    visited[j] := false;
    assert visited[..] == before;
  }

  lemma MaxAssoc(a: int, b: int, c: int, d: int)
    ensures Max(Max(a, Max(b, c)), d) == Max(a, Max(b, Max(c, d)))
  {
  }

  /** `longest_path`: the search from the start with nothing visited. */
  method LongestPath(gr: HikingGraph) returns (m: nat)
    requires Valid(gr)
    ensures m == Best(gr, {}, 0, gr.start)
  {
    var visited := new bool[|gr.junctions|](_ => false);
    assert Seen(visited[..]) == {};
    m := Internal(gr, visited, 0, 0, gr.start);
  }

  // ---------------------------------------------------------------------
  // What the search computes

  /** `w` lists edges forming a walk from `j` that visits no junction twice and none in `vis`. */
  ghost predicate IsWalk(gr: HikingGraph, vis: set<nat>, j: nat, w: seq<nat>)
    requires Valid(gr) && j < |gr.junctions|
    decreases |w|
  {
    j !in vis
    && (w != [] ==> w[0] in gr.junctions[j] && w[0] < |gr.paths| && IsWalk(gr, vis + {j}, gr.paths[w[0]].1, w[1..]))
  }

  ghost function WalkEnd(gr: HikingGraph, j: nat, w: seq<nat>): nat
    requires Valid(gr) && j < |gr.junctions|
    decreases |w|
  {
    if w == [] || w[0] >= |gr.paths| then j else WalkEnd(gr, gr.paths[w[0]].1, w[1..])
  }

  ghost function WalkLength(gr: HikingGraph, w: seq<nat>): nat
  {
    if w == [] then 0 else (if w[0] < |gr.paths| then gr.paths[w[0]].0 else 0) + WalkLength(gr, w[1..])
  }

  lemma {:induction false} BestOverMono(gr: HikingGraph, vis: set<nat>, soFar: nat, j: nat, k: nat, k': nat)
    requires Valid(gr) && j < |gr.junctions| && k <= k' <= |gr.junctions[j]|
    ensures BestOver(gr, vis, soFar, j, k) <= BestOver(gr, vis, soFar, j, k')
    decreases k'
  {
    if k < k' {
      BestOverMono(gr, vis, soFar, j, k, k' - 1);
    }
  }

  /** Every walk from `j` that ends at the end is no longer than the search's best. */
  lemma {:induction false} BestBound(gr: HikingGraph, vis: set<nat>, soFar: nat, j: nat, w: seq<nat>)
    requires Valid(gr) && j < |gr.junctions| && IsWalk(gr, vis, j, w) && WalkEnd(gr, j, w) == gr.end
    ensures soFar + WalkLength(gr, w) <= Best(gr, vis, soFar, j)
    decreases |w|
  {
    if w != [] {
      var i :| 0 <= i < |gr.junctions[j]| && gr.junctions[j][i] == w[0];
      var e := gr.paths[w[0]];
      BestBound(gr, vis + {j}, soFar + e.0, e.1, w[1..]);
      BestOverMono(gr, vis + {j}, soFar, j, i + 1, |gr.junctions[j]|);
    }
  }

  /** A positive best over edges is the best through one of them. */
  lemma {:induction false} BestOverWitness(gr: HikingGraph, vis: set<nat>, soFar: nat, j: nat, k: nat)
    requires Valid(gr) && j < |gr.junctions| && k <= |gr.junctions[j]|
    ensures BestOver(gr, vis, soFar, j, k) == 0
      || (exists i | 0 <= i < k :: gr.paths[gr.junctions[j][i]].1 !in vis
            && BestOver(gr, vis, soFar, j, k) == Best(gr, vis, soFar + gr.paths[gr.junctions[j][i]].0, gr.paths[gr.junctions[j][i]].1))
    decreases k
  {
    if k > 0 {
      BestOverWitness(gr, vis, soFar, j, k - 1);
    }
  }

  /** The search's best is 0 or the length of an actual walk from `j` to the end. */
  lemma {:induction false} BestAchieved(gr: HikingGraph, vis: set<nat>, soFar: nat, j: nat)
    requires Valid(gr) && j < |gr.junctions| && j !in vis
    ensures Best(gr, vis, soFar, j) == 0
      || exists w :: IsWalk(gr, vis, j, w) && WalkEnd(gr, j, w) == gr.end && soFar + WalkLength(gr, w) == Best(gr, vis, soFar, j)
    decreases Unvisited(|gr.junctions|, vis)
  {
    var vis' := vis + {j};
    VisitShrinks(|gr.junctions|, vis, j);
    var over := BestOver(gr, vis', soFar, j, |gr.junctions[j]|);
    assert Best(gr, vis, soFar, j) == Max(if j == gr.end then soFar else 0, over);
    if j == gr.end && soFar >= over {
      assert IsWalk(gr, vis, j, []) && WalkEnd(gr, j, []) == j && WalkLength(gr, []) == 0;
    } else if over > 0 {
      BestOverWitness(gr, vis', soFar, j, |gr.junctions[j]|);
      var i :| 0 <= i < |gr.junctions[j]| && gr.paths[gr.junctions[j][i]].1 !in vis'
        && over == Best(gr, vis', soFar + gr.paths[gr.junctions[j][i]].0, gr.paths[gr.junctions[j][i]].1);
      var id := gr.junctions[j][i];
      var e := gr.paths[id];
      BestAchieved(gr, vis', soFar + e.0, e.1);
      var w' :| IsWalk(gr, vis', e.1, w') && WalkEnd(gr, e.1, w') == gr.end && soFar + e.0 + WalkLength(gr, w') == over;
      var w := [id] + w';
      assert w[0] == id && w[1..] == w';
      assert id in gr.junctions[j];
      assert IsWalk(gr, vis, j, w);
      assert WalkEnd(gr, j, w) == WalkEnd(gr, e.1, w');
      assert WalkLength(gr, w) == e.0 + WalkLength(gr, w');
    }
  }



  /** `m` is the length of the longest walk from start to end repeating no junction, or 0 when there is none. */
  ghost predicate LongestWalk(gr: HikingGraph, m: nat)
    requires Valid(gr)
  {
    (forall walk | IsWalk(gr, {}, gr.start, walk) && WalkEnd(gr, gr.start, walk) == gr.end :: WalkLength(gr, walk) <= m)
    && (m == 0 || exists walk :: IsWalk(gr, {}, gr.start, walk) && WalkEnd(gr, gr.start, walk) == gr.end && WalkLength(gr, walk) == m)
  }

  /** What `longest_path` returns is the longest walk. */
  lemma BestIsLongest(gr: HikingGraph)
    requires Valid(gr)
    ensures LongestWalk(gr, Best(gr, {}, 0, gr.start))
  {
    forall walk | IsWalk(gr, {}, gr.start, walk) && WalkEnd(gr, gr.start, walk) == gr.end
      ensures WalkLength(gr, walk) <= Best(gr, {}, 0, gr.start)
    {
      BestBound(gr, {}, 0, gr.start, walk);
    }
    BestAchieved(gr, {}, 0, gr.start);
  }
}

/**
 * Year 2023, day 23, the map side: tiles, neighbours, and `trace_path`,
 * which follows a corridor from cell to cell until it forks, ends or
 * meets a cell already traced.
 */
module Y2023Day23Map {
  datatype Direction = N | E | S | W

  function Offset(d: Direction): (int, int)
  {
    match d
    case N => (0, -1)
    case E => (1, 0)
    case S => (0, 1)
    case W => (-1, 0)
  }

  datatype Tile = Path | Forest | Slope(dir: Direction)

  /** A cell as (x, y). */
  type Pos = (int, int)

  predicate Rect(g: seq<seq<Tile>>, w: nat)
  {
    forall y | 0 <= y < |g| :: |g[y]| == w
  }

  predicate InGrid(g: seq<seq<Tile>>, w: nat, p: Pos)
  {
    0 <= p.0 < w && 0 <= p.1 < |g|
  }

  function At(g: seq<seq<Tile>>, w: nat, p: Pos): Tile
    requires Rect(g, w) && InGrid(g, w, p)
  {
    g[p.1][p.0]
  }

  function Step(p: Pos, d: Direction): Pos
  {
    (p.0 + Offset(d).0, p.1 + Offset(d).1)
  }

  /** The positions among `qs` that lie on the map, in order. */
  function Keep(g: seq<seq<Tile>>, w: nat, qs: seq<Pos>): (r: seq<Pos>)
    ensures forall q | q in r :: q in qs && InGrid(g, w, q)
    ensures forall q | q in qs && InGrid(g, w, q) :: q in r
  {
    if qs == [] then [] else (if InGrid(g, w, qs[0]) then [qs[0]] else []) + Keep(g, w, qs[1..])
  }

  /** `neighbors4` without wrapping: the orthogonal neighbours on the map, north, west, east, south. */
  function Neighbors4(g: seq<seq<Tile>>, w: nat, p: Pos): (r: seq<Pos>)
    ensures forall q | q in r :: InGrid(g, w, q) && q in {Step(p, N), Step(p, W), Step(p, E), Step(p, S)}
  {
    Keep(g, w, [Step(p, N), Step(p, W), Step(p, E), Step(p, S)])
  }

  /** The neighbours a corridor can continue into: not forest, and not the cell it came from. */
  function Onward(g: seq<seq<Tile>>, w: nat, last: Pos, qs: seq<Pos>): (r: seq<Pos>)
    requires Rect(g, w) && forall q | q in qs :: InGrid(g, w, q)
    ensures forall q | q in r :: q in qs && At(g, w, q) != Forest && q != last
    ensures forall q | q in qs && At(g, w, q) != Forest && q != last :: q in r
  {
    if qs == [] then []
    else (if At(g, w, qs[0]) != Forest && qs[0] != last then [qs[0]] else []) + Onward(g, w, last, qs[1..])
  }

  // ---------------------------------------------------------------------
  // Tracing a corridor

  /** The result of `trace_path`: its length, where it stopped, and whether it is usable forward and backward. */
  datatype Trace = Trace(length: nat, pos: Pos, forward: bool, backward: bool)

  ghost function AllCells(g: seq<seq<Tile>>, w: nat): set<Pos>
  {
    set x: int, y: int | 0 <= x < w && 0 <= y < |g| :: (x, y)
  }

  lemma InAllCells(g: seq<seq<Tile>>, w: nat, p: Pos)
    requires InGrid(g, w, p)
    ensures p in AllCells(g, w)
  {
    var (x, y) := p;
    assert (x, y) in AllCells(g, w);
  }

  lemma MarkShrinks(all: set<Pos>, vis: set<Pos>, p: Pos)
    requires p in all && p !in vis
    ensures |all - (vis + {p})| < |all - vis|
  {
    assert all - vis == (all - (vis + {p})) + {p};
  }

  /**
   * A slope on a traced cell restricts the corridor: following the slope
   * keeps only the forward direction, climbing it only the backward one,
   * and crossing it sideways neither.
   */
  function SlopeFlags(t: Tile, last: Pos, cur: Pos, next: Pos, res: Trace): (r: Trace)
    ensures r.length == res.length && r.pos == res.pos
    ensures !t.Slope? ==> r == res
    ensures (r.forward ==> res.forward) && (r.backward ==> res.backward)
  {
    match t
    case Slope(d) =>
      if next == Step(cur, d) then res.(backward := false)
      else if last == Step(cur, d) then res.(forward := false)
      else res.(forward := false, backward := false)
    case _ => res
  }

  /**
   * `trace_path` from `cur`, coming from `last`, with the cells in `vis`
   * already visited: the trace and the visited cells afterwards.  It stops
   * at a visited cell and at a cell with no or several onward neighbours;
   * otherwise it marks the cell and moves to the single onward neighbour.
   */
  ghost function TraceSpec(g: seq<seq<Tile>>, w: nat, vis: set<Pos>, last: Pos, cur: Pos, length: nat): (r: (Trace, set<Pos>))
    requires Rect(g, w) && InGrid(g, w, cur)
    ensures InGrid(g, w, r.0.pos)
    decreases |AllCells(g, w) - vis|
  {
    if cur in vis then (Trace(length, cur, true, true), vis)
    else
      var on := Onward(g, w, last, Neighbors4(g, w, cur));
      if |on| != 1 then (Trace(length, cur, true, true), vis)
      else
        InAllCells(g, w, cur);
        MarkShrinks(AllCells(g, w), vis, cur);
        var r := TraceSpec(g, w, vis + {cur}, cur, on[0], length + 1);
        (SlopeFlags(At(g, w, cur), last, cur, on[0], r.0), r.1)
  }

  /** The visited cells of the `visited` grid. */
  ghost function Marked(visited: array2<bool>): (r: set<Pos>)
    reads visited
    ensures forall p: Pos :: p in r <==> 0 <= p.0 < visited.Length1 && 0 <= p.1 < visited.Length0 && visited[p.1, p.0]
  {
    var r := set x: int, y: int | 0 <= x < visited.Length1 && 0 <= y < visited.Length0 && visited[y, x] :: (x, y);
    assert forall p: Pos | 0 <= p.0 < visited.Length1 && 0 <= p.1 < visited.Length0 && visited[p.1, p.0] :: p in r by {
      forall p: Pos | 0 <= p.0 < visited.Length1 && 0 <= p.1 < visited.Length0 && visited[p.1, p.0]
        ensures p in r
      {
        var (x, y) := p;
        assert (x, y) in r;
      }
    }
    r
  }

  /** `trace_path`: follows a corridor, marking its cells in `visited`. */
  method TracePath(g: seq<seq<Tile>>, w: nat, visited: array2<bool>, last: Pos, cur: Pos, length: nat) returns (res: Trace)
    requires Rect(g, w) && visited.Length0 == |g| && visited.Length1 == w && InGrid(g, w, cur)
    modifies visited
    ensures (res, Marked(visited)) == TraceSpec(g, w, old(Marked(visited)), last, cur, length)
    decreases |AllCells(g, w) - Marked(visited)|
  {
    ghost var vis := Marked(visited);
    if visited[cur.1, cur.0] {
      return Trace(length, cur, true, true);
    }
    var on := Onward(g, w, last, Neighbors4(g, w, cur));
    if |on| != 1 {
      return Trace(length, cur, true, true);
    }
    var next := on[0];
    visited[cur.1, cur.0] := true;
    assert Marked(visited) == vis + {cur};
    InAllCells(g, w, cur);
    MarkShrinks(AllCells(g, w), vis, cur);
    res := TracePath(g, w, visited, cur, next, length + 1);
    res := SlopeFlags(At(g, w, cur), last, cur, next, res);
  }

  /** What tracing from a cell guarantees: see `TraceMarks`. */
  ghost predicate TraceFits(g: seq<seq<Tile>>, w: nat, vis: set<Pos>, length: nat, t: Trace, vis': set<Pos>)
    requires Rect(g, w)
  {
    vis <= vis' && t.length == length + |vis' - vis|
    && (forall p | p in vis' - vis :: InGrid(g, w, p) && At(g, w, p) != Forest)
    && InGrid(g, w, t.pos) && At(g, w, t.pos) != Forest
  }

  /** Adding a cell in front of a fitting trace gives a fitting trace one longer. */
  lemma FitsCons(g: seq<seq<Tile>>, w: nat, vis: set<Pos>, cur: Pos, length: nat, t: Trace, vis': set<Pos>, t': Trace)
    requires Rect(g, w) && InGrid(g, w, cur) && At(g, w, cur) != Forest && cur !in vis
    requires TraceFits(g, w, vis + {cur}, length + 1, t, vis')
    requires t'.length == t.length && t'.pos == t.pos
    ensures TraceFits(g, w, vis, length, t', vis')
  {
    assert vis' - vis == (vis' - (vis + {cur})) + {cur};
    assert cur !in vis' - (vis + {cur});
  }

  /**
   * The corridor's length grows by one per newly marked cell, marking only
   * adds cells, the marked cells are open cells of the map, and the trace
   * ends on an open cell.
   */
  lemma {:induction false} TraceMarks(g: seq<seq<Tile>>, w: nat, vis: set<Pos>, last: Pos, cur: Pos, length: nat)
    requires Rect(g, w) && InGrid(g, w, cur) && At(g, w, cur) != Forest
    ensures TraceFits(g, w, vis, length, TraceSpec(g, w, vis, last, cur, length).0, TraceSpec(g, w, vis, last, cur, length).1)
    decreases |AllCells(g, w) - vis|
  {
    if cur !in vis {
      var on := Onward(g, w, last, Neighbors4(g, w, cur));
      if |on| == 1 {
        InAllCells(g, w, cur);
        MarkShrinks(AllCells(g, w), vis, cur);
        assert on[0] in on;
        TraceMarks(g, w, vis + {cur}, cur, on[0], length + 1);
        var r := TraceSpec(g, w, vis + {cur}, cur, on[0], length + 1);
        FitsCons(g, w, vis, cur, length, r.0, r.1, SlopeFlags(At(g, w, cur), last, cur, on[0], r.0));
      }
    }
  }

  predicate NoSlopes(g: seq<seq<Tile>>)
  {
    forall y, x | 0 <= y < |g| && 0 <= x < |g[y]| :: !g[y][x].Slope?
  }

  /** On a map without slopes every corridor can be walked both ways. */
  lemma {:induction false} TraceTwoWay(g: seq<seq<Tile>>, w: nat, vis: set<Pos>, last: Pos, cur: Pos, length: nat)
    requires Rect(g, w) && InGrid(g, w, cur) && NoSlopes(g)
    ensures TraceSpec(g, w, vis, last, cur, length).0.forward
    ensures TraceSpec(g, w, vis, last, cur, length).0.backward
    decreases |AllCells(g, w) - vis|
  {
    if cur !in vis {
      var on := Onward(g, w, last, Neighbors4(g, w, cur));
      if |on| == 1 {
        InAllCells(g, w, cur);
        MarkShrinks(AllCells(g, w), vis, cur);
        assert on[0] in on;
        TraceTwoWay(g, w, vis + {cur}, cur, on[0], length + 1);
        assert !At(g, w, cur).Slope?;
      }
    }
  }

  // ---------------------------------------------------------------------
  // Junction positions

  function StartPos(): Pos
  {
    (1, 0)
  }

  function EndPos(g: seq<seq<Tile>>, w: nat): Pos
  {
    (w - 2, |g| - 1)
  }

  /**
   * `ids` numbers `n` junctions one to one by their positions on the map,
   * start 0 and end 1; every junction other than the start and the end is
   * an open cell (it is where a corridor stopped).
   */
  ghost predicate Numbering(g: seq<seq<Tile>>, w: nat, ids: map<Pos, nat>, n: nat)
  {
    Rect(g, w)
    && StartPos() in ids && ids[StartPos()] == 0 && EndPos(g, w) in ids && ids[EndPos(g, w)] == 1
    && |ids| == n
    && (forall p | p in ids :: ids[p] < n && InGrid(g, w, p))
    && (forall p | p in ids && p != StartPos() && p != EndPos(g, w) :: At(g, w, p) != Forest)
    && (forall p, q | p in ids && q in ids && ids[p] == ids[q] :: p == q)
  }

  /** Every queued position is a numbered junction. */
  ghost predicate Queued(ids: map<Pos, nat>, todo: seq<Pos>)
  {
    forall k | 0 <= k < |todo| :: todo[k] in ids
  }

  /** The cells of the map that are not junctions yet. */
  ghost function Missing(g: seq<seq<Tile>>, w: nat, ids: map<Pos, nat>): set<Pos>
  {
    AllCells(g, w) - ids.Keys
  }

  /** A slope next to the map's edge points onto the map (the source indexes the cell it points to). */
  predicate SlopesInside(g: seq<seq<Tile>>, w: nat)
    requires Rect(g, w)
  {
    forall y, x | 0 <= y < |g| && 0 <= x < w && g[y][x].Slope? :: InGrid(g, w, Step((x, y), g[y][x].dir))
  }

}

/**
 * Year 2023, day 23: the longest hike through a forest map.  The map is
 * first condensed into a graph: junctions are the cells where a path forks
 * (plus the start and the end), and each corridor between two junctions
 * becomes an edge carrying its length, usable in one or both directions
 * depending on the slopes along it.  The answer is the longest walk from
 * start to end that never visits a junction twice, found by depth-first
 * search.  Part b first turns every slope into plain path.
 */
module Y2023Day23 {
  import opened Y2023Day23Graph
  import opened Y2023Day23Map

  /**
   * The state of `to_graph` between corridors: the graph is valid, the
   * position map gives every junction exactly one position on the map
   * (start 0 and end 1), and the queue holds known junctions.
   */
  ghost predicate Building(g: seq<seq<Tile>>, w: nat, gr: HikingGraph, ids: map<Pos, nat>, todo: seq<Pos>)
  {
    Valid(gr) && gr.start == 0 && gr.end == 1 && Numbering(g, w, ids, |gr.junctions|) && Queued(ids, todo)
  }

  /** A new junction at `p`, numbered next and queued, keeps the state and shrinks the unnumbered cells. */
  lemma NewJunction(g: seq<seq<Tile>>, w: nat, gr: HikingGraph, ids: map<Pos, nat>, todo: seq<Pos>, p: Pos)
    requires Building(g, w, gr, ids, todo) && InGrid(g, w, p) && p !in ids && At(g, w, p) != Forest
    ensures Building(g, w, gr.(junctions := gr.junctions + [[]]), ids[p := |gr.junctions|], todo + [p])
    ensures |Missing(g, w, ids[p := |gr.junctions|])| < |Missing(g, w, ids)|
  {
    InAllCells(g, w, p);
    assert Missing(g, w, ids) == Missing(g, w, ids[p := |gr.junctions|]) + {p};
    var gr' := gr.(junctions := gr.junctions + [[]]);
    var ids' := ids[p := |gr.junctions|];
    assert forall q | q in ids' :: ids'[q] < |gr'.junctions| && InGrid(g, w, q);
    assert |ids'| == |ids| + 1;
  }

  /** Changing only the edges keeps the state. */
  lemma EdgesKeep(g: seq<seq<Tile>>, w: nat, gr: HikingGraph, gr': HikingGraph, ids: map<Pos, nat>, todo: seq<Pos>)
    requires Building(g, w, gr, ids, todo) && Valid(gr')
    requires gr'.start == gr.start && gr'.end == gr.end && |gr'.junctions| == |gr.junctions|
    ensures Building(g, w, gr', ids, todo)
  {
  }

  /**
   * `trace_path` started from `from` into its open neighbour `next`, with
   * the cells in `vis` already visited, stops at `to` after `length` steps
   * and is usable in the direction asked for; every cell it marks and the
   * cell it stops at are open, one step per marked cell.
   */
  ghost predicate Leads(g: seq<seq<Tile>>, w: nat, vis: set<Pos>, from: Pos, next: Pos, to: Pos, length: nat, forward: bool)
    requires Rect(g, w)
  {
    InGrid(g, w, next) && At(g, w, next) != Forest
    && var r := TraceSpec(g, w, vis, from, next, 1);
    r.0.pos == to && r.0.length == length && (if forward then r.0.forward else r.0.backward)
    && TraceFits(g, w, vis, 1, r.0, r.1)
  }

  /**
   * A corridor of `length` steps from `from` to `to` can be walked in that
   * direction: traced from `from` and usable forward, or traced from `to`
   * and usable backward.
   */
  ghost predicate Walkable(g: seq<seq<Tile>>, w: nat, from: Pos, to: Pos, length: nat)
    requires Rect(g, w)
  {
    (exists next, vis | next in Neighbors4(g, w, from) :: Leads(g, w, vis, from, next, to, length, true))
    || (exists next, vis | next in Neighbors4(g, w, to) :: Leads(g, w, vis, to, next, from, length, false))
  }

  /** The edge `e` out of junction `u` is a walkable corridor between the two junctions' cells. */
  ghost predicate EdgeOnMap(g: seq<seq<Tile>>, w: nat, ids: map<Pos, nat>, u: nat, e: (nat, nat))
    requires Rect(g, w)
  {
    exists pu, pv | pu in ids && pv in ids && ids[pu] == u && ids[pv] == e.1 :: Walkable(g, w, pu, pv, e.0)
  }

  /** Every edge of the graph is a corridor of the map. */
  ghost predicate EdgesSound(g: seq<seq<Tile>>, w: nat, gr: HikingGraph, ids: map<Pos, nat>)
    requires Rect(g, w) && Valid(gr)
  {
    forall u, i | 0 <= u < |gr.junctions| && 0 <= i < |gr.junctions[u]| :: EdgeOnMap(g, w, ids, u, gr.paths[gr.junctions[u][i]])
  }

  /** A cell whose neighbours are all forest starts and ends no corridor. */
  lemma Enclosed(g: seq<seq<Tile>>, w: nat, from: Pos, to: Pos, length: nat)
    requires Rect(g, w)
    requires forall q | q in Neighbors4(g, w, from) :: At(g, w, q) == Forest
    requires forall q | q in Neighbors4(g, w, to) :: At(g, w, q) == Forest
    ensures !Walkable(g, w, from, to, length)
  {
  }

  /** On a map of one row a cell's neighbours are the cells left and right of it. */
  lemma RowNeighbours(g: seq<seq<Tile>>, w: nat, x: int)
    requires |g| == 1
    ensures forall q | q in Neighbors4(g, w, (x, 0)) :: q.1 == 0 && 0 <= q.0 < w && (q.0 == x - 1 || q.0 == x + 1)
  {
    forall q | q in Neighbors4(g, w, (x, 0)) ensures q.1 == 0 && 0 <= q.0 < w && (q.0 == x - 1 || q.0 == x + 1) {
      assert q.1 == 0;
    }
  }

  /** A forest cell blocks a corridor: on the row path, forest, path the two ends are not joined. */
  lemma ForestBlocks()
    ensures !Walkable([[Path, Forest, Path]], 3, (0, 0), (2, 0), 2)
  {
    var g := [[Path, Forest, Path]];
    RowNeighbours(g, 3, 0);
    RowNeighbours(g, 3, 2);
    assert g[0][1] == Forest;
    Enclosed(g, 3, (0, 0), (2, 0), 2);
  }

  /** On a map without slopes a corridor that can be walked one way can be walked back. */
  lemma WalkableBothWays(g: seq<seq<Tile>>, w: nat, from: Pos, to: Pos, length: nat)
    requires Rect(g, w) && NoSlopes(g) && Walkable(g, w, from, to, length)
    ensures Walkable(g, w, to, from, length)
  {
    if next, vis :| next in Neighbors4(g, w, from) && Leads(g, w, vis, from, next, to, length, true) {
      TraceTwoWay(g, w, vis, from, next, 1);
      assert Leads(g, w, vis, from, next, to, length, false);
    } else {
      var next, vis :| next in Neighbors4(g, w, to) && Leads(g, w, vis, to, next, from, length, false);
      TraceTwoWay(g, w, vis, to, next, 1);
      assert Leads(g, w, vis, to, next, from, length, true);
    }
  }

  /** Numbering more junctions keeps every edge on the map. */
  lemma SoundGrows(g: seq<seq<Tile>>, w: nat, gr: HikingGraph, ids: map<Pos, nat>, ids': map<Pos, nat>)
    requires Rect(g, w) && Valid(gr) && EdgesSound(g, w, gr, ids)
    requires forall p | p in ids :: p in ids' && ids'[p] == ids[p]
    ensures EdgesSound(g, w, gr, ids')
  {
    forall u, i | 0 <= u < |gr.junctions| && 0 <= i < |gr.junctions[u]|
      ensures EdgeOnMap(g, w, ids', u, gr.paths[gr.junctions[u][i]])
    {
      var e := gr.paths[gr.junctions[u][i]];
      var pu, pv :| pu in ids && pv in ids && ids[pu] == u && ids[pv] == e.1 && Walkable(g, w, pu, pv, e.0);
      assert pu in ids' && pv in ids' && ids'[pu] == u && ids'[pv] == e.1;
    }
  }

  /** A new junction without edges keeps every edge on the map. */
  lemma SoundNewJunction(g: seq<seq<Tile>>, w: nat, gr: HikingGraph, ids: map<Pos, nat>)
    requires Rect(g, w) && Valid(gr) && EdgesSound(g, w, gr, ids)
    ensures Valid(gr.(junctions := gr.junctions + [[]]))
    ensures EdgesSound(g, w, gr.(junctions := gr.junctions + [[]]), ids)
  {
    var gr' := gr.(junctions := gr.junctions + [[]]);
    forall u, i | 0 <= u < |gr'.junctions| && 0 <= i < |gr'.junctions[u]|
      ensures EdgeOnMap(g, w, ids, u, gr'.paths[gr'.junctions[u][i]])
    {
      assert u < |gr.junctions| && gr'.junctions[u] == gr.junctions[u];
    }
  }

  /** Pushing an edge that is a corridor of the map keeps every edge on the map. */
  lemma SoundAddPath(g: seq<seq<Tile>>, w: nat, gr: HikingGraph, ids: map<Pos, nat>, from: nat, length: nat, dest: nat)
    requires Rect(g, w) && Valid(gr) && EdgesSound(g, w, gr, ids)
    requires from < |gr.junctions| && dest < |gr.junctions| && EdgeOnMap(g, w, ids, from, (length, dest))
    ensures EdgesSound(g, w, AddPath(gr, from, length, dest), ids)
  {
    var r := AddPath(gr, from, length, dest);
    forall u, i | 0 <= u < |r.junctions| && 0 <= i < |r.junctions[u]|
      ensures EdgeOnMap(g, w, ids, u, r.paths[r.junctions[u][i]])
    {
      if u == from && i == |gr.junctions[u]| {
        assert r.paths[r.junctions[u][i]] == (length, dest);
      } else {
        assert r.junctions[u][i] == gr.junctions[u][i];
        assert r.paths[gr.junctions[u][i]] == gr.paths[gr.junctions[u][i]];
      }
    }
  }

  /** The junction at `p`: the known one, or a new one numbered next and queued. */
  function FindJunction(g: seq<seq<Tile>>, w: nat, gr: HikingGraph, ids: map<Pos, nat>, todo: seq<Pos>, p: Pos)
    : (r: (HikingGraph, map<Pos, nat>, seq<Pos>))
    requires Rect(g, w) && Building(g, w, gr, ids, todo) && InGrid(g, w, p) && At(g, w, p) != Forest
    requires EdgesSound(g, w, gr, ids)
    ensures Building(g, w, r.0, r.1, r.2) && r.0.paths == gr.paths
    ensures p in r.1 && forall q | q in ids :: q in r.1 && r.1[q] == ids[q]
    ensures (r.1 == ids && r.2 == todo) || |Missing(g, w, r.1)| < |Missing(g, w, ids)|
    ensures EdgesSound(g, w, r.0, r.1)
  {
    if p in ids then (gr, ids, todo)
    else
      NewJunction(g, w, gr, ids, todo, p);
      SoundNewJunction(g, w, gr, ids);
      SoundGrows(g, w, gr.(junctions := gr.junctions + [[]]), ids, ids[p := |gr.junctions|]);
      (gr.(junctions := gr.junctions + [[]]), ids[p := |gr.junctions|], todo + [p])
  }

  /** The edges a corridor contributes are corridors of the map when allowed. */
  lemma SoundAddEdges(g: seq<seq<Tile>>, w: nat, gr: HikingGraph, ids: map<Pos, nat>,
                      from: nat, dest: nat, length: nat, forward: bool, backward: bool)
    requires Rect(g, w) && Valid(gr) && EdgesSound(g, w, gr, ids) && from < |gr.junctions| && dest < |gr.junctions|
    requires forward ==> EdgeOnMap(g, w, ids, from, (length, dest))
    requires backward ==> EdgeOnMap(g, w, ids, dest, (length, from))
    ensures EdgesSound(g, w, AddEdges(gr, from, dest, length, forward, backward), ids)
  {
    var gr' := if forward then AddPath(gr, from, length, dest) else gr;
    if forward {
      SoundAddPath(g, w, gr, ids, from, length, dest);
    }
    if backward {
      SoundAddPath(g, w, gr', ids, dest, length, from);
    }
  }

  /**
   * A corridor traced from junction `id` at `current` into `next`, ending at
   * the junction `dest` at `path.pos`: its forward edge and its backward
   * edge are corridors of the map when their flags allow them.
   */
  lemma TracedOnMap(g: seq<seq<Tile>>, w: nat, ids: map<Pos, nat>, id: nat, dest: nat, path: Trace,
                    current: Pos, next: Pos, vis: set<Pos>)
    requires Rect(g, w) && InGrid(g, w, current) && next in Neighbors4(g, w, current)
    requires At(g, w, next) != Forest && path == TraceSpec(g, w, vis, current, next, 1).0
    requires current in ids && ids[current] == id && path.pos in ids && ids[path.pos] == dest
    ensures path.forward ==> EdgeOnMap(g, w, ids, id, (path.length, dest))
    ensures path.backward ==> EdgeOnMap(g, w, ids, dest, (path.length, id))
  {
    TraceMarks(g, w, vis, current, next, 1);
    if path.forward {
      assert Leads(g, w, vis, current, next, path.pos, path.length, true);
      assert Walkable(g, w, current, path.pos, path.length);
    }
    if path.backward {
      assert Leads(g, w, vis, current, next, path.pos, path.length, false);
      assert Walkable(g, w, path.pos, current, path.length);
    }
  }

  /**
   * Records a traced corridor out of junction `id`: finds or creates the
   * junction it ends at, and adds the forward edge and, when `both`, the
   * backward edge its flags allow.
   */
  function Connect(g: seq<seq<Tile>>, w: nat, gr: HikingGraph, ids: map<Pos, nat>, todo: seq<Pos>, id: nat, path: Trace, both: bool,
                   ghost current: Pos, ghost next: Pos, ghost vis: set<Pos>)
    : (r: (HikingGraph, map<Pos, nat>, seq<Pos>))
    requires Rect(g, w) && Building(g, w, gr, ids, todo) && id < |gr.junctions| && EdgesSound(g, w, gr, ids)
    requires current in ids && ids[current] == id && next in Neighbors4(g, w, current) && At(g, w, next) != Forest
    requires path == TraceSpec(g, w, vis, current, next, 1).0
    ensures Building(g, w, r.0, r.1, r.2) && id < |r.0.junctions|
    ensures path.pos in r.1 && forall p | p in ids :: p in r.1 && r.1[p] == ids[p]
    ensures (r.1 == ids && r.2 == todo) || |Missing(g, w, r.1)| < |Missing(g, w, ids)|
    ensures r.0.paths == gr.paths
      + (if path.forward then [(path.length, r.1[path.pos])] else []) + (if both && path.backward then [(path.length, id)] else [])
    ensures EdgesSound(g, w, r.0, r.1)
  {
    TraceMarks(g, w, vis, current, next, 1);
    var f := FindJunction(g, w, gr, ids, todo, path.pos);
    var dest := f.1[path.pos];
    var gr' := AddEdges(f.0, id, dest, path.length, path.forward, both && path.backward);
    EdgesKeep(g, w, f.0, gr', f.1, f.2);
    TracedOnMap(g, w, f.1, id, dest, path, current, next, vis);
    SoundAddEdges(g, w, f.0, f.1, id, dest, path.length, path.forward, both && path.backward);
    (gr', f.1, f.2)
  }

  /** One corridor out of junction `id`: `trace_path` from `next`, then `Connect`. */
  method Explore(g: seq<seq<Tile>>, w: nat, visited: array2<bool>, gr: HikingGraph, ids: map<Pos, nat>, todo: seq<Pos>,
                 id: nat, current: Pos, next: Pos, both: bool)
    returns (gr': HikingGraph, ids': map<Pos, nat>, todo': seq<Pos>)
    requires Rect(g, w) && visited.Length0 == |g| && visited.Length1 == w
    requires Building(g, w, gr, ids, todo) && id < |gr.junctions| && EdgesSound(g, w, gr, ids)
    requires current in ids && ids[current] == id && next in Neighbors4(g, w, current) && At(g, w, next) != Forest
    modifies visited
    ensures (gr', ids', todo')
         == Connect(g, w, gr, ids, todo, id, TraceSpec(g, w, old(Marked(visited)), current, next, 1).0, both,
                    current, next, old(Marked(visited)))
    ensures Building(g, w, gr', ids', todo') && id < |gr'.junctions| && EdgesSound(g, w, gr', ids')
    ensures forall p | p in ids :: p in ids' && ids'[p] == ids[p]
    ensures (ids' == ids && todo' == todo) || |Missing(g, w, ids')| < |Missing(g, w, ids)|
  {
    ghost var vis := Marked(visited);
    var path := TracePath(g, w, visited, current, next, 1);
    var r := Connect(g, w, gr, ids, todo, id, path, both, current, next, vis);
    gr', ids', todo' := r.0, r.1, r.2;
  }

  /** The corridor a slope at `current` forces, when its cell is open and untraced. */
  method Forced(g: seq<seq<Tile>>, w: nat, visited: array2<bool>, gr: HikingGraph, ids: map<Pos, nat>, todo: seq<Pos>, current: Pos)
    returns (gr': HikingGraph, ids': map<Pos, nat>, todo': seq<Pos>)
    requires Rect(g, w) && visited.Length0 == |g| && visited.Length1 == w && SlopesInside(g, w)
    requires Building(g, w, gr, ids, todo) && current in ids && EdgesSound(g, w, gr, ids)
    modifies visited
    ensures Building(g, w, gr', ids', todo') && EdgesSound(g, w, gr', ids')
    ensures forall p | p in ids :: p in ids' && ids'[p] == ids[p]
    ensures (ids' == ids && todo' == todo) || |Missing(g, w, ids')| < |Missing(g, w, ids)|
  {
    gr', ids', todo' := gr, ids, todo;
    var tile := At(g, w, current);
    if tile.Slope? {
      var forced := Step(current, tile.dir);
      if At(g, w, forced) != Forest && !visited[forced.1, forced.0] {
        StepNeighbour(g, w, current, tile.dir);
        gr', ids', todo' := Explore(g, w, visited, gr, ids, todo, ids[current], current, forced, false);
      }
    }
  }

  /**
   * One round of `to_graph`'s queue: the corridor a slope at `current`
   * forces, then the corridor into each untraced open neighbour.
   */
  method Branch(g: seq<seq<Tile>>, w: nat, visited: array2<bool>, gr: HikingGraph, ids: map<Pos, nat>, todo: seq<Pos>, current: Pos)
    returns (gr': HikingGraph, ids': map<Pos, nat>, todo': seq<Pos>)
    requires Rect(g, w) && visited.Length0 == |g| && visited.Length1 == w && SlopesInside(g, w)
    requires Building(g, w, gr, ids, todo) && current in ids && EdgesSound(g, w, gr, ids)
    modifies visited
    ensures Building(g, w, gr', ids', todo') && EdgesSound(g, w, gr', ids')
    ensures forall p | p in ids :: p in ids' && ids'[p] == ids[p]
    ensures (ids' == ids && todo' == todo) || |Missing(g, w, ids')| < |Missing(g, w, ids)|
  {
    var id := ids[current];
    gr', ids', todo' := Forced(g, w, visited, gr, ids, todo, current);
    var ns := Neighbors4(g, w, current);
    for k := 0 to |ns|
      invariant Building(g, w, gr', ids', todo') && id < |gr'.junctions| && EdgesSound(g, w, gr', ids')
      invariant forall p | p in ids :: p in ids' && ids'[p] == ids[p]
      invariant (ids' == ids && todo' == todo) || |Missing(g, w, ids')| < |Missing(g, w, ids)|
    {
      var q := ns[k];
      assert q in ns;
      if At(g, w, q) != Forest && !visited[q.1, q.0] {
        gr', ids', todo' := Explore(g, w, visited, gr', ids', todo', id, current, q, true);
      }
    }
  }

  /** The cell a slope points at, when on the map, is one of the neighbours visited. */
  lemma StepNeighbour(g: seq<seq<Tile>>, w: nat, p: Pos, d: Direction)
    requires InGrid(g, w, Step(p, d))
    ensures Step(p, d) in Neighbors4(g, w, p)
  {
    assert Step(p, d) in [Step(p, N), Step(p, W), Step(p, E), Step(p, S)] by {
      match d
      case N =>
      case W =>
      case E =>
      case S =>
    }
  }

  /** The state `to_graph` starts from: junctions 0 and 1 at the start and the end, both queued. */
  lemma Initial(g: seq<seq<Tile>>, w: nat)
    requires Rect(g, w) && w >= 2 && |g| >= 2
    ensures Building(g, w, HikingGraph([], [[], []], 0, 1), map[StartPos() := 0, EndPos(g, w) := 1], [StartPos(), EndPos(g, w)])
  {
    var ids := map[StartPos() := 0, EndPos(g, w) := 1];
    assert StartPos() != EndPos(g, w);
    assert ids.Keys == {StartPos(), EndPos(g, w)};
    assert |ids| == 2;
    assert Numbering(g, w, ids, 2);
  }

  /**
   * `to_graph`: a breadth-first sweep over junctions, starting with the
   * start (junction 0) and the end (junction 1).  The result is a valid
   * graph, and the returned position map numbers its junctions one to one.
   */
  method ToGraph(g: seq<seq<Tile>>, w: nat) returns (gr: HikingGraph, ids: map<Pos, nat>)
    requires Rect(g, w) && w >= 2 && |g| >= 2 && SlopesInside(g, w)
    ensures Valid(gr) && gr.start == 0 && gr.end == 1
    ensures Building(g, w, gr, ids, []) && EdgesSound(g, w, gr, ids)
  {
    var visited := new bool[|g|, w]((y, x) => false);
    gr := HikingGraph([], [[], []], 0, 1);
    ids := map[StartPos() := 0, EndPos(g, w) := 1];
    var todo := [StartPos(), EndPos(g, w)];
    Initial(g, w);
    while todo != []
      invariant visited.Length0 == |g| && visited.Length1 == w
      invariant Building(g, w, gr, ids, todo) && EdgesSound(g, w, gr, ids)
      decreases |Missing(g, w, ids)|, |todo|
    {
      var current := todo[0];
      todo := todo[1..];
      gr, ids, todo := Branch(g, w, visited, gr, ids, todo, current);
    }
  }

  /** Part a: condense the map and search it. */
  method PartA(g: seq<seq<Tile>>, w: nat) returns (m: nat, gr: HikingGraph, ids: map<Pos, nat>)
    requires Rect(g, w) && w >= 2 && |g| >= 2 && SlopesInside(g, w)
    ensures Valid(gr) && gr.start == 0 && gr.end == 1 && m == Best(gr, {}, 0, gr.start)
    ensures Numbering(g, w, ids, |gr.junctions|) && EdgesSound(g, w, gr, ids)
    ensures LongestWalk(gr, m)
  {
    gr, ids := ToGraph(g, w);
    m := LongestPath(gr);
    BestIsLongest(gr);
  }

  // ---------------------------------------------------------------------
  // Part b

  function Contents(tiles: array2<Tile>): (g: seq<seq<Tile>>)
    reads tiles
    ensures |g| == tiles.Length0 && Rect(g, tiles.Length1)
    ensures forall y, x | 0 <= y < tiles.Length0 && 0 <= x < tiles.Length1 :: g[y][x] == tiles[y, x]
  {
    seq(tiles.Length0, y requires 0 <= y < tiles.Length0 reads tiles =>
      seq(tiles.Length1, x requires 0 <= x < tiles.Length1 reads tiles => tiles[y, x]))
  }

  /** The nested loops of `part_b`: every slope becomes path, every other cell stays. */
  method RemoveSlopes(tiles: array2<Tile>)
    modifies tiles
    ensures NoSlopes(Contents(tiles))
    ensures forall y, x | 0 <= y < tiles.Length0 && 0 <= x < tiles.Length1 ::
      tiles[y, x] == if old(tiles[y, x]).Slope? then Path else old(tiles[y, x])
  {
    for y := 0 to tiles.Length0
      invariant forall y', x | 0 <= y' < tiles.Length0 && 0 <= x < tiles.Length1 ::
        tiles[y', x] == if y' < y && old(tiles[y', x]).Slope? then Path else old(tiles[y', x])
    {
      for x := 0 to tiles.Length1
        invariant forall y', x' | 0 <= y' < tiles.Length0 && 0 <= x' < tiles.Length1 ::
          tiles[y', x'] == if (y' < y || (y' == y && x' < x)) && old(tiles[y', x']).Slope? then Path else old(tiles[y', x'])
      {
        if tiles[y, x].Slope? {
          tiles[y, x] := Path;
        }
      }
    }
  }

  /**
   * Part b: the same search on the map with every slope turned into path,
   * on which every corridor can be walked both ways.
   */
  method PartB(g: seq<seq<Tile>>, w: nat) returns (m: nat, ghost plain: seq<seq<Tile>>, gr: HikingGraph, ids: map<Pos, nat>)
    requires Rect(g, w) && w >= 2 && |g| >= 2
    ensures |plain| == |g| && Rect(plain, w) && NoSlopes(plain)
    ensures forall y, x | 0 <= y < |g| && 0 <= x < w :: plain[y][x] == if g[y][x].Slope? then Path else g[y][x]
    ensures Valid(gr) && gr.start == 0 && gr.end == 1 && m == Best(gr, {}, 0, gr.start)
    ensures Numbering(plain, w, ids, |gr.junctions|) && EdgesSound(plain, w, gr, ids)
    ensures LongestWalk(gr, m)
  {
    var tiles := new Tile[|g|, w]((y, x) requires 0 <= y < |g| && 0 <= x < w => g[y][x]);
    RemoveSlopes(tiles);
    plain := Contents(tiles);
    gr, ids := ToGraph(Contents(tiles), w);
    m := LongestPath(gr);
    BestIsLongest(gr);
  }
}
