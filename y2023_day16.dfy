/**
 * Year 2023, day 16: a beam of light enters a contraption of mirrors and
 * splitters; the cells it crosses are energised.  This module holds the
 * tiles, the bounce table, and what it means for a beam to be reachable.
 */
module Y2023Day16Beams {
  import opened Common

  datatype Tile = Empty | SplitterV | SplitterH | MirrorNW | MirrorNE

  datatype Direction = N | E | S | W

  /** A beam: the direction it travels in and the cell it is in, as (x, y). */
  datatype Beam = Beam(dir: Direction, x: int, y: int)

  /** The contraption as rows of tiles. */
  type Contraption = seq<seq<Tile>>

  /** The layer of the ray grids a direction is recorded in (`direction as usize`). */
  function Layer(d: Direction): (i: nat)
    ensures i < 4 && DirOf(i) == d
  {
    match d
    case N => 0
    case E => 1
    case S => 2
    case W => 3
  }

  function DirOf(i: nat): Direction
    requires i < 4
  {
    if i == 0 then N else if i == 1 then E else if i == 2 then S else W
  }

  /** `offset`: one step, y growing downwards. */
  function Offset(d: Direction): (int, int)
  {
    match d
    case N => (0, -1)
    case S => (0, 1)
    case W => (-1, 0)
    case E => (1, 0)
  }

  /** Two directions at right angles: their offsets have dot product zero. */
  predicate Perpendicular(a: Direction, b: Direction)
  {
    Offset(a).0 * Offset(b).0 + Offset(a).1 * Offset(b).1 == 0
  }

  /** Opposite directions: their offsets cancel. */
  predicate Opposite(a: Direction, b: Direction)
  {
    Offset(a).0 + Offset(b).0 == 0 && Offset(a).1 + Offset(b).1 == 0
  }

  predicate Horizontal(d: Direction)
  {
    Offset(d).1 == 0
  }

  predicate IsSplitter(t: Tile)
  {
    t == SplitterV || t == SplitterH
  }

  predicate IsMirror(t: Tile)
  {
    t == MirrorNW || t == MirrorNE
  }

  /** A splitter's axis is crossed by beams perpendicular to it. */
  predicate Across(t: Tile, d: Direction)
  {
    (t == SplitterV && Horizontal(d)) || (t == SplitterH && !Horizontal(d))
  }

  /** `bounce`: the directions a beam travelling in `d` leaves tile `t` in. */
  function Bounce(t: Tile, d: Direction): (r: (Option<Direction>, Option<Direction>))
    ensures r.0.Some?
  {
    match t
    case Empty => (Some(d), None)
    case SplitterV => if d == E || d == W then (Some(N), Some(S)) else (Some(d), None)
    case SplitterH => if d == N || d == S then (Some(E), Some(W)) else (Some(d), None)
    case MirrorNW =>
      (match d
       case N => Some(E)
       case W => Some(S)
       case S => Some(W)
       case E => Some(N), None)
    case MirrorNE =>
      (match d
       case N => Some(W)
       case E => Some(S)
       case S => Some(E)
       case W => Some(N), None)
  }

  /** The bounce result with the `None`s dropped (`into_iter().flatten()`). */
  function Outgoing(t: Tile, d: Direction): (r: seq<Direction>)
    ensures 1 <= |r| <= 2
    ensures forall e :: e in r <==> Bounce(t, d).0 == Some(e) || Bounce(t, d).1 == Some(e)
  {
    var (a, b) := Bounce(t, d);
    [a.value] + (if b.Some? then [b.value] else [])
  }

  /** An empty tile lets every beam through unchanged. */
  lemma EmptyStraight(d: Direction)
    ensures Outgoing(Empty, d) == [d]
  {
  }

  /** A splitter hit across its axis sends out two beams, opposite to each other and
      both at right angles to the incoming one; hit along its axis it lets the beam
      through. */
  lemma SplitterLaw(t: Tile, d: Direction)
    requires IsSplitter(t)
    ensures Across(t, d) ==> var r := Outgoing(t, d);
      |r| == 2 && Perpendicular(d, r[0]) && Perpendicular(d, r[1]) && Opposite(r[0], r[1])
    ensures !Across(t, d) ==> Outgoing(t, d) == [d]
  {
  }

  /** A mirror turns every beam into exactly one beam at right angles to it; turning
      twice restores the direction, and the reversed outgoing beam leaves along the
      reversed incoming one (light paths run both ways). */
  lemma MirrorLaw(t: Tile, d: Direction, rd: Direction, ro: Direction)
    requires IsMirror(t)
    requires Opposite(d, rd) && Opposite(Outgoing(t, d)[0], ro)
    ensures |Outgoing(t, d)| == 1 && Perpendicular(d, Outgoing(t, d)[0])
    ensures Outgoing(t, Outgoing(t, d)[0]) == [d]
    ensures Outgoing(t, ro) == [rd]
  {
  }

  /** A mirror maps distinct incoming directions to distinct outgoing ones. */
  lemma MirrorInjective(t: Tile, d: Direction, e: Direction)
    requires IsMirror(t) && d != e
    ensures Outgoing(t, d) != Outgoing(t, e)
  {
  }

  // ---------------------------------------------------------------------------
  // Beams on the grid

  predicate Rect(g: Contraption, w: nat)
  {
    forall y | 0 <= y < |g| :: |g[y]| == w
  }

  predicate InGrid(g: Contraption, w: nat, b: Beam)
  {
    0 <= b.y < |g| && 0 <= b.x < w
  }

  /** The beam one step further on in direction `d`. */
  function Moved(b: Beam, d: Direction): Beam
  {
    Beam(d, b.x + Offset(d).0, b.y + Offset(d).1)
  }

  /** The beams that leave the cell of `b`, whether on the grid or not. */
  function Successors(g: Contraption, w: nat, b: Beam): (r: seq<Beam>)
    requires Rect(g, w) && InGrid(g, w, b)
    ensures var out := Outgoing(g[b.y][b.x], b.dir);
      |r| == |out| && forall k | 0 <= k < |r| :: r[k] == Moved(b, out[k])
  {
    var out := Outgoing(g[b.y][b.x], b.dir);
    seq(|out|, k requires 0 <= k < |out| => Moved(b, out[k]))
  }

  /** One step of light between two beams on the grid. */
  predicate Step(g: Contraption, w: nat, b: Beam, c: Beam)
  {
    Rect(g, w) && InGrid(g, w, b) && InGrid(g, w, c) && c in Successors(g, w, b)
  }

  /** A run of beams on the grid, each following from the one before. */
  ghost predicate Path(g: Contraption, w: nat, p: seq<Beam>)
  {
    |p| > 0 && InGrid(g, w, p[0]) && forall i | 0 <= i < |p| - 1 :: Step(g, w, p[i], p[i + 1])
  }

  /** Light entering as `start` eventually is beam `b`. */
  ghost predicate Reachable(g: Contraption, w: nat, start: Beam, b: Beam)
  {
    exists p :: Path(g, w, p) && p[0] == start && p[|p| - 1] == b
  }

  /** Every beam on the grid. */
  ghost function AllBeams(g: Contraption, w: nat): set<Beam>
  {
    set i, x, y | 0 <= i < 4 && 0 <= y < |g| && 0 <= x < w :: Beam(DirOf(i), x, y)
  }

  /** The beams reachable from `start`. */
  ghost function ReachSet(g: Contraption, w: nat, start: Beam): set<Beam>
  {
    set b | b in AllBeams(g, w) && Reachable(g, w, start, b)
  }

  lemma InAll(g: Contraption, w: nat, b: Beam)
    requires InGrid(g, w, b)
    ensures b in AllBeams(g, w)
  {
    var i := Layer(b.dir);
    assert b == Beam(DirOf(i), b.x, b.y);
  }

  /** Every beam of `S` is on the grid and reachable. */
  ghost predicate Sound(g: Contraption, w: nat, start: Beam, S: set<Beam>)
  {
    forall b | b in S :: InGrid(g, w, b) && Reachable(g, w, start, b)
  }

  /** Every successor of `b` that is on the grid lies in `S`. */
  ghost predicate Expanded(g: Contraption, w: nat, S: set<Beam>, b: Beam)
  {
    Rect(g, w) && InGrid(g, w, b) && forall c | c in Successors(g, w, b) && InGrid(g, w, c) :: c in S
  }

  /** The first `k` successors of `b` are in `S` or off the grid. */
  ghost predicate PartlyExpanded(g: Contraption, w: nat, S: set<Beam>, b: Beam, k: nat)
    requires Rect(g, w) && InGrid(g, w, b)
  {
    k <= |Successors(g, w, b)|
    && forall j | 0 <= j < k && InGrid(g, w, Successors(g, w, b)[j]) :: Successors(g, w, b)[j] in S
  }

  lemma PartlyExpandedStep(g: Contraption, w: nat, S: set<Beam>, b: Beam, k: nat)
    requires Rect(g, w) && InGrid(g, w, b) && k < |Successors(g, w, b)|
    requires PartlyExpanded(g, w, S, b, k)
    requires InGrid(g, w, Successors(g, w, b)[k]) ==> Successors(g, w, b)[k] in S
    ensures PartlyExpanded(g, w, S, b, k + 1)
  {
  }

  lemma PartlyExpandedAll(g: Contraption, w: nat, S: set<Beam>, b: Beam)
    requires Rect(g, w) && InGrid(g, w, b) && PartlyExpanded(g, w, S, b, |Successors(g, w, b)|)
    ensures Expanded(g, w, S, b)
  {
  }

  /** `S` contains the on-grid successors of each of its beams. */
  ghost predicate Closed(g: Contraption, w: nat, S: set<Beam>)
  {
    forall b | b in S :: Expanded(g, w, S, b)
  }

  /** The ray grids hold exactly the beams of `S`. */
  ghost predicate Marks(rays: array3<bool>, g: Contraption, w: nat, S: set<Beam>)
    reads rays
  {
    rays.Length0 == 4 && rays.Length1 == |g| && rays.Length2 == w
    && forall i, y, x | 0 <= i < 4 && 0 <= y < |g| && 0 <= x < w :: rays[i, y, x] <==> Beam(DirOf(i), x, y) in S
  }

  predicate Distinct<T(==)>(s: seq<T>)
  {
    forall i, j | 0 <= i < j < |s| :: s[i] != s[j]
  }

  lemma ReachableStart(g: Contraption, w: nat, start: Beam)
    requires InGrid(g, w, start)
    ensures Reachable(g, w, start, start)
  {
    assert Path(g, w, [start]);
  }

  /** Reachability extends by one step. */
  lemma ReachableStep(g: Contraption, w: nat, start: Beam, b: Beam, c: Beam)
    requires Reachable(g, w, start, b) && Step(g, w, b, c)
    ensures Reachable(g, w, start, c)
  {
    var p :| Path(g, w, p) && p[0] == start && p[|p| - 1] == b;
    var q := p + [c];
    forall i | 0 <= i < |q| - 1
      ensures Step(g, w, q[i], q[i + 1])
    {
      if i < |p| - 1 {
        assert q[i] == p[i] && q[i + 1] == p[i + 1];
      }
    }
    assert Path(g, w, q);
  }

  /** A closed set holding the first beam of a path holds all of it. */
  lemma {:induction false} PathInside(g: Contraption, w: nat, p: seq<Beam>, S: set<Beam>)
    requires Path(g, w, p) && p[0] in S && Closed(g, w, S)
    ensures p[|p| - 1] in S
  {
    if |p| > 1 {
      var q := p[..|p| - 1];
      assert Path(g, w, q) by {
        forall i | 0 <= i < |q| - 1
          ensures Step(g, w, q[i], q[i + 1])
        {
          assert q[i] == p[i] && q[i + 1] == p[i + 1];
        }
      }
      PathInside(g, w, q, S);
      assert Step(g, w, p[|p| - 2], p[|p| - 1]);
      assert Expanded(g, w, S, p[|p| - 2]);
    }
  }

  /** A closed set of reachable beams holding the start is exactly the reachable set:
      the least fixpoint of the step relation. */
  lemma Fixpoint(g: Contraption, w: nat, start: Beam, S: set<Beam>)
    requires Closed(g, w, S) && start in S && Sound(g, w, start, S)
    ensures S == ReachSet(g, w, start)
  {
    forall b | b in ReachSet(g, w, start)
      ensures b in S
    {
      var p :| Path(g, w, p) && p[0] == start && p[|p| - 1] == b;
      PathInside(g, w, p, S);
    }
    forall b | b in S
      ensures b in ReachSet(g, w, start)
    {
      InAll(g, w, b);
    }
  }

  // ---------------------------------------------------------------------------
  // The queue of the trace

  /** The bookkeeping of the trace: `seen` (the marked beams) are reachable, hold
      the start, and are exactly the beams processed (`done`) or still queued
      (`todo`), none listed twice. */
  ghost predicate Tracking(g: Contraption, w: nat, start: Beam, seen: set<Beam>, done: seq<Beam>, todo: seq<Beam>)
  {
    Sound(g, w, start, seen) && start in seen && Distinct(done + todo)
    && forall b :: b in seen <==> b in done || b in todo
  }

  /** Every beam of `s` has its on-grid successors in `S`. */
  ghost predicate Settled(g: Contraption, w: nat, S: set<Beam>, s: seq<Beam>)
  {
    forall b | b in s :: Expanded(g, w, S, b)
  }

  /** Popping the head of the queue moves it to the processed beams. */
  lemma TrackPop(g: Contraption, w: nat, start: Beam, seen: set<Beam>, done: seq<Beam>, todo: seq<Beam>)
    requires Tracking(g, w, start, seen, done, todo) && todo != []
    ensures Tracking(g, w, start, seen, done + [todo[0]], todo[1..])
  {
    var t, rest := todo[0], todo[1..];
    assert todo == [t] + rest;
    assert done + todo == (done + [t]) + rest;
    forall b
      ensures (b in done || b in todo) <==> (b in done + [t] || b in rest)
    {
    }
  }

  /** Marking and queueing a successor not seen before keeps the bookkeeping. */
  lemma TrackPush(g: Contraption, w: nat, start: Beam, seen: set<Beam>, done: seq<Beam>, todo: seq<Beam>, cur: Beam, next: Beam)
    requires Tracking(g, w, start, seen, done, todo) && cur in seen && Step(g, w, cur, next) && next !in seen
    ensures Tracking(g, w, start, seen + {next}, done, todo + [next])
  {
    ReachableStep(g, w, start, cur, next);
    assert done + (todo + [next]) == done + todo + [next];
  }

  lemma SettledGrow(g: Contraption, w: nat, S: set<Beam>, T: set<Beam>, s: seq<Beam>)
    requires Settled(g, w, S, s) && S <= T
    ensures Settled(g, w, T, s)
  {
  }

  lemma SettledAdd(g: Contraption, w: nat, S: set<Beam>, s: seq<Beam>, b: Beam)
    requires Settled(g, w, S, s) && Expanded(g, w, S, b)
    ensures Settled(g, w, S, s + [b])
  {
  }

  /** When the queue is empty, the marked beams are the reachable ones and each was
      processed once. */
  lemma TrackDone(g: Contraption, w: nat, start: Beam, seen: set<Beam>, done: seq<Beam>)
    requires Rect(g, w) && Tracking(g, w, start, seen, done, []) && Settled(g, w, seen, done)
    ensures seen == ReachSet(g, w, start)
    ensures Distinct(done) && forall b :: b in done <==> b in ReachSet(g, w, start)
  {
    assert done + [] == done;
    Fixpoint(g, w, start, seen);
  }

  /** How many beams of the grid are not in `S`. */
  ghost function Unmarked(g: Contraption, w: nat, S: set<Beam>): nat
  {
    |AllBeams(g, w) - S|
  }

  /** Taking more beams of the grid leaves fewer unmarked ones. */
  lemma Shrinks(g: Contraption, w: nat, S: set<Beam>, T: set<Beam>)
    requires S <= T && forall b | b in T :: InGrid(g, w, b)
    ensures S == T || Unmarked(g, w, T) < Unmarked(g, w, S)
  {
    if S < T {
      forall b | b in T
        ensures b in AllBeams(g, w)
      {
        InAll(g, w, b);
      }
      var A := AllBeams(g, w);
      assert A - S == (A - T) + (T - S);
      assert |A - S| == |A - T| + |T - S|;
      assert T - S != {};
    }
  }

  /** The cells a beam from `start` crosses in some direction. */
  ghost function Energised(g: Contraption, w: nat, start: Beam): set<(int, int)>
  {
    set x, y | 0 <= y < |g| && 0 <= x < w && Lit(g, w, start, x, y) :: (x, y)
  }

  ghost predicate Lit(g: Contraption, w: nat, start: Beam, x: int, y: int)
  {
    exists i | 0 <= i < 4 :: Beam(DirOf(i), x, y) in ReachSet(g, w, start)
  }

  /** The number of energised cells for light entering as `start`. */
  ghost function Energy(g: Contraption, w: nat, start: Beam): nat
  {
    |Energised(g, w, start)|
  }

  /** No beam among the first `k` of `bs` energises more than `best` cells. */
  ghost predicate Bounded(g: Contraption, w: nat, bs: seq<Beam>, k: nat, best: nat)
    requires k <= |bs|
  {
    forall j | 0 <= j < k :: Energy(g, w, bs[j]) <= best
  }

  lemma BoundedStep(g: Contraption, w: nat, bs: seq<Beam>, k: nat, best: nat, best': nat)
    requires k < |bs| && Bounded(g, w, bs, k, best) && best <= best' && Energy(g, w, bs[k]) <= best'
    ensures Bounded(g, w, bs, k + 1, best')
  {
  }

  // ---------------------------------------------------------------------------
  // Edge entries

  /** The beams that enter from the border: down from the top row, up from the
      bottom row, right from the left column, left from the right column. */
  function Entries(w: nat, h: nat): (r: seq<Beam>)
    ensures |r| == 2 * w + 2 * h
  {
    seq(w, x => Beam(S, x, 0)) + seq(w, x => Beam(N, x, h - 1))
    + seq(h, y => Beam(E, 0, y)) + seq(h, y => Beam(W, w - 1, y))
  }

  lemma EntriesOnGrid(w: nat, h: nat)
    requires w > 0 && h > 0
    ensures forall k | 0 <= k < |Entries(w, h)| :: 0 <= Entries(w, h)[k].x < w && 0 <= Entries(w, h)[k].y < h
  {
  }

  /** A beam that is on the grid but came from a cell outside it. */
  predicate Inward(w: nat, h: nat, b: Beam)
  {
    && 0 <= b.x < w && 0 <= b.y < h
    && var (px, py) := (b.x - Offset(b.dir).0, b.y - Offset(b.dir).1);
    !(0 <= px < w && 0 <= py < h)
  }

  /** The entries are exactly the inward-pointing border beams. */
  lemma EntriesInward(w: nat, h: nat, b: Beam)
    requires w > 0 && h > 0
    ensures b in Entries(w, h) <==> Inward(w, h, b)
  {
    var r := Entries(w, h);
    if Inward(w, h, b) {
      var k := match b.dir
        case S => b.x
        case N => w + b.x
        case E => 2 * w + b.y
        case W => 2 * w + h + b.y;
      assert r[k] == b;
    }
  }
}

/**
 * Year 2023, day 16: tracing the beam through the contraption with a queue,
 * marking each (direction, cell) pair once, then counting energised cells
 * for the top-left entry and for the best border entry.
 */
module Y2023Day16 {
  import opened Common
  import opened Y2023Day16Beams

  /**
   * `trace_path`: the breadth-first trace from `start`.  The four ray grids end up
   * marking exactly the beams reachable from `start`; `processed` lists the beams in
   * the order they leave the queue, each reachable beam exactly once.
   */
  method TracePath(g: Contraption, w: nat, start: Beam) returns (rays: array3<bool>, ghost processed: seq<Beam>)
    requires Rect(g, w) && InGrid(g, w, start)
    ensures fresh(rays)
    ensures Marks(rays, g, w, ReachSet(g, w, start))
    ensures Distinct(processed) && forall b :: b in processed <==> b in ReachSet(g, w, start)
  {
    rays := new bool[4, |g|, w]((_, _, _) => false);
    Mark(rays, g, w, {}, start);
    var todo := [start];
    ghost var seen := {start};
    processed := [];
    ReachableStart(g, w, start);
    while todo != []
      invariant Marks(rays, g, w, seen) && Tracking(g, w, start, seen, processed, todo)
      invariant Settled(g, w, seen, processed)
      decreases Unmarked(g, w, seen), |todo|
    {
      var cur := todo[0];
      ghost var seen0 := seen;
      TrackPop(g, w, start, seen, processed, todo);
      todo := todo[1..];
      todo, seen := Expand(g, w, rays, cur, todo, start, seen, processed);
      processed := processed + [cur];
      Shrinks(g, w, seen0, seen);
    }
    TrackDone(g, w, start, seen, processed);
  }

  /**
   * The body of the queue loop for the popped beam `cur`: every beam leaving its
   * cell that is on the grid and not yet marked is marked and queued.  Afterwards
   * `cur` is expanded, and the queue gained exactly the newly marked beams.
   */
  method Expand(g: Contraption, w: nat, rays: array3<bool>, cur: Beam, todo: seq<Beam>,
                ghost start: Beam, ghost seen: set<Beam>, ghost processed: seq<Beam>)
    returns (todo': seq<Beam>, ghost seen': set<Beam>)
    requires Rect(g, w) && InGrid(g, w, cur) && cur in seen
    requires Marks(rays, g, w, seen) && Tracking(g, w, start, seen, processed + [cur], todo)
    requires Settled(g, w, seen, processed)
    modifies rays
    ensures Marks(rays, g, w, seen') && Tracking(g, w, start, seen', processed + [cur], todo')
    ensures Settled(g, w, seen', processed + [cur]) && seen <= seen'
    ensures forall b | b in seen' :: InGrid(g, w, b)
    ensures seen' == seen ==> todo' == todo
  {
    var succ := Successors(g, w, cur);
    todo', seen' := todo, seen;
    for k := 0 to |succ|
      invariant Marks(rays, g, w, seen') && Tracking(g, w, start, seen', processed + [cur], todo')
      invariant seen <= seen'
      invariant PartlyExpanded(g, w, seen', cur, k)
      invariant seen' == seen ==> todo' == todo
    {
      var next := succ[k];
      if 0 <= next.y < |g| && 0 <= next.x < w && !rays[Layer(next.dir), next.y, next.x] {
        TrackPush(g, w, start, seen', processed + [cur], todo', cur, next);
        Mark(rays, g, w, seen', next);
        todo' := todo' + [next];
        seen' := seen' + {next};
      }
      PartlyExpandedStep(g, w, seen', cur, k);
    }
    PartlyExpandedAll(g, w, seen', cur);
    SettledGrow(g, w, seen, seen', processed);
    SettledAdd(g, w, seen', processed, cur);
  }

  /** Set the ray of beam `b`, which is on the grid. */
  method Mark(rays: array3<bool>, g: Contraption, w: nat, ghost S: set<Beam>, b: Beam)
    requires Marks(rays, g, w, S) && InGrid(g, w, b)
    modifies rays
    ensures Marks(rays, g, w, S + {b})
  {
    rays[Layer(b.dir), b.y, b.x] := true;
  }

  // ---------------------------------------------------------------------------
  // Counting

  /** Some of the four ray grids marks cell (x, y). */
  predicate LitAt(rays: array3<bool>, x: int, y: int)
    requires rays.Length0 == 4 && 0 <= y < rays.Length1 && 0 <= x < rays.Length2
    reads rays
  {
    rays[0, y, x] || rays[1, y, x] || rays[2, y, x] || rays[3, y, x]
  }

  /** The cells some ray grid marks. */
  ghost function LitCells(rays: array3<bool>): set<(int, int)>
    requires rays.Length0 == 4
    reads rays
  {
    set x, y | 0 <= y < rays.Length1 && 0 <= x < rays.Length2 && LitAt(rays, x, y) :: (x, y)
  }

  /** (x, y) comes before the scan position (cx, cy) in row-major order. */
  predicate Scanned(c: (int, int), cx: int, cy: int)
  {
    c.1 < cy || (c.1 == cy && c.0 < cx)
  }

  /** The count of `part_a` and `part_b`: the cells, in row-major order, that some
      ray grid marks. */
  method CountEnergised(rays: array3<bool>) returns (count: nat)
    requires rays.Length0 == 4
    ensures count == |LitCells(rays)|
  {
    count := 0;
    ghost var cells: set<(int, int)> := {};
    for y := 0 to rays.Length1
      invariant count == |cells|
      invariant forall c :: c in cells <==> c in LitCells(rays) && Scanned(c, 0, y)
    {
      for x := 0 to rays.Length2
        invariant count == |cells|
        invariant forall c :: c in cells <==> c in LitCells(rays) && Scanned(c, x, y)
      {
        if rays[0, y, x] || rays[1, y, x] || rays[2, y, x] || rays[3, y, x] {
          assert (x, y) !in cells;
          count := count + 1;
          cells := cells + {(x, y)};
        }
      }
    }
    assert cells == LitCells(rays);
  }

  /** When the ray grids hold the beams reachable from `start`, their lit cells are
      the energised cells. */
  lemma LitEnergised(rays: array3<bool>, g: Contraption, w: nat, start: Beam)
    requires Marks(rays, g, w, ReachSet(g, w, start))
    ensures LitCells(rays) == Energised(g, w, start)
  {
    forall x, y | 0 <= y < |g| && 0 <= x < w
      ensures LitAt(rays, x, y) == Lit(g, w, start, x, y)
    {
      if Lit(g, w, start, x, y) {
        var i :| 0 <= i < 4 && Beam(DirOf(i), x, y) in ReachSet(g, w, start);
        assert rays[i, y, x];
      }
    }
  }

  /** The trace from `start` followed by the count of lit cells, as each part does it. */
  method Energise(g: Contraption, w: nat, start: Beam) returns (count: nat)
    requires Rect(g, w) && InGrid(g, w, start)
    ensures count == Energy(g, w, start)
  {
    var rays;
    ghost var processed;
    rays, processed := TracePath(g, w, start);
    count := CountEnergised(rays);
    LitEnergised(rays, g, w, start);
  }

  /** `part_a`: the energised cells for light entering the top-left cell heading east.
      The grid must not be empty: the source indexes that cell. */
  method PartA(g: Contraption, w: nat) returns (count: nat)
    requires Rect(g, w) && |g| > 0 && w > 0
    ensures count == Energy(g, w, Beam(E, 0, 0))
  {
    count := Energise(g, w, Beam(E, 0, 0));
  }

  /** `part_b`: the most cells any border entry energises.  The grid must not be
      empty: the source indexes the border cells and unwraps the maximum. */
  method PartB(g: Contraption, w: nat) returns (best: nat)
    requires Rect(g, w) && |g| > 0 && w > 0
    ensures exists k | 0 <= k < |Entries(w, |g|)| :: best == Energy(g, w, Entries(w, |g|)[k])
    ensures forall k | 0 <= k < |Entries(w, |g|)| :: Energy(g, w, Entries(w, |g|)[k]) <= best
  {
    var entries := Entries(w, |g|);
    EntriesOnGrid(w, |g|);
    best := 0;
    ghost var arg := 0;
    for k := 0 to |entries|
      invariant k == 0 ==> best == 0
      invariant k > 0 ==> 0 <= arg < k && best == Energy(g, w, entries[arg])
      invariant Bounded(g, w, entries, k, best)
    {
      var count := Energise(g, w, entries[k]);
      ghost var best0 := best;
      if k == 0 || count > best {
        best, arg := count, k;
      }
      BoundedStep(g, w, entries, k, best0, best);
    }
  }

  // ---------------------------------------------------------------------------
  // Parsing

  /** The tile a character stands for; `None` where the source reaches `unreachable!`. */
  function TileOf(c: char): (r: Option<Tile>)
    ensures r.Some? ==> Symbol(r.value) == c
  {
    match c
    case '.' => Some(Empty)
    case '|' => Some(SplitterV)
    case '-' => Some(SplitterH)
    case '/' => Some(MirrorNW)
    case '\\' => Some(MirrorNE)
    case _ => None
  }

  function Symbol(t: Tile): char
  {
    match t
    case Empty => '.'
    case SplitterV => '|'
    case SplitterH => '-'
    case MirrorNW => '/'
    case MirrorNE => '\\'
  }

  /** Every tile is read back from its own character. */
  lemma TileRoundTrip(t: Tile)
    ensures TileOf(Symbol(t)) == Some(t)
  {
  }

  /** One row of tiles, `None` at the first unknown character. */
  function TileRow(line: string): (r: Option<seq<Tile>>)
    ensures r.Some? <==> forall i | 0 <= i < |line| :: TileOf(line[i]).Some?
    ensures r.Some? ==> |r.value| == |line| && forall i | 0 <= i < |line| :: TileOf(line[i]) == Some(r.value[i])
  {
    if line == [] then Some([])
    else
      match (TileRow(line[..|line| - 1]), TileOf(line[|line| - 1]))
      case (Some(row), Some(t)) =>
        var r := row + [t];
        assert forall i | 0 <= i < |line| - 1 :: r[i] == row[i];
        Some(r)
      case (None, _) =>
        var front := line[..|line| - 1];
        assert forall i | 0 <= i < |front| :: front[i] == line[i];
        None
      case (_, None) => None
  }

  /** `parse`: one row of tiles per line; `None` on an unknown character. */
  function ParseContraption(lines: seq<string>): (r: Option<Contraption>)
    ensures r.Some? <==> forall y, i | 0 <= y < |lines| && 0 <= i < |lines[y]| :: TileOf(lines[y][i]).Some?
    ensures r.Some? ==> |r.value| == |lines|
    ensures r.Some? ==> forall y | 0 <= y < |lines| ::
      |r.value[y]| == |lines[y]| && forall i | 0 <= i < |lines[y]| :: TileOf(lines[y][i]) == Some(r.value[y][i])
  {
    if lines == [] then Some([])
    else
      match (ParseContraption(lines[..|lines| - 1]), TileRow(lines[|lines| - 1]))
      case (Some(rows), Some(row)) =>
        var r := rows + [row];
        assert forall y | 0 <= y < |lines| - 1 :: r[y] == rows[y];
        Some(r)
      case (None, _) =>
        var front := lines[..|lines| - 1];
        assert forall y | 0 <= y < |front| :: front[y] == lines[y];
        None
      case (_, None) => None
  }

  /** The contraption as text, one line per row. */
  function Render(g: Contraption): (r: seq<string>)
    ensures |r| == |g| && forall y | 0 <= y < |g| :: |r[y]| == |g[y]|
  {
    seq(|g|, y requires 0 <= y < |g| => seq(|g[y]|, x requires 0 <= x < |g[y]| => Symbol(g[y][x])))
  }

  /** Parsing the rendered contraption gives it back. */
  lemma ParseRender(g: Contraption)
    ensures ParseContraption(Render(g)) == Some(g)
  {
    var r := ParseContraption(Render(g));
    assert r.Some?;
    forall y | 0 <= y < |g|
      ensures r.value[y] == g[y]
    {
      forall i | 0 <= i < |g[y]|
        ensures r.value[y][i] == g[y][i]
      {
        TileRoundTrip(g[y][i]);
      }
    }
    assert r.value == g;
  }
}
