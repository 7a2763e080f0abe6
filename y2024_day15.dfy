/**
 * Year 2024, day 15: a robot pushes boxes around a walled warehouse.  A
 * move succeeds when the chain of boxes ahead can shift one cell; then the
 * chain is shifted from the far end back to the robot.  In part b every
 * cell is doubled in width and boxes become two-cell wide, so a vertical
 * push can fan out over several columns.
 */
module Y2024Day15 {
  import opened Common

  datatype Tile = Box | BoxL | BoxR | Space | Wall

  datatype Direction = Up | Down | Left | Right

  function Offset(d: Direction): (int, int)
  {
    match d
    case Up => (0, -1)
    case Down => (0, 1)
    case Left => (-1, 0)
    case Right => (1, 0)
  }

  /** A cell as (x, y). */
  type Pos = (int, int)

  /** The warehouse as rows of tiles, each `w` wide. */
  type Map = seq<seq<Tile>>

  predicate Rect(m: Map, w: nat)
  {
    forall y | 0 <= y < |m| :: |m[y]| == w
  }

  predicate InGrid(h: nat, w: nat, p: Pos)
  {
    0 <= p.0 < w && 0 <= p.1 < h
  }

  function Get(m: Map, w: nat, p: Pos): Tile
    requires Rect(m, w) && InGrid(|m|, w, p)
  {
    m[p.1][p.0]
  }

  function Set(m: Map, w: nat, p: Pos, t: Tile): (r: Map)
    requires Rect(m, w) && InGrid(|m|, w, p)
    ensures |r| == |m| && Rect(r, w)
    ensures forall y, x | 0 <= y < |m| && 0 <= x < w :: r[y][x] == if (x, y) == p then t else m[y][x]
  {
    m[p.1 := m[p.1][p.0 := t]]
  }

  function Next(p: Pos, d: Direction): Pos
  {
    (p.0 + Offset(d).0, p.1 + Offset(d).1)
  }

  /** How far `p` lies along `d`: moving one step along `d` adds one. */
  function Along(p: Pos, d: Direction): int
  {
    match d
    case Up => -p.1
    case Down => p.1
    case Left => -p.0
    case Right => p.0
  }

  /** The room left before the map's edge in direction `d`: the recursion's measure. */
  function Dist(h: nat, w: nat, p: Pos, d: Direction): nat
  {
    match d
    case Up => if p.1 >= 0 then p.1 else 0
    case Down => if p.1 <= h then h - p.1 else 0
    case Left => if p.0 >= 0 then p.0 else 0
    case Right => if p.0 <= w then w - p.0 else 0
  }

  lemma StepCloser(h: nat, w: nat, p: Pos, d: Direction)
    requires InGrid(h, w, Next(p, d))
    ensures Dist(h, w, Next(p, d), d) < Dist(h, w, p, d)
  {
  }

  /**
   * `can_move`: whether whatever is at `pos` can be shifted one cell along
   * `d`.  A box recurses on the cell ahead; a wide box pushed vertically
   * needs both of its halves to move, pushed sideways only the cell beyond
   * it.  `None` is the source's out-of-range panic.
   */
  function CanMove(m: Map, w: nat, pos: Pos, d: Direction): Option<bool>
    requires Rect(m, w)
    decreases Dist(|m|, w, pos, d)
  {
    var n := Next(pos, d);
    if !InGrid(|m|, w, n) then None
    else
      StepCloser(|m|, w, pos, d);
      match Get(m, w, n)
      case Box => CanMove(m, w, n, d)
      case BoxL =>
        if Offset(d).0 == 0 then
          (match CanMove(m, w, n, d)
           case Some(true) => CanMove(m, w, (n.0 + 1, n.1), d)
           case other => other)
        else CanMove(m, w, n, d)
      case BoxR =>
        if Offset(d).0 == 0 then
          (match CanMove(m, w, n, d)
           case Some(true) => CanMove(m, w, (n.0 - 1, n.1), d)
           case other => other)
        else CanMove(m, w, n, d)
      case Space => Some(true)
      case Wall => Some(false)
  }

  /** Every cell on the map's border is a wall. */
  predicate Walled(m: Map, w: nat)
    requires Rect(m, w)
  {
    forall y, x | 0 <= y < |m| && 0 <= x < w && (y == 0 || y == |m| - 1 || x == 0 || x == w - 1) :: m[y][x] == Wall
  }

  /** On a walled map `can_move` never leaves the map: it always answers. */
  lemma {:induction false} CanMoveAnswers(m: Map, w: nat, pos: Pos, d: Direction)
    requires Rect(m, w) && Walled(m, w) && InGrid(|m|, w, Next(pos, d))
    ensures CanMove(m, w, pos, d).Some?
    decreases Dist(|m|, w, pos, d)
  {
    var n := Next(pos, d);
    StepCloser(|m|, w, pos, d);
    var t := Get(m, w, n);
    if t == Box || t == BoxL || t == BoxR {
      assert 0 < n.0 < w - 1 && 0 < n.1 < |m| - 1;
      CanMoveAnswers(m, w, n, d);
      if t == BoxL && Offset(d).0 == 0 {
        CanMoveAnswers(m, w, (n.0 + 1, n.1), d);
      } else if t == BoxR && Offset(d).0 == 0 {
        CanMoveAnswers(m, w, (n.0 - 1, n.1), d);
      }
    }
  }

  /** Nothing moves into a wall: a possible move never has a wall right ahead. */
  lemma CanMoveNotWall(m: Map, w: nat, pos: Pos, d: Direction)
    requires Rect(m, w) && CanMove(m, w, pos, d) == Some(true)
    ensures InGrid(|m|, w, Next(pos, d)) && Get(m, w, Next(pos, d)) != Wall
  {
  }

  // ---------------------------------------------------------------------
  // apply_force

  /**
   * The first half of `apply_force`: clear the cells ahead of `pos`, by
   * forcing the box ahead (both halves of a wide box pushed vertically,
   * left half first for `[`, right half first for `]`).  `None` is a panic.
   */
  function Clear(m: Map, w: nat, pos: Pos, d: Direction): (r: Option<Map>)
    requires Rect(m, w)
    ensures r.Some? ==> |r.value| == |m| && Rect(r.value, w)
    decreases Dist(|m|, w, pos, d), 0
  {
    var n := Next(pos, d);
    if !InGrid(|m|, w, n) then None
    else
      StepCloser(|m|, w, pos, d);
      match Get(m, w, n)
      case Box => Force(m, w, n, d)
      case BoxL =>
        if Offset(d).0 == 0 then
          (match Force(m, w, n, d)
           case None => None
           case Some(m1) => Force(m1, w, (n.0 + 1, n.1), d))
        else Force(m, w, n, d)
      case BoxR =>
        if Offset(d).0 == 0 then
          (match Force(m, w, n, d)
           case None => None
           case Some(m1) => Force(m1, w, (n.0 - 1, n.1), d))
        else Force(m, w, n, d)
      case _ => Some(m)
  }

  /** `apply_force`: clear ahead, copy the tile at `pos` one cell along `d`, and leave floor behind. */
  function Force(m: Map, w: nat, pos: Pos, d: Direction): (r: Option<Map>)
    requires Rect(m, w)
    ensures r.Some? ==> |r.value| == |m| && Rect(r.value, w)
    decreases Dist(|m|, w, pos, d), 1
  {
    match Clear(m, w, pos, d)
    case None => None
    case Some(c) =>
      if !InGrid(|m|, w, pos) then None
      else Some(Set(Set(c, w, Next(pos, d), Get(c, w, pos)), w, pos, Space))
  }

  /** Clearing only touches cells strictly further along `d` than `pos`. */
  lemma {:induction false} ClearFrame(m: Map, w: nat, pos: Pos, d: Direction, q: Pos)
    requires Rect(m, w) && Clear(m, w, pos, d).Some? && InGrid(|m|, w, q) && Along(q, d) <= Along(pos, d)
    ensures Get(Clear(m, w, pos, d).value, w, q) == Get(m, w, q)
    decreases Dist(|m|, w, pos, d), 0
  {
    var n := Next(pos, d);
    StepCloser(|m|, w, pos, d);
    match Get(m, w, n)
    case Box => ForceFrame(m, w, n, d, q);
    case BoxL =>
      ForceFrame(m, w, n, d, q);
      if Offset(d).0 == 0 {
        var m1 := Force(m, w, n, d).value;
        ForceFrame(m1, w, (n.0 + 1, n.1), d, q);
      }
    case BoxR =>
      ForceFrame(m, w, n, d, q);
      if Offset(d).0 == 0 {
        var m1 := Force(m, w, n, d).value;
        ForceFrame(m1, w, (n.0 - 1, n.1), d, q);
      }
    case _ =>
  }

  /** Forcing touches `pos` and cells further along `d`, and nothing behind or beside it. */
  lemma {:induction false} ForceFrame(m: Map, w: nat, pos: Pos, d: Direction, q: Pos)
    requires Rect(m, w) && Force(m, w, pos, d).Some? && InGrid(|m|, w, q)
    requires Along(q, d) < Along(pos, d) || (Along(q, d) == Along(pos, d) && q != pos)
    ensures Get(Force(m, w, pos, d).value, w, q) == Get(m, w, q)
    decreases Dist(|m|, w, pos, d), 1
  {
    ClearFrame(m, w, pos, d, q);
  }

  /** After forcing, `pos` is floor and the cell ahead holds what `pos` held. */
  lemma ForceMoves(m: Map, w: nat, pos: Pos, d: Direction)
    requires Rect(m, w) && Force(m, w, pos, d).Some?
    ensures InGrid(|m|, w, pos) && InGrid(|m|, w, Next(pos, d))
    ensures Get(Force(m, w, pos, d).value, w, pos) == Space
    ensures Get(Force(m, w, pos, d).value, w, Next(pos, d)) == Get(m, w, pos)
  {
    ClearFrame(m, w, pos, d, pos);
  }

  /**
   * Clearing empties the cell ahead, so the copy overwrites only floor:
   * pushing destroys nothing that was not a wall.
   */
  lemma ClearFrees(m: Map, w: nat, pos: Pos, d: Direction)
    requires Rect(m, w) && Clear(m, w, pos, d).Some?
    ensures InGrid(|m|, w, Next(pos, d))
    ensures Get(m, w, Next(pos, d)) != Wall ==> Get(Clear(m, w, pos, d).value, w, Next(pos, d)) == Space
  {
    var n := Next(pos, d);
    StepCloser(|m|, w, pos, d);
    var t := Get(m, w, n);
    if t == Box || ((t == BoxL || t == BoxR) && Offset(d).0 != 0) {
      assert Clear(m, w, pos, d) == Force(m, w, n, d);
      ForceMoves(m, w, n, d);
    } else if t == BoxL {
      PairFrees(m, w, n, (n.0 + 1, n.1), d);
    } else if t == BoxR {
      PairFrees(m, w, n, (n.0 - 1, n.1), d);
    }
  }

  /** Forcing both halves of a wide box vertically leaves floor where the first half was. */
  lemma PairFrees(m: Map, w: nat, n: Pos, s: Pos, d: Direction)
    requires Rect(m, w) && Force(m, w, n, d).Some?
    requires Force(Force(m, w, n, d).value, w, s, d).Some?
    requires Offset(d).0 == 0 && s.1 == n.1 && s != n
    ensures InGrid(|m|, w, n) && Get(Force(Force(m, w, n, d).value, w, s, d).value, w, n) == Space
  {
    ForceMoves(m, w, n, d);
    ForceFrame(Force(m, w, n, d).value, w, s, d, n);
  }

  // ---------------------------------------------------------------------
  // The warehouse in place

  function Contents(room: array2<Tile>): (m: Map)
    reads room
    ensures |m| == room.Length0 && Rect(m, room.Length1)
    ensures forall y, x | 0 <= y < room.Length0 && 0 <= x < room.Length1 :: m[y][x] == room[y, x]
  {
    seq(room.Length0, y requires 0 <= y < room.Length0 reads room =>
      seq(room.Length1, x requires 0 <= x < room.Length1 reads room => room[y, x]))
  }

  lemma SameContents(room: array2<Tile>, m: Map)
    requires |m| == room.Length0 && Rect(m, room.Length1)
    requires forall y, x | 0 <= y < room.Length0 && 0 <= x < room.Length1 :: m[y][x] == room[y, x]
    ensures Contents(room) == m
  {
    var c := Contents(room);
    forall y | 0 <= y < |m|
      ensures c[y] == m[y]
    {
      assert |c[y]| == |m[y]|;
    }
  }

  /** The first half of `apply_force` in place: the cells ahead become what `Clear` describes. */
  method ClearAhead(room: array2<Tile>, pos: Pos, d: Direction)
    requires Clear(Contents(room), room.Length1, pos, d).Some?
    modifies room
    ensures Contents(room) == Clear(old(Contents(room)), room.Length1, pos, d).value
    decreases Dist(room.Length0, room.Length1, pos, d), 0
  {
    ghost var m := Contents(room);
    var n := Next(pos, d);
    StepCloser(room.Length0, room.Length1, pos, d);
    var t := room[n.1, n.0];
    assert t == Get(m, room.Length1, n);
    if t == Box || ((t == BoxL || t == BoxR) && Offset(d).0 != 0) {
      assert Clear(m, room.Length1, pos, d) == Force(m, room.Length1, n, d);
      ApplyForce(room, n, d);
    } else if t == BoxL || t == BoxR {
      // a wide box pushed vertically: both halves, the one ahead first
      var s := if t == BoxL then (n.0 + 1, n.1) else (n.0 - 1, n.1);
      assert Clear(m, room.Length1, pos, d) ==
        match Force(m, room.Length1, n, d)
        case None => None
        case Some(m1) => Force(m1, room.Length1, s, d);
      ApplyForce(room, n, d);
      ApplyForce(room, s, d);
    } else {
      assert Clear(m, room.Length1, pos, d) == Some(m);
      SameContents(room, m);
    }
  }

  /** `apply_force` on the warehouse in place: the map becomes what `Force` describes. */
  method ApplyForce(room: array2<Tile>, pos: Pos, d: Direction)
    requires Force(Contents(room), room.Length1, pos, d).Some?
    modifies room
    ensures Contents(room) == Force(old(Contents(room)), room.Length1, pos, d).value
    decreases Dist(room.Length0, room.Length1, pos, d), 1
  {
    ghost var m := Contents(room);
    var w := room.Length1;
    ClearAhead(room, pos, d);
    ghost var c := Contents(room);
    var n := Next(pos, d);
    room[n.1, n.0] := room[pos.1, pos.0];
    room[pos.1, pos.0] := Space;
    SameContents(room, Set(Set(c, w, n, Get(c, w, pos)), w, pos, Space));
  }

  /**
   * `move_robot`: when `can_move` holds, force the robot's cell and step
   * the robot one cell along `d`; otherwise nothing changes.
   */
  method MoveRobot(room: array2<Tile>, pos: Pos, d: Direction) returns (pos': Pos)
    requires CanMove(Contents(room), room.Length1, pos, d).Some?
    requires CanMove(Contents(room), room.Length1, pos, d) == Some(true) ==> Force(Contents(room), room.Length1, pos, d).Some?
    modifies room
    ensures Move(old(Contents(room)), room.Length1, pos, d) == Some((Contents(room), pos'))
  {
    if CanMove(Contents(room), room.Length1, pos, d) == Some(true) {
      ApplyForce(room, pos, d);
      pos' := Next(pos, d);
    } else {
      pos' := pos;
    }
  }

  /** One move of the robot as a value: the new room and position, or `None` for a panic. */
  function Move(m: Map, w: nat, pos: Pos, d: Direction): (r: Option<(Map, Pos)>)
    requires Rect(m, w)
    ensures r.Some? ==> |r.value.0| == |m| && Rect(r.value.0, w)
  {
    match CanMove(m, w, pos, d)
    case None => None
    case Some(false) => Some((m, pos))
    case Some(true) =>
      match Force(m, w, pos, d)
      case None => None
      case Some(m') => Some((m', Next(pos, d)))
  }

  /** A robot that moves steps exactly one cell along `d` and leaves floor behind; one that does not leaves everything as it was. */
  lemma MoveSteps(m: Map, w: nat, pos: Pos, d: Direction)
    requires Rect(m, w) && Move(m, w, pos, d).Some?
    ensures var (m', pos') := Move(m, w, pos, d).value;
      (pos' == pos && m' == m)
      || (pos' == Next(pos, d) && InGrid(|m|, w, pos) && Get(m', w, pos) == Space && Get(m', w, pos') == Get(m, w, pos))
  {
    if CanMove(m, w, pos, d) == Some(true) {
      ForceMoves(m, w, pos, d);
    }
  }

  /** All the moves in order, stopping at the first panic. */
  function Run(m: Map, w: nat, pos: Pos, moves: seq<Direction>): (r: Option<(Map, Pos)>)
    requires Rect(m, w)
    ensures r.Some? ==> |r.value.0| == |m| && Rect(r.value.0, w)
    decreases |moves|
  {
    if moves == [] then Some((m, pos))
    else
      match Move(m, w, pos, moves[0])
      case None => None
      case Some((m', pos')) => Run(m', w, pos', moves[1..])
  }

  lemma RunSnoc(m: Map, w: nat, pos: Pos, moves: seq<Direction>, d: Direction)
    requires Rect(m, w)
    ensures Run(m, w, pos, moves + [d]) ==
      match Run(m, w, pos, moves)
      case None => None
      case Some((m', pos')) => Move(m', w, pos', d)
    decreases |moves|
  {
    if moves == [] {
      assert [d][1..] == [];
    } else {
      assert (moves + [d])[1..] == moves[1..] + [d];
      match Move(m, w, pos, moves[0])
      case None =>
      case Some((m', pos')) => RunSnoc(m', w, pos', moves[1..], d);
    }
  }

  /** The robot's walk over the warehouse in place, one `move_robot` per move. */
  method Walk(room: array2<Tile>, pos: Pos, moves: seq<Direction>) returns (pos': Pos)
    requires Run(Contents(room), room.Length1, pos, moves).Some?
    modifies room
    ensures Run(old(Contents(room)), room.Length1, pos, moves) == Some((Contents(room), pos'))
  {
    ghost var m0 := Contents(room);
    pos' := pos;
    for i := 0 to |moves|
      invariant Run(m0, room.Length1, pos, moves[..i]) == Some((Contents(room), pos'))
    {
      RunSnoc(m0, room.Length1, pos, moves[..i], moves[i]);
      assert moves[..i + 1] == moves[..i] + [moves[i]];
      RunPrefix(m0, room.Length1, pos, moves, i + 1);
      pos' := MoveRobot(room, pos', moves[i]);
    }
    assert moves[..|moves|] == moves;
  }

  /** A run that does not panic does not panic on any prefix either. */
  lemma {:induction false} RunPrefix(m: Map, w: nat, pos: Pos, moves: seq<Direction>, k: nat)
    requires Rect(m, w) && Run(m, w, pos, moves).Some? && k <= |moves|
    ensures Run(m, w, pos, moves[..k]).Some?
    decreases |moves|
  {
    if k > 0 {
      var (m', pos') := Move(m, w, pos, moves[0]).value;
      RunPrefix(m', w, pos', moves[1..], k - 1);
      assert moves[..k][1..] == moves[1..][..k - 1];
    }
  }

  // ---------------------------------------------------------------------
  // Scores

  /** x + 100 y over the cells of `row` (row `y`, columns below `k`) holding `t`. */
  function RowScore(row: seq<Tile>, y: int, t: Tile, k: nat): int
    requires k <= |row|
  {
    if k == 0 then 0 else RowScore(row, y, t, k - 1) + (if row[k - 1] == t then (k - 1) + 100 * y else 0)
  }

  /** x + 100 y over the cells of the first `k` rows holding `t`. */
  function GridScore(m: Map, t: Tile, k: nat): int
    requires k <= |m|
  {
    if k == 0 then 0 else GridScore(m, t, k - 1) + RowScore(m[k - 1], k - 1, t, |m[k - 1]|)
  }

  /** The score of one more cell. */
  lemma RowScoreStep(row: seq<Tile>, y: int, t: Tile, k: nat)
    requires k < |row|
    ensures RowScore(row, y, t, k + 1) == RowScore(row, y, t, k) + (if row[k] == t then k + 100 * y else 0)
  {
  }

  /** The coordinate sum of the parts: row-major over the room, adding x + 100 y for each tile `t`. */
  method CoordinateSum(room: array2<Tile>, t: Tile) returns (sum: int)
    ensures sum == GridScore(Contents(room), t, room.Length0)
  {
    ghost var m := Contents(room);
    sum := 0;
    for y := 0 to room.Length0
      invariant sum == GridScore(m, t, y)
    {
      for x := 0 to room.Length1
        invariant sum == GridScore(m, t, y) + RowScore(m[y], y, t, x)
      {
        RowScoreStep(m[y], y, t, x);
        if room[y, x] == t {
          sum := sum + (x + y * 100);
        }
      }
    }
  }

  /** A score is a sum of non-negative coordinates, and 0 on a room without the tile. */
  lemma {:induction false} GridScoreBounds(m: Map, t: Tile, k: nat)
    requires k <= |m|
    ensures GridScore(m, t, k) >= 0
    ensures (forall y, x | 0 <= y < k && 0 <= x < |m[y]| :: m[y][x] != t) ==> GridScore(m, t, k) == 0
  {
    if k > 0 {
      GridScoreBounds(m, t, k - 1);
      RowScoreBounds(m[k - 1], k - 1, t, |m[k - 1]|);
    }
  }

  lemma {:induction false} RowScoreBounds(row: seq<Tile>, y: nat, t: Tile, k: nat)
    requires k <= |row|
    ensures RowScore(row, y, t, k) >= 0
    ensures (forall x | 0 <= x < k :: row[x] != t) ==> RowScore(row, y, t, k) == 0
  {
    if k > 0 {
      RowScoreBounds(row, y, t, k - 1);
    }
  }

  // ---------------------------------------------------------------------
  // The parts

  /** Only the tiles parsing produces. */
  predicate Narrow(m: Map)
  {
    forall y, x | 0 <= y < |m| && 0 <= x < |m[y]| :: m[y][x] in {Box, Space, Wall}
  }

  /** Part b's room: every tile doubled in width, a box becoming its two halves. */
  function Widen(m: Map, w: nat): (r: Map)
    requires Rect(m, w) && Narrow(m)
    ensures |r| == |m| && Rect(r, 2 * w)
    ensures forall y, x | 0 <= y < |m| && 0 <= x < 2 * w ::
      r[y][x] == match m[y][x / 2] case Box => (if x % 2 == 0 then BoxL else BoxR) case other => other
  {
    seq(|m|, y requires 0 <= y < |m| =>
      seq(2 * w, x requires 0 <= x < 2 * w =>
        match m[y][x / 2] case Box => (if x % 2 == 0 then BoxL else BoxR) case other => other))
  }

  /** In the widened room every `[` has its `]` right beside it and every box its two halves. */
  lemma WidenPairs(m: Map, w: nat, y: int, x: int)
    requires Rect(m, w) && Narrow(m) && 0 <= y < |m| && 0 <= x < w
    ensures Widen(m, w)[y][2 * x] == BoxL <==> m[y][x] == Box
    ensures Widen(m, w)[y][2 * x] == BoxL <==> Widen(m, w)[y][2 * x + 1] == BoxR
  {
    assert (2 * x) / 2 == x && (2 * x) % 2 == 0;
    assert (2 * x + 1) / 2 == x && (2 * x + 1) % 2 == 1;
  }

  /**
   * Part a: run every move on a copy of the room and sum x + 100 y over the
   * boxes.  Requires that no move panics.
   */
  method PartA(m: Map, w: nat, pos: Pos, moves: seq<Direction>) returns (score: int)
    requires Rect(m, w) && Run(m, w, pos, moves).Some?
    ensures score == GridScore(Run(m, w, pos, moves).value.0, Box, |m|)
  {
    var room := new Tile[|m|, w]((y, x) requires 0 <= y < |m| && 0 <= x < w => m[y][x]);
    SameContents(room, m);
    var _ := Walk(room, pos, moves);
    score := CoordinateSum(room, Box);
  }

  /**
   * Part b: the same on the widened room with the robot's x doubled,
   * summing over the left halves of the boxes.
   */
  method PartB(m: Map, w: nat, pos: Pos, moves: seq<Direction>) returns (score: int)
    requires Rect(m, w) && Narrow(m) && Run(Widen(m, w), 2 * w, (2 * pos.0, pos.1), moves).Some?
    ensures score == GridScore(Run(Widen(m, w), 2 * w, (2 * pos.0, pos.1), moves).value.0, BoxL, |m|)
  {
    var wide := Widen(m, w);
    var room := new Tile[|m|, 2 * w]((y, x) requires 0 <= y < |m| && 0 <= x < 2 * w => wide[y][x]);
    SameContents(room, wide);
    var _ := Walk(room, (2 * pos.0, pos.1), moves);
    score := CoordinateSum(room, BoxL);
  }

  // ---------------------------------------------------------------------
  // Parsing

  /** A map character: `#` is wall, `O` a box, anything else (the robot `@` included) floor. */
  function TileOf(c: char): (t: Tile)
    ensures t in {Box, Space, Wall}
    ensures t == Wall <==> c == '#'
    ensures t == Box <==> c == 'O'
  {
    if c == '#' then Wall else if c == 'O' then Box else Space
  }

  /** The character a narrow tile is drawn with. */
  function TileChar(t: Tile): char
  {
    match t
    case Wall => '#'
    case Box => 'O'
    case _ => '.'
  }

  lemma TileRoundTrip(t: Tile)
    requires t in {Box, Space, Wall}
    ensures TileOf(TileChar(t)) == t
  {
  }

  /** The map lines as tiles, row by row; they hold only the tiles parsing produces. */
  function ParseMap(lines: seq<string>): (m: Map)
    ensures |m| == |lines| && Narrow(m)
    ensures forall y | 0 <= y < |lines| :: |m[y]| == |lines[y]|
    ensures forall y, x | 0 <= y < |lines| && 0 <= x < |lines[y]| :: m[y][x] == TileOf(lines[y][x])
  {
    seq(|lines|, y requires 0 <= y < |lines| =>
      seq(|lines[y]|, x requires 0 <= x < |lines[y]| => TileOf(lines[y][x])))
  }

  /** The column of the last `@` among the first `k` characters of `line`. */
  function LastRobot(line: string, k: nat): (r: Option<nat>)
    requires k <= |line|
    ensures r.Some? ==> r.value < k && line[r.value] == '@' && forall x | r.value < x < k :: line[x] != '@'
    ensures r.None? ==> forall x | 0 <= x < k :: line[x] != '@'
  {
    if k == 0 then None
    else if line[k - 1] == '@' then Some(k - 1)
    else LastRobot(line, k - 1)
  }

  /**
   * Where the robot starts, as (x, y): the last `@` in reading order among
   * the first `k` lines (a later one overwrites an earlier one), or (1, 1)
   * when there is none.
   */
  function RobotStart(lines: seq<string>, k: nat): (r: Pos)
    requires k <= |lines|
    ensures (0 <= r.1 < k && 0 <= r.0 < |lines[r.1]| && lines[r.1][r.0] == '@'
             && (forall x | r.0 < x < |lines[r.1]| :: lines[r.1][x] != '@')
             && (forall y, x | r.1 < y < k && 0 <= x < |lines[y]| :: lines[y][x] != '@'))
      || (r == (1, 1) && forall y, x | 0 <= y < k && 0 <= x < |lines[y]| :: lines[y][x] != '@')
  {
    if k == 0 then (1, 1)
    else
      match LastRobot(lines[k - 1], |lines[k - 1]|)
      case Some(x) => (x, k - 1)
      case None => RobotStart(lines, k - 1)
  }

  /** The moves: every arrow character in order, anything else (line breaks) skipped. */
  function ParseMoves(text: string): (r: seq<Direction>)
    ensures |r| <= |text|
  {
    if text == [] then []
    else
      var rest := ParseMoves(text[1..]);
      match text[0]
      case '^' => [Up] + rest
      case 'v' => [Down] + rest
      case '<' => [Left] + rest
      case '>' => [Right] + rest
      case _ => rest
  }

  function Arrow(d: Direction): char
  {
    match d
    case Up => '^'
    case Down => 'v'
    case Left => '<'
    case Right => '>'
  }

  /** Moves written with their arrows and followed by one non-arrow character parse back to themselves. */
  lemma {:induction false} MovesRoundTrip(ds: seq<Direction>, gap: char)
    requires gap !in {'^', 'v', '<', '>'}
    ensures ParseMoves(seq(|ds|, i requires 0 <= i < |ds| => Arrow(ds[i])) + [gap]) == ds
  {
    var text := seq(|ds|, i requires 0 <= i < |ds| => Arrow(ds[i])) + [gap];
    if ds == [] {
      assert text == [gap];
      assert ParseMoves(text[1..]) == [];
    } else {
      MovesRoundTrip(ds[1..], gap);
      assert text[1..] == seq(|ds[1..]|, i requires 0 <= i < |ds[1..]| => Arrow(ds[1..][i])) + [gap];
      assert text[0] == Arrow(ds[0]);
      assert ds == [ds[0]] + ds[1..];
    }
  }
}
