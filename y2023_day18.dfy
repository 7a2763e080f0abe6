/**
 * Year 2023, day 18: a lagoon dug along a rectilinear closed path.  The
 * source walks the dig plan once, accumulating the shoelace sum and the
 * perimeter, and applies Pick's theorem to count the dug cells.
 */
module Y2023Day18 {
  import opened Common

  datatype Direction = R | L | D | U

  /** `Direction::as_vec`; y grows downwards. */
  function AsVec(d: Direction): (r: (int, int))
    ensures Abs(r.0) + Abs(r.1) == 1
  {
    match d
    case R => (1, 0)
    case L => (-1, 0)
    case U => (0, -1)
    case D => (0, 1)
  }

  /** One move of the plan as `calc_area` receives it. */
  type Move = (Direction, int)

  datatype Instruction = Instruction(direction: Direction, steps: nat, color: nat)

  /** The corner reached after the moves, starting at the origin. */
  function Corner(moves: seq<Move>): (int, int)
  {
    if moves == [] then (0, 0)
    else
      var p := Corner(moves[..|moves| - 1]);
      var (d, s) := moves[|moves| - 1];
      var v := AsVec(d);
      (p.0 + s * v.0, p.1 + s * v.1)
  }

  /** The shoelace term of the edge from `p` to `q`: twice the signed area of the triangle (0, p, q). */
  function Cross(p: (int, int), q: (int, int)): int
  {
    p.0 * q.1 - q.0 * p.1
  }

  /** Reference definition: the shoelace sum over the path's edges. */
  function Shoelace(moves: seq<Move>): int
  {
    if moves == [] then 0
    else Shoelace(moves[..|moves| - 1]) + Cross(Corner(moves[..|moves| - 1]), Corner(moves))
  }

  /** The length of the path. */
  function Perimeter(moves: seq<Move>): int
  {
    if moves == [] then 0 else Perimeter(moves[..|moves| - 1]) + moves[|moves| - 1].1
  }

  /**
   * The term the source adds for one move: with the new position `q` and the
   * direction `v`, `s * (q.y * v.x - q.x * v.y)`.  It is the negated shoelace
   * term of the edge.
   */
  lemma StepTerm(p: (int, int), d: Direction, s: int)
    ensures var v := AsVec(d);
            var q := (p.0 + s * v.0, p.1 + s * v.1);
            s * (q.1 * v.0 - q.0 * v.1) == -Cross(p, q)
  {
    var v := AsVec(d);
    match d
    case R =>
    case L =>
    case U =>
    case D =>
  }

  /** Pick's theorem: interior cells plus boundary cells, from twice the area and the boundary length. */
  function PickCount(twiceArea: int, boundary: int): int
  {
    (Abs(twiceArea) + boundary) / 2 + 1
  }

  /**
   * `calc_area`: one pass updating the position, the negated shoelace sum
   * and the perimeter.
   */
  method CalcArea(moves: seq<Move>) returns (area: int)
    ensures area == PickCount(Shoelace(moves), Perimeter(moves))
  {
    var position := (0, 0);
    var sum, len := 0, 0;
    for i := 0 to |moves|
      invariant position == Corner(moves[..i])
      invariant sum == -Shoelace(moves[..i])
      invariant len == Perimeter(moves[..i])
    {
      var (d, s) := moves[i];
      var v := AsVec(d);
      ghost var p := position;
      position := (position.0 + s * v.0, position.1 + s * v.1);
      StepTerm(p, d, s);
      assert moves[..i + 1][..i] == moves[..i];
      sum, len := sum + s * (position.1 * v.0 - position.0 * v.1), len + s;
    }
    assert moves[..|moves|] == moves;
    area := (Abs(sum) + len) / 2 + 1;
  }

  /** A square of side a, dug right, down, left and up, closes at the origin with shoelace sum 2a² and perimeter 4a. */
  lemma {:induction false} ShoelaceOfClosedSquare(a: nat)
    ensures var sq := [(R, a as int), (D, a as int), (L, a as int), (U, a as int)];
            Corner(sq) == (0, 0) && Shoelace(sq) == 2 * a * a && Perimeter(sq) == 4 * a
  {
    var sq := [(R, a as int), (D, a as int), (L, a as int), (U, a as int)];
    var s1, s2, s3 := sq[..1], sq[..2], sq[..3];
    assert s1[..0] == [] && s2[..1] == s1 && s3[..2] == s2 && sq[..3] == s3;
    assert Corner(s1) == (a, 0);
    assert Corner(s2) == (a, a);
    assert Corner(s3) == (0, a);
    assert Shoelace(s1) == 0;
    assert Cross((a, 0), (a, a)) == a * a;
    assert Shoelace(s2) == a * a;
    assert Cross((a, a), (0, a)) == a * a;
    assert Shoelace(s3) == 2 * a * a;
    assert Cross((0, a), (0, 0)) == 0;
    assert Corner(sq) == (0, 0);
    assert Perimeter(s1) == a && Perimeter(s2) == 2 * a && Perimeter(s3) == 3 * a;
  }

  /** The lagoon dug around a square of side a covers (a + 1)^2 cells. */
  lemma SquareLagoon(a: nat)
    ensures var sq := [(R, a as int), (D, a as int), (L, a as int), (U, a as int)];
            PickCount(Shoelace(sq), Perimeter(sq)) == (a + 1) * (a + 1)
  {
    ShoelaceOfClosedSquare(a);
    assert (2 * a * a + 4 * a) / 2 + 1 == (a + 1) * (a + 1);
  }

  /** `part_a`: the moves as written in the plan. */
  method PartA(plan: seq<Instruction>) returns (area: int)
    ensures area == PickCount(Shoelace(PlanMoves(plan)), Perimeter(PlanMoves(plan)))
  {
    area := CalcArea(PlanMoves(plan));
  }

  function PlanMoves(plan: seq<Instruction>): (r: seq<Move>)
    ensures |r| == |plan|
    ensures forall i | 0 <= i < |plan| :: r[i] == (plan[i].direction, plan[i].steps as int)
  {
    seq(|plan|, i requires 0 <= i < |plan| => (plan[i].direction, plan[i].steps as int))
  }

  /** `part_b`'s reading of the colour: the direction from `color % 4`, the steps from `color >> 4`. */
  function Decode(color: nat): (r: Move)
    ensures r.1 == color / 16
  {
    var direction := match color % 4
      case 0 => R
      case 1 => D
      case 2 => L
      case _ => U;
    (direction, color / 16)
  }

  function DigitDirection(digit: nat): Direction
    requires digit < 4
  {
    [R, D, L, U][digit]
  }

  /** The colour is five hex digits of distance followed by one hex digit 0-3 of direction. */
  lemma DecodeEncode(steps: nat, digit: nat)
    requires digit < 4
    ensures Decode(16 * steps + digit) == (DigitDirection(digit), steps)
  {
    ModUnique(16 * steps + digit, 4, 4 * steps, digit);
    ModUnique(16 * steps + digit, 16, steps, digit);
  }

  function ColorMoves(plan: seq<Instruction>): (r: seq<Move>)
    ensures |r| == |plan|
    ensures forall i | 0 <= i < |plan| :: r[i] == Decode(plan[i].color)
  {
    seq(|plan|, i requires 0 <= i < |plan| => Decode(plan[i].color))
  }

  /** `part_b`: the moves decoded from the colours. */
  method PartB(plan: seq<Instruction>) returns (area: int)
    ensures area == PickCount(Shoelace(ColorMoves(plan)), Perimeter(ColorMoves(plan)))
  {
    area := CalcArea(ColorMoves(plan));
  }
}
