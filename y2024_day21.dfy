/**
 * 2024 day 21: a chain of robots types door codes on a numeric keypad.
 * Every robot is steered from a directional keypad; `Length` is the number of
 * presses the outermost keypad needs to move the arm `level` robots down by
 * `dir` and press the key there, and `Solve` adds up, per code, the presses
 * times the code's numeric part.
 */
module Y2024Day21 {
  import opened Common

  /** A displacement on a keypad: column then row, rows growing downwards. */
  type Vec = (int, int)

  const U64_MAX: nat := 0xFFFF_FFFF_FFFF_FFFF

  /** The empty corner of the numeric keypad, bottom left. */
  const Gap: Vec := (0, 3)

  function Sign(x: int): int
  {
    if x < 0 then -1 else if x > 0 then 1 else 0
  }

  /**
   * The cheaper of two key orders, where `blocked` says the second one would
   * sweep the arm over the gap and is not available.
   */
  function Choose(first: nat, blocked: bool, second: nat): (r: nat)
    ensures r <= first && (blocked ==> r == first)
    ensures !blocked ==> r <= second && (r == first || r == second)
  {
    if blocked then first else Min(first, second)
  }

  /** A zero move is only asked of the innermost robot. */
  predicate Movable(dir: Vec, level: nat)
  {
    level == 0 || dir != (0, 0)
  }

  /**
   * The presses the level below needs for each move a steering robot makes
   * (its arm starts on `A` of a directional keypad whose gap is top left):
   * the name gives the move and whether its key orders are restricted.
   */
  datatype Table = Table(
    l2d: nat,   // (-2, 1), restricted
    r2u: nat,   // (2, -1), restricted
    down: nat, up: nat, left: nat, right: nat,
    ld: nat,    // (-1, 1)
    ru: nat,    // (1, -1)
    lu: nat,    // (-1, -1)
    rd: nat,    // (1, 1)
    ldR: nat,   // (-1, 1), restricted
    ruR: nat)   // (1, -1), restricted

  /** `Table` entry by entry no larger than another. */
  predicate TableLe(t: Table, u: Table)
  {
    t.l2d <= u.l2d && t.r2u <= u.r2u && t.down <= u.down && t.up <= u.up
    && t.left <= u.left && t.right <= u.right && t.ld <= u.ld && t.ru <= u.ru
    && t.lu <= u.lu && t.rd <= u.rd && t.ldR <= u.ldR && t.ruR <= u.ruR
  }

  /**
   * The steering presses for a non-zero move, from the lengths `t` of the
   * moves below: a straight move is one sweep there and back, a diagonal one
   * takes the cheaper of its two key orders unless the gap blocks the second.
   */
  function Combine(dir: Vec, rt: bool, rb: bool, t: Table): nat
    requires dir != (0, 0)
  {
    var sx, sy := Sign(dir.0), Sign(dir.1);
    if sx == -1 && sy == 0 then t.l2d + t.r2u
    else if sx == 1 && sy == 0 then t.down + t.up
    else if sx == 0 && sy == -1 then t.left + t.right
    else if sx == 0 && sy == 1 then t.ld + t.ru
    else if sx == 1 && sy == 1 then Choose(t.down + t.left + t.ru, rb, t.ld + t.right + t.up)
    else if sx == 1 && sy == -1 then Choose(t.down + t.lu + t.right, rt, t.left + t.rd + t.up)
    else if sx == -1 && sy == 1 then Choose(t.ld + t.left + t.r2u, rt, t.l2d + t.right + t.ru)
    else Choose(t.left + t.ldR + t.r2u, rb, t.l2d + t.ruR + t.right)
  }

  lemma CombineMono(dir: Vec, rt: bool, rb: bool, t: Table, u: Table)
    requires dir != (0, 0) && TableLe(t, u)
    ensures Combine(dir, rt, rb, t) <= Combine(dir, rt, rb, u)
  {
  }

  /** Blocking an order can only make a move dearer. */
  lemma CombineFlagsMono(dir: Vec, rt: bool, rb: bool, rt': bool, rb': bool, t: Table)
    requires dir != (0, 0) && (rt ==> rt') && (rb ==> rb')
    ensures Combine(dir, rt, rb, t) <= Combine(dir, rt', rb', t)
  {
  }

  /** The lengths at level `lv` of the moves a steering robot makes. */
  function Below(lv: nat): (t: Table)
    decreases lv, 1
  {
    Table(
      Length((-2, 1), true, false, lv), Length((2, -1), true, false, lv),
      Length((0, 1), false, false, lv), Length((0, -1), false, false, lv),
      Length((-1, 0), false, false, lv), Length((1, 0), false, false, lv),
      Length((-1, 1), false, false, lv), Length((1, -1), false, false, lv),
      Length((-1, -1), false, false, lv), Length((1, 1), false, false, lv),
      Length((-1, 1), true, false, lv), Length((1, -1), true, false, lv))
  }

  /** The presses the robot one level up spends steering a non-zero move at level `lv`. */
  function Steer(dir: Vec, rt: bool, rb: bool, lv: nat): nat
    requires dir != (0, 0)
    decreases lv, 2
  {
    Combine(dir, rt, rb, Below(lv))
  }

  /**
   * The presses needed to move by `dir` and press at `level`: the presses the
   * robot above spends steering (none at level 0), plus one press per unit
   * step. `rt` and `rb` block the orders that would pass over the gap.
   */
  function Length(dir: Vec, rt: bool, rb: bool, level: nat): (r: nat)
    requires Movable(dir, level)
    ensures r >= Abs(dir.0) + Abs(dir.1)
    ensures level == 0 ==> r == Abs(dir.0) + Abs(dir.1)
    decreases level, 0
  {
    (if level == 0 then 0 else Steer(dir, rt, rb, level - 1)) + Abs(dir.0) + Abs(dir.1)
  }

  /** One more robot in the chain never needs fewer presses. */
  lemma {:induction false} LengthMonoLevel(dir: Vec, rt: bool, rb: bool, level: nat)
    requires dir != (0, 0)
    ensures Length(dir, rt, rb, level) <= Length(dir, rt, rb, level + 1)
    decreases level, 1
  {
    if level > 0 {
      BelowMono(level - 1);
      CombineMono(dir, rt, rb, Below(level - 1), Below(level));
      assert Steer(dir, rt, rb, level - 1) <= Steer(dir, rt, rb, level);
    }
  }

  lemma {:induction false} BelowMono(lv: nat)
    ensures TableLe(Below(lv), Below(lv + 1))
    decreases lv, 2
  {
    LengthMonoLevel((-2, 1), true, false, lv);
    LengthMonoLevel((2, -1), true, false, lv);
    LengthMonoLevel((0, 1), false, false, lv);
    LengthMonoLevel((0, -1), false, false, lv);
    LengthMonoLevel((-1, 0), false, false, lv);
    LengthMonoLevel((1, 0), false, false, lv);
    LengthMonoLevel((-1, 1), false, false, lv);
    LengthMonoLevel((1, -1), false, false, lv);
    LengthMonoLevel((-1, -1), false, false, lv);
    LengthMonoLevel((1, 1), false, false, lv);
    LengthMonoLevel((-1, 1), true, false, lv);
    LengthMonoLevel((1, -1), true, false, lv);
  }

  lemma {:induction false} LengthMonoLevels(dir: Vec, rt: bool, rb: bool, s: nat, t: nat)
    requires dir != (0, 0) && s <= t
    ensures Length(dir, rt, rb, s) <= Length(dir, rt, rb, t)
    decreases t - s
  {
    if s < t {
      LengthMonoLevel(dir, rt, rb, s);
      LengthMonoLevels(dir, rt, rb, s + 1, t);
    }
  }

  /** Blocking an order can only make a move dearer. */
  lemma FlagsMono(dir: Vec, rt: bool, rb: bool, rt': bool, rb': bool, level: nat)
    requires Movable(dir, level)
    requires (rt ==> rt') && (rb ==> rb')
    ensures Length(dir, rt, rb, level) <= Length(dir, rt', rb', level)
  {
    if level > 0 {
      CombineFlagsMono(dir, rt, rb, rt', rb', Below(level - 1));
      assert Steer(dir, rt, rb, level - 1) <= Steer(dir, rt', rb', level - 1);
    }
  }

  /** A memo key: the arguments of `Length`. */
  type Key = (Vec, bool, bool, nat)

  /** Every memo entry holds the length of its key. */
  predicate MemoOk(mem: map<Key, nat>)
  {
    forall k | k in mem :: Movable(k.0, k.3) && mem[k] == Length(k.0, k.1, k.2, k.3)
  }

  /**
   * `Length` threading a memo: a key already in the memo is answered from it,
   * otherwise the presses are computed from the level below (sharing the
   * memo) and recorded.
   */
  method LengthMemo(dir: Vec, rt: bool, rb: bool, level: nat, mem: map<Key, nat>)
    returns (r: nat, mem': map<Key, nat>)
    requires Movable(dir, level) && MemoOk(mem)
    ensures r == Length(dir, rt, rb, level)
    ensures MemoOk(mem') && mem.Keys <= mem'.Keys
    decreases level, 0
  {
    var key := (dir, rt, rb, level);
    if key in mem {
      return mem[key], mem;
    }
    var movement: nat := 0;
    mem' := mem;
    if level > 0 {
      movement, mem' := SteerMemo(dir, rt, rb, level - 1, mem);
    }
    r := movement + Abs(dir.0) + Abs(dir.1);
    mem' := mem'[key := r];
  }

  /** The steering presses of a non-zero move, each move below looked up through the memo. */
  method SteerMemo(dir: Vec, rt: bool, rb: bool, lv: nat, mem: map<Key, nat>)
    returns (movement: nat, mem': map<Key, nat>)
    requires dir != (0, 0) && MemoOk(mem)
    ensures movement == Steer(dir, rt, rb, lv)
    ensures MemoOk(mem') && mem.Keys <= mem'.Keys
    decreases lv, 6
  {
    var sx, sy := Sign(dir.0), Sign(dir.1);
    ghost var t := Below(lv);
    mem' := mem;
    if sx == -1 && sy == 0 {
      movement, mem' := Pair((-2, 1), true, (2, -1), true, lv, mem);
      assert Combine(dir, rt, rb, t) == t.l2d + t.r2u;
    } else if sx == 1 && sy == 0 {
      movement, mem' := Pair((0, 1), false, (0, -1), false, lv, mem);
      assert Combine(dir, rt, rb, t) == t.down + t.up;
    } else if sx == 0 && sy == -1 {
      movement, mem' := Pair((-1, 0), false, (1, 0), false, lv, mem);
      assert Combine(dir, rt, rb, t) == t.left + t.right;
    } else if sx == 0 && sy == 1 {
      movement, mem' := Pair((-1, 1), false, (1, -1), false, lv, mem);
      assert Combine(dir, rt, rb, t) == t.ld + t.ru;
    } else {
      movement, mem' := DiagonalMemo(dir, rt, rb, lv, mem);
    }
  }

  /** `SteerMemo` for a move along both axes: two key orders, the second possibly blocked. */
  method DiagonalMemo(dir: Vec, rt: bool, rb: bool, lv: nat, mem: map<Key, nat>)
    returns (movement: nat, mem': map<Key, nat>)
    requires dir.0 != 0 && dir.1 != 0 && MemoOk(mem)
    ensures movement == Steer(dir, rt, rb, lv)
    ensures MemoOk(mem') && mem.Keys <= mem'.Keys
    decreases lv, 5
  {
    if dir.0 > 0 && dir.1 > 0 {
      movement, mem' := RightDownMemo(dir, rt, rb, lv, mem);
    } else if dir.0 > 0 && dir.1 < 0 {
      movement, mem' := RightUpMemo(dir, rt, rb, lv, mem);
    } else if dir.0 < 0 && dir.1 > 0 {
      movement, mem' := LeftDownMemo(dir, rt, rb, lv, mem);
    } else {
      movement, mem' := LeftUpMemo(dir, rt, rb, lv, mem);
    }
  }

  method RightDownMemo(dir: Vec, rt: bool, rb: bool, lv: nat, mem: map<Key, nat>)
    returns (movement: nat, mem': map<Key, nat>)
    requires dir.0 > 0 && dir.1 > 0 && MemoOk(mem)
    ensures movement == Steer(dir, rt, rb, lv)
    ensures MemoOk(mem') && mem.Keys <= mem'.Keys
    decreases lv, 4
  {
    ghost var t := Below(lv);
    movement, mem' := ChooseMemo(((0, 1), false), ((-1, 0), false), ((1, -1), false), rb,
                                 ((-1, 1), false), ((1, 0), false), ((0, -1), false), lv, mem);
    assert Combine(dir, rt, rb, t) == Choose(t.down + t.left + t.ru, rb, t.ld + t.right + t.up);
  }

  method RightUpMemo(dir: Vec, rt: bool, rb: bool, lv: nat, mem: map<Key, nat>)
    returns (movement: nat, mem': map<Key, nat>)
    requires dir.0 > 0 && dir.1 < 0 && MemoOk(mem)
    ensures movement == Steer(dir, rt, rb, lv)
    ensures MemoOk(mem') && mem.Keys <= mem'.Keys
    decreases lv, 4
  {
    ghost var t := Below(lv);
    movement, mem' := ChooseMemo(((0, 1), false), ((-1, -1), false), ((1, 0), false), rt,
                                 ((-1, 0), false), ((1, 1), false), ((0, -1), false), lv, mem);
    assert Combine(dir, rt, rb, t) == Choose(t.down + t.lu + t.right, rt, t.left + t.rd + t.up);
  }

  method LeftDownMemo(dir: Vec, rt: bool, rb: bool, lv: nat, mem: map<Key, nat>)
    returns (movement: nat, mem': map<Key, nat>)
    requires dir.0 < 0 && dir.1 > 0 && MemoOk(mem)
    ensures movement == Steer(dir, rt, rb, lv)
    ensures MemoOk(mem') && mem.Keys <= mem'.Keys
    decreases lv, 4
  {
    ghost var t := Below(lv);
    movement, mem' := ChooseMemo(((-1, 1), false), ((-1, 0), false), ((2, -1), true), rt,
                                 ((-2, 1), true), ((1, 0), false), ((1, -1), false), lv, mem);
    assert Combine(dir, rt, rb, t) == Choose(t.ld + t.left + t.r2u, rt, t.l2d + t.right + t.ru);
  }

  method LeftUpMemo(dir: Vec, rt: bool, rb: bool, lv: nat, mem: map<Key, nat>)
    returns (movement: nat, mem': map<Key, nat>)
    requires dir.0 < 0 && dir.1 < 0 && MemoOk(mem)
    ensures movement == Steer(dir, rt, rb, lv)
    ensures MemoOk(mem') && mem.Keys <= mem'.Keys
    decreases lv, 4
  {
    ghost var t := Below(lv);
    movement, mem' := ChooseMemo(((-1, 0), false), ((-1, 1), true), ((2, -1), true), rb,
                                 ((-2, 1), true), ((1, -1), true), ((1, 0), false), lv, mem);
    assert Combine(dir, rt, rb, t) == Choose(t.left + t.ldR + t.r2u, rb, t.l2d + t.ruR + t.right);
  }

  /** A move below and whether its key orders are restricted. */
  type Leg = (Vec, bool)

  /**
   * The cheaper of two orders of three moves each, the first always and the
   * second only when not blocked typed through the memo.
   */
  method ChooseMemo(a1: Leg, a2: Leg, a3: Leg, blocked: bool, b1: Leg, b2: Leg, b3: Leg, lv: nat, mem: map<Key, nat>)
    returns (movement: nat, mem': map<Key, nat>)
    requires a1.0 != (0, 0) && a2.0 != (0, 0) && a3.0 != (0, 0)
    requires b1.0 != (0, 0) && b2.0 != (0, 0) && b3.0 != (0, 0)
    requires MemoOk(mem)
    ensures movement == Choose(Length(a1.0, a1.1, false, lv) + Length(a2.0, a2.1, false, lv) + Length(a3.0, a3.1, false, lv),
                               blocked,
                               Length(b1.0, b1.1, false, lv) + Length(b2.0, b2.1, false, lv) + Length(b3.0, b3.1, false, lv))
    ensures MemoOk(mem') && mem.Keys <= mem'.Keys
    decreases lv, 3
  {
    var first, second := 0, 0;
    first, mem' := Triple(a1, a2, a3, lv, mem);
    if !blocked {
      second, mem' := Triple(b1, b2, b3, lv, mem');
    }
    movement := Choose(first, blocked, second);
  }

  /** Three moves at the level below, one after the other, through the memo. */
  method Triple(l1: Leg, l2: Leg, l3: Leg, lv: nat, mem: map<Key, nat>)
    returns (sum: nat, mem': map<Key, nat>)
    requires l1.0 != (0, 0) && l2.0 != (0, 0) && l3.0 != (0, 0) && MemoOk(mem)
    ensures sum == Length(l1.0, l1.1, false, lv) + Length(l2.0, l2.1, false, lv) + Length(l3.0, l3.1, false, lv)
    ensures MemoOk(mem') && mem.Keys <= mem'.Keys
    decreases lv, 2
  {
    var a, c;
    a, mem' := Pair(l1.0, l1.1, l2.0, l2.1, lv, mem);
    c, mem' := LengthMemo(l3.0, l3.1, false, lv, mem');
    sum := a + c;
  }

  /** Two moves at the level below, one after the other, through the memo. */
  method Pair(e1: Vec, r1: bool, e2: Vec, r2: bool, lv: nat, mem: map<Key, nat>)
    returns (sum: nat, mem': map<Key, nat>)
    requires e1 != (0, 0) && e2 != (0, 0) && MemoOk(mem)
    ensures sum == Length(e1, r1, false, lv) + Length(e2, r2, false, lv)
    ensures MemoOk(mem') && mem.Keys <= mem'.Keys
    decreases lv, 1
  {
    var a, b;
    a, mem' := LengthMemo(e1, r1, false, lv, mem);
    b, mem' := LengthMemo(e2, r2, false, lv, mem');
    sum := a + b;
  }

  /** The numeric keypad: 7 8 9 / 4 5 6 / 1 2 3 / gap 0 A. */
  function PadPos(c: char): (r: Option<Vec>)
    ensures r.Some? ==> 0 <= r.value.0 < 3 && 0 <= r.value.1 < 4 && r.value != Gap
  {
    match c
    case '9' => Some((2, 0))
    case '8' => Some((1, 0))
    case '7' => Some((0, 0))
    case '6' => Some((2, 1))
    case '5' => Some((1, 1))
    case '4' => Some((0, 1))
    case '3' => Some((2, 2))
    case '2' => Some((1, 2))
    case '1' => Some((0, 2))
    case '0' => Some((1, 3))
    case 'A' => Some((2, 3))
    case _ => None
  }

  /** The key positions of a string, or `None` when a character is not on the pad. */
  function Positions(s: string): (r: Option<seq<Vec>>)
    ensures r.Some? ==> |r.value| == |s|
  {
    if s == [] then Some([])
    else
      match (Positions(s[..|s| - 1]), PadPos(s[|s| - 1]))
      case (Some(ps), Some(p)) => Some(ps + [p])
      case _ => None
  }

  /** The positions exist exactly when every character is a key, and are those keys' places. */
  lemma {:induction false} PositionsSpec(s: string)
    ensures Positions(s).Some? <==> forall i | 0 <= i < |s| :: PadPos(s[i]).Some?
    ensures Positions(s).Some? ==> forall i | 0 <= i < |s| :: PadPos(s[i]) == Some(Positions(s).value[i])
  {
    if s != [] {
      var init := s[..|s| - 1];
      PositionsSpec(init);
      assert forall i | 0 <= i < |init| :: init[i] == s[i];
    }
  }

  /** One move of the arm on the numeric keypad and whether an order of it is blocked. */
  datatype Move = Move(dir: Vec, restricted: bool)

  /**
   * The move from `a` to `b`. It is restricted exactly when one of its two
   * elbow corners, along the row first or along the column first, is the gap.
   */
  function StepMove(a: Vec, b: Vec): (m: Move)
    ensures m.dir.0 == b.0 - a.0 && m.dir.1 == b.1 - a.1
    ensures m.restricted <==> (b.0, a.1) == Gap || (a.0, b.1) == Gap
  {
    Move((b.0 - a.0, b.1 - a.1), (a.1 == 3 && b.0 == 0) || (b.1 == 3 && a.0 == 0))
  }

  /** The moves between consecutive positions. */
  function Windows(ps: seq<Vec>): (r: seq<Move>)
    ensures |r| == if |ps| < 2 then 0 else |ps| - 1
  {
    if |ps| < 2 then []
    else Windows(ps[..|ps| - 1]) + [StepMove(ps[|ps| - 2], ps[|ps| - 1])]
  }

  /** The `i`-th move goes from the `i`-th position to the next. */
  lemma {:induction false} WindowsAt(ps: seq<Vec>, i: nat)
    requires i + 1 < |ps|
    ensures Windows(ps)[i] == StepMove(ps[i], ps[i + 1])
  {
    if i + 2 < |ps| {
      WindowsAt(ps[..|ps| - 1], i);
    }
  }

  /** The total displacement of a run of moves. */
  function Net(ms: seq<Move>): Vec
  {
    if ms == [] then (0, 0)
    else
      var n := Net(ms[..|ms| - 1]);
      var d := ms[|ms| - 1].dir;
      (n.0 + d.0, n.1 + d.1)
  }

  /** The moves telescope: together they carry the arm from the first position to the last. */
  lemma {:induction false} NetWindows(ps: seq<Vec>)
    requires |ps| > 0
    ensures Net(Windows(ps)) == (ps[|ps| - 1].0 - ps[0].0, ps[|ps| - 1].1 - ps[0].1)
  {
    if |ps| >= 2 {
      var init := ps[..|ps| - 1];
      NetWindows(init);
      var w := Windows(ps);
      assert w[..|w| - 1] == Windows(init);
    }
  }

  /** The moves that type `code` starting from `A`, or `None` when a character is not on the pad. */
  function Moves(code: string): Option<seq<Move>>
  {
    match Positions(['A'] + code)
    case None => None
    case Some(ps) => Some(Windows(ps))
  }

  /** The moves exist exactly when every character is a key, one move per character. */
  lemma MovesSpec(code: string)
    ensures Moves(code).Some? <==> forall i | 0 <= i < |code| :: PadPos(code[i]).Some?
    ensures Moves(code).Some? ==> |Moves(code).value| == |code|
  {
    var s := ['A'] + code;
    PositionsSpec(s);
    assert forall i | 0 <= i < |code| :: s[i + 1] == code[i];
    assert PadPos(s[0]).Some?;
  }

  /** A code that ends on `A` leaves the arm where it started. */
  lemma MovesReturn(code: string)
    requires Moves(code).Some? && |code| > 0 && code[|code| - 1] == 'A'
    ensures Net(Moves(code).value) == (0, 0)
  {
    var s := ['A'] + code;
    PositionsSpec(s);
    var ps := Positions(s).value;
    assert s[0] == 'A' && s[|s| - 1] == 'A';
    NetWindows(ps);
  }

  /**
   * The presses for a run of moves from the outermost keypad: each move's
   * length plus the press of `A` that follows it; `None` when a zero move is
   * asked of a robot, which the source treats as unreachable.
   */
  function Presses(ms: seq<Move>, steps: nat): (r: Option<nat>)
    ensures r.Some? ==> r.value >= |ms|
  {
    if ms == [] then Some(0)
    else
      var m := ms[|ms| - 1];
      match Presses(ms[..|ms| - 1], steps)
      case None => None
      case Some(p) =>
        if Movable(m.dir, steps) then Some(p + Length(m.dir, false, m.restricted, steps) + 1) else None
  }

  /** The presses are defined exactly when no robot is asked for a zero move. */
  lemma {:induction false} PressesDefined(ms: seq<Move>, steps: nat)
    ensures Presses(ms, steps).Some? <==> forall i | 0 <= i < |ms| :: Movable(ms[i].dir, steps)
  {
    if ms != [] {
      var init := ms[..|ms| - 1];
      PressesDefined(init, steps);
      assert forall i | 0 <= i < |init| :: init[i] == ms[i];
    }
  }

  /** A longer robot chain never needs fewer presses. */
  lemma {:induction false} PressesMono(ms: seq<Move>, s: nat, t: nat)
    requires 0 < s <= t && Presses(ms, s).Some?
    ensures Presses(ms, t).Some? && Presses(ms, s).value <= Presses(ms, t).value
  {
    if ms != [] {
      var m := ms[|ms| - 1];
      PressesMono(ms[..|ms| - 1], s, t);
      LengthMonoLevels(m.dir, false, m.restricted, s, t);
    }
  }

  /** `str::parse::<u64>`: an optional `+`, then at least one digit, within `u64`. */
  function ParseU64(s: string): (r: Option<nat>)
    ensures r.Some? ==> r.value <= U64_MAX
  {
    var body := if |s| > 0 && s[0] == '+' then s[1..] else s;
    if body == [] || exists k | 0 <= k < |body| :: !IsDigit(body[k]) then None
    else if Decimal(body) <= U64_MAX then Some(Decimal(body))
    else None
  }

  lemma ParseShow(n: nat)
    requires n <= U64_MAX
    ensures ParseU64(Show(n)) == Some(n)
  {
    DecimalShow(n);
  }

  /** The numeric part of a code: everything but its last character. */
  function Value(code: string): (r: Option<nat>)
    ensures |code| == 0 ==> r.None?
  {
    if |code| == 0 then None else ParseU64(code[..|code| - 1])
  }

  function Times(a: nat, b: nat): nat
  {
    a * b
  }

  /** The complexity of one code: its presses times its numeric part. */
  function Complexity(code: string, steps: nat): Option<nat>
  {
    match Moves(code)
    case None => None
    case Some(ms) =>
      match (Presses(ms, steps), Value(code))
      case (Some(p), Some(v)) => Some(Times(p, v))
      case _ => None
  }

  lemma ComplexityMono(code: string, s: nat, t: nat)
    requires 0 < s <= t && Complexity(code, s).Some?
    ensures Complexity(code, t).Some? && Complexity(code, s).value <= Complexity(code, t).value
  {
    var ms := Moves(code).value;
    PressesMono(ms, s, t);
    MulMono(Presses(ms, s).value, Presses(ms, t).value, Value(code).value);
    assert Times(Presses(ms, s).value, Value(code).value) <= Times(Presses(ms, t).value, Value(code).value);
  }

  /** The sum of some optional values, or `None` when one of them is missing. */
  function Total(cs: seq<Option<nat>>): Option<nat>
  {
    if cs == [] then Some(0)
    else
      match (Total(cs[..|cs| - 1]), cs[|cs| - 1])
      case (Some(a), Some(b)) => Some(a + b)
      case _ => None
  }

  lemma TotalStep(cs: seq<Option<nat>>, i: nat)
    requires i < |cs| && Total(cs[..i]).Some? && cs[i].Some?
    ensures Total(cs[..i + 1]) == Some(Total(cs[..i]).value + cs[i].value)
  {
    var upto := cs[..i + 1];
    assert upto[..|upto| - 1] == cs[..i];
  }

  /** One missing value makes the whole sum missing, whatever follows it. */
  lemma {:induction false} TotalFails(cs: seq<Option<nat>>, n: nat)
    requires n <= |cs| && Total(cs[..n]).None?
    ensures Total(cs).None?
  {
    if n < |cs| {
      var init := cs[..|cs| - 1];
      assert init[..n] == cs[..n];
      TotalFails(init, n);
    } else {
      assert cs[..n] == cs;
    }
  }

  /** Values present and each no larger in `cs` than in `ds` give a sum present and no larger. */
  lemma {:induction false} TotalMono(cs: seq<Option<nat>>, ds: seq<Option<nat>>)
    requires |cs| == |ds| && Total(cs).Some?
    requires forall i | 0 <= i < |cs| :: cs[i].Some? ==> ds[i].Some? && cs[i].value <= ds[i].value
    ensures Total(ds).Some? && Total(cs).value <= Total(ds).value
  {
    if cs != [] {
      var n := |cs| - 1;
      assert cs[..n][..] == cs[..n];
      TotalMono(cs[..n], ds[..n]);
    }
  }

  /** The complexity of each code. */
  function Complexities(codes: seq<string>, steps: nat): (cs: seq<Option<nat>>)
    ensures |cs| == |codes|
  {
    if codes == [] then []
    else Complexities(codes[..|codes| - 1], steps) + [Complexity(codes[|codes| - 1], steps)]
  }

  lemma {:induction false} ComplexitiesAt(codes: seq<string>, steps: nat, i: nat)
    requires i < |codes|
    ensures Complexities(codes, steps)[i] == Complexity(codes[i], steps)
  {
    if i < |codes| - 1 {
      ComplexitiesAt(codes[..|codes| - 1], steps, i);
    }
  }

  /** The sum of the complexities of all codes, or `None` when one of them fails. */
  function SolveSpec(codes: seq<string>, steps: nat): Option<nat>
  {
    Total(Complexities(codes, steps))
  }

  /** Part b's 25 robots never need fewer presses than part a's 2: the same holds for any pair of chains. */
  lemma SolveMono(codes: seq<string>, s: nat, t: nat)
    requires 0 < s <= t && SolveSpec(codes, s).Some?
    ensures SolveSpec(codes, t).Some? && SolveSpec(codes, s).value <= SolveSpec(codes, t).value
  {
    var cs, ds := Complexities(codes, s), Complexities(codes, t);
    forall i | 0 <= i < |cs| && cs[i].Some?
      ensures ds[i].Some? && cs[i].value <= ds[i].value
    {
      ComplexitiesAt(codes, s, i);
      ComplexitiesAt(codes, t, i);
      ComplexityMono(codes[i], s, t);
    }
    TotalMono(cs, ds);
  }

  /** The presses of one code's moves, each length looked up through the shared memo. */
  method CodePresses(ms: seq<Move>, steps: nat, mem: map<Key, nat>)
    returns (r: Option<nat>, mem': map<Key, nat>)
    requires MemoOk(mem)
    ensures r == Presses(ms, steps) && MemoOk(mem')
  {
    mem' := mem;
    var presses := 0;
    for j := 0 to |ms|
      invariant MemoOk(mem')
      invariant Presses(ms[..j], steps) == Some(presses)
    {
      assert ms[..j + 1][..j] == ms[..j];
      var m := ms[j];
      if !Movable(m.dir, steps) {
        PressesDefined(ms, steps);
        return None, mem';
      }
      var len;
      len, mem' := LengthMemo(m.dir, false, m.restricted, steps, mem');
      presses := presses + len + 1;
    }
    assert ms[..|ms|] == ms;
    r := Some(presses);
  }

  lemma SolveAdvance(codes: seq<string>, steps: nat, i: nat, c: nat)
    requires i < |codes| && Total(Complexities(codes, steps)[..i]).Some?
    requires Complexity(codes[i], steps) == Some(c)
    ensures Total(Complexities(codes, steps)[..i + 1]) == Some(Total(Complexities(codes, steps)[..i]).value + c)
  {
    ComplexitiesAt(codes, steps, i);
    TotalStep(Complexities(codes, steps), i);
  }

  /** The complexity of one code, its lengths looked up through the shared memo. */
  method CodeComplexity(code: string, steps: nat, mem: map<Key, nat>)
    returns (c: Option<nat>, mem': map<Key, nat>)
    requires MemoOk(mem)
    ensures c == Complexity(code, steps) && MemoOk(mem')
  {
    mem' := mem;
    var moves := Moves(code);
    if moves.None? {
      return None, mem';
    }
    var presses;
    presses, mem' := CodePresses(moves.value, steps, mem');
    var value := Value(code);
    if presses.None? || value.None? {
      return None, mem';
    }
    c := Some(Times(presses.value, value.value));
  }

  /** `solve`: one memo shared by every code, the presses of each code, times its numeric part. */
  method Solve(codes: seq<string>, steps: nat) returns (r: Option<nat>)
    ensures r == SolveSpec(codes, steps)
  {
    var mem: map<Key, nat> := map[];
    var total := 0;
    ghost var cs := Complexities(codes, steps);
    for i := 0 to |codes|
      invariant MemoOk(mem)
      invariant Total(cs[..i]) == Some(total)
    {
      var c;
      c, mem := CodeComplexity(codes[i], steps, mem);
      if c.None? {
        ComplexitiesAt(codes, steps, i);
        assert cs[..i + 1][..i] == cs[..i];
        TotalFails(cs, i + 1);
        return None;
      }
      SolveAdvance(codes, steps, i, c.value);
      total := total + c.value;
    }
    assert cs[..|codes|] == cs;
    r := Some(total);
  }

  method PartA(codes: seq<string>) returns (r: Option<nat>)
    ensures r == SolveSpec(codes, 2)
  {
    r := Solve(codes, 2);
  }

  method PartB(codes: seq<string>) returns (r: Option<nat>)
    ensures r == SolveSpec(codes, 25)
  {
    r := Solve(codes, 25);
  }
}
