/**
 * Year 2024, day 14: robots move in straight lines on a board that wraps
 * around at its edges.  After some seconds each robot's position is its
 * unwrapped position reduced into the board; part a counts the robots in each
 * quadrant, ignoring those on the middle row and column, and multiplies the
 * four counts; the tree search of part b downsamples the board into buckets.
 */
module Y2024Day14 {
  import opened Common

  /** A robot's start `p` and velocity `v`. */
  datatype Robot = Robot(px: int, py: int, vx: int, vy: int)

  predicate OnBoard(p: (int, int), width: int, height: int)
  {
    0 <= p.0 < width && 0 <= p.1 < height
  }

  /** One coordinate after `seconds` seconds: `rem_euclid` of the unwrapped
      coordinate. */
  function Pos(p: int, v: int, seconds: int, m: int): int
    requires m > 0
  {
    (p + v * seconds) % m
  }

  /** One robot after `seconds` seconds, coordinate by coordinate. */
  function Advance(r: Robot, width: int, height: int, seconds: int): (int, int)
    requires width > 0 && height > 0
  {
    (Pos(r.px, r.vx, seconds, width), Pos(r.py, r.vy, seconds, height))
  }

  /** `advance_robots`: one position per robot, in the same order, all on the
      board. */
  function AdvanceRobots(robots: seq<Robot>, width: int, height: int, seconds: int): (ps: seq<(int, int)>)
    requires width > 0 && height > 0
    ensures |ps| == |robots|
    ensures forall k | 0 <= k < |ps| :: OnBoard(ps[k], width, height)
  {
    seq(|robots|, k requires 0 <= k < |robots| => Advance(robots[k], width, height, seconds))
  }

  /** `rem_euclid`: the one point of the board congruent to the unwrapped
      position, in both directions. */
  lemma AdvanceCongruent(r: Robot, width: int, height: int, seconds: int, x: int)
    requires width > 0 && height > 0 && 0 <= x < width
    ensures x == Advance(r, width, height, seconds).0 <==> (x - (r.px + r.vx * seconds)) % width == 0
  {
    var a := r.px + r.vx * seconds;
    if x == a % width {
      ModUnique(x - a, width, -(a / width), 0);
    }
    if (x - a) % width == 0 {
      var q := (x - a) / width;
      ModUnique(a, width, -q, x);
    }
  }

  /** Moving `s` seconds and then `t` more is moving `s + t` seconds. */
  lemma AdvanceCompose(r: Robot, width: int, height: int, s: int, t: int)
    requires width > 0 && height > 0
    ensures var p := Advance(r, width, height, s);
      Advance(Robot(p.0, p.1, r.vx, r.vy), width, height, t) == Advance(r, width, height, s + t)
  {
    PosCompose(r.px, r.vx, s, t, width);
    PosCompose(r.py, r.vy, s, t, height);
  }

  lemma PosCompose(p: int, v: int, s: int, t: int, m: int)
    requires m > 0
    ensures Pos(Pos(p, v, s, m), v, t, m) == Pos(p, v, s + t, m)
  {
    var a, b := p + v * s, v * t;
    MulAdd(v, s, t);
    assert p + v * (s + t) == a + b;
    WrapAdd(a, b, m);
  }

  lemma MulAdd(v: int, s: int, t: int)
    ensures v * (s + t) == v * s + v * t
  {
  }

  /** Reducing before adding changes nothing modulo `m`. */
  lemma WrapAdd(a: int, b: int, m: int)
    requires m > 0
    ensures (a % m + b) % m == (a + b) % m
  {
    var c := a + b;
    assert a % m + b == (c / m - a / m) * m + c % m by {
      assert a == m * (a / m) + a % m;
      assert c == m * (c / m) + c % m;
      assert (c / m - a / m) * m == m * (c / m) - m * (a / m);
    }
    ModUnique(a % m + b, m, c / m - a / m, c % m);
  }

  /** The board repeats after `width * height` seconds. */
  lemma AdvancePeriod(r: Robot, width: int, height: int, seconds: int)
    requires width > 0 && height > 0
    ensures Advance(r, width, height, seconds + width * height) == Advance(r, width, height, seconds)
  {
    assert width * height == height * width;
    PosPeriod(r.px, r.vx, seconds, height, width);
    PosPeriod(r.py, r.vy, seconds, width, height);
  }

  /** A coordinate repeats after any multiple of its modulus. */
  lemma PosPeriod(p: int, v: int, s: int, k: int, m: int)
    requires m > 0
    ensures Pos(p, v, s + k * m, m) == Pos(p, v, s, m)
  {
    var a := p + v * s;
    assert p + v * (s + k * m) == a + (v * k) * m by {
      MulAdd(v, s, k * m);
      assert v * (k * m) == (v * k) * m;
    }
    WrapMultiple(a, v * k, m);
  }

  /** Adding a multiple of `m` changes nothing modulo `m`. */
  lemma WrapMultiple(a: int, k: int, m: int)
    requires m > 0
    ensures (a + k * m) % m == a % m
  {
    assert a + k * m == (a / m + k) * m + a % m by {
      assert a == m * (a / m) + a % m;
      assert (a / m + k) * m == m * (a / m) + k * m;
    }
    ModUnique(a + k * m, m, a / m + k, a % m);
  }

  // ---------------------------------------------------------------------------
  // Part a: quadrant counts

  /** The quadrant of a position, (0, 0) top left; `None` on the middle
      column or row, which the count skips. */
  function Quadrant(p: (int, int), width: int, height: int): (q: Option<(nat, nat)>)
    ensures q.None? <==> p.0 == width / 2 || p.1 == height / 2
    ensures q.Some? ==> (q.value.0 < 2 && q.value.1 < 2
      && (q.value.0 == 0 <==> p.0 < width / 2) && (q.value.1 == 0 <==> p.1 < height / 2))
  {
    var qx := if p.0 < width / 2 then 0 else if p.0 > width / 2 then 1 else 2;
    var qy := if p.1 < height / 2 then 0 else if p.1 > height / 2 then 1 else 2;
    if qx == 2 || qy == 2 then None else Some((qx, qy))
  }

  /** How many of the positions lie in quadrant (qx, qy). */
  function QuadrantCount(ps: seq<(int, int)>, width: int, height: int, qx: nat, qy: nat): nat
  {
    if |ps| == 0 then 0
    else (QuadrantCount(ps[..|ps| - 1], width, height, qx, qy)
      + (if Quadrant(ps[|ps| - 1], width, height) == Some((qx, qy)) then 1 else 0))
  }

  /** How many of the positions lie on the middle column or row. */
  function MiddleCount(ps: seq<(int, int)>, width: int, height: int): nat
  {
    if |ps| == 0 then 0
    else (MiddleCount(ps[..|ps| - 1], width, height)
      + (if Quadrant(ps[|ps| - 1], width, height).None? then 1 else 0))
  }

  /** Every position is counted once: in one quadrant or on a middle line. */
  lemma {:induction false} QuadrantsPartition(ps: seq<(int, int)>, width: int, height: int)
    ensures QuadrantCount(ps, width, height, 0, 0) + QuadrantCount(ps, width, height, 0, 1)
      + QuadrantCount(ps, width, height, 1, 0) + QuadrantCount(ps, width, height, 1, 1)
      + MiddleCount(ps, width, height) == |ps|
  {
    if |ps| > 0 {
      QuadrantsPartition(ps[..|ps| - 1], width, height);
    }
  }

  /** The product of the four quadrant counts, by a loop over the positions
      that increments a 2 x 2 counter. */
  method SafetyFactor(ps: seq<(int, int)>, width: int, height: int) returns (factor: nat)
    ensures factor == QuadrantCount(ps, width, height, 0, 0) * QuadrantCount(ps, width, height, 0, 1)
      * QuadrantCount(ps, width, height, 1, 0) * QuadrantCount(ps, width, height, 1, 1)
  {
    var counter := new nat[2, 2]((i, j) => 0);
    for k := 0 to |ps|
      invariant forall i, j | 0 <= i < 2 && 0 <= j < 2 :: counter[i, j] == QuadrantCount(ps[..k], width, height, i, j)
    {
      assert ps[..k + 1][..k] == ps[..k];
      var (x, y) := ps[k];
      var xi := 0;
      if x < width / 2 {
        xi := 0;
      } else if x > width / 2 {
        xi := 1;
      } else {
        continue;
      }
      var yi := 0;
      if y < height / 2 {
        yi := 0;
      } else if y > height / 2 {
        yi := 1;
      } else {
        continue;
      }
      counter[xi, yi] := counter[xi, yi] + 1;
    }
    assert ps[..|ps|] == ps;
    factor := counter[0, 0] * counter[0, 1] * counter[1, 0] * counter[1, 1];
  }

  /** `part_a`: the robots after 100 seconds on the 101 x 103 board. */
  method PartA(robots: seq<Robot>) returns (factor: nat)
    ensures var ps := AdvanceRobots(robots, 101, 103, 100);
      factor == QuadrantCount(ps, 101, 103, 0, 0) * QuadrantCount(ps, 101, 103, 0, 1)
        * QuadrantCount(ps, 101, 103, 1, 0) * QuadrantCount(ps, 101, 103, 1, 1)
  {
    factor := SafetyFactor(AdvanceRobots(robots, 101, 103, 100), 101, 103);
  }

  // ---------------------------------------------------------------------------
  // Downsampling

  /** The bucket of a position when the board is cut into `w` x `h` buckets. */
  function Bucket(p: (int, int), width: int, height: int, w: nat, h: nat): (b: (nat, nat))
    requires width > 0 && height > 0 && OnBoard(p, width, height)
    ensures w > 0 ==> b.0 < w
    ensures h > 0 ==> b.1 < h
  {
    BucketBelow(p.0, w, width);
    BucketBelow(p.1, h, height);
    (p.0 * w / width, p.1 * h / height)
  }

  lemma BucketBelow(x: nat, w: nat, width: int)
    requires 0 <= x < width
    ensures w > 0 ==> x * w / width < w
    ensures x * w / width >= 0
  {
    if w > 0 {
      MulMono(x, width - 1, w);
      assert (width - 1) * w == w * width - w;
      DivBelow(x * w, width, w);
    }
  }

  lemma DivBelow(n: nat, d: nat, w: nat)
    requires d > 0 && n < w * d
    ensures n / d < w
  {
    assert n == d * (n / d) + n % d;
    if n / d >= w {
      MulMono(w, n / d, d);
    }
  }

  /** How many positions fall in bucket (i, j). */
  function BucketCount(ps: seq<(int, int)>, width: int, height: int, w: nat, h: nat, i: nat, j: nat): nat
    requires width > 0 && height > 0 && forall k | 0 <= k < |ps| :: OnBoard(ps[k], width, height)
  {
    if |ps| == 0 then 0
    else (BucketCount(ps[..|ps| - 1], width, height, w, h, i, j)
      + (if Bucket(ps[|ps| - 1], width, height, w, h) == (i, j) then 1 else 0))
  }

  /**
   * `downsample`: a `w` x `h` counter array where each position adds one to
   * its bucket.  Every position must be on the board and the array must not
   * be empty when there are positions, or the source indexes out of range.
   */
  method Downsample(ps: seq<(int, int)>, width: int, height: int, w: nat, h: nat) returns (counter: array2<nat>)
    requires width > 0 && height > 0 && forall k | 0 <= k < |ps| :: OnBoard(ps[k], width, height)
    requires |ps| == 0 || (w > 0 && h > 0)
    ensures counter.Length0 == w && counter.Length1 == h
    ensures forall i, j | 0 <= i < w && 0 <= j < h :: counter[i, j] == BucketCount(ps, width, height, w, h, i, j)
  {
    counter := new nat[w, h]((i, j) => 0);
    for k := 0 to |ps|
      invariant forall i, j | 0 <= i < w && 0 <= j < h :: counter[i, j] == BucketCount(ps[..k], width, height, w, h, i, j)
    {
      assert ps[..k + 1][..k] == ps[..k];
      var b := Bucket(ps[k], width, height, w, h);
      counter[b.0, b.1] := counter[b.0, b.1] + 1;
    }
    assert ps[..|ps|] == ps;
  }

  /** The counts of the buckets (i, 0) .. (i, j - 1). */
  function RowTotal(ps: seq<(int, int)>, width: int, height: int, w: nat, h: nat, i: nat, j: nat): nat
    requires width > 0 && height > 0 && forall k | 0 <= k < |ps| :: OnBoard(ps[k], width, height)
  {
    if j == 0 then 0 else RowTotal(ps, width, height, w, h, i, j - 1) + BucketCount(ps, width, height, w, h, i, j - 1)
  }

  /** The counts of all buckets in columns 0 .. i - 1. */
  function GridTotal(ps: seq<(int, int)>, width: int, height: int, w: nat, h: nat, i: nat): nat
    requires width > 0 && height > 0 && forall k | 0 <= k < |ps| :: OnBoard(ps[k], width, height)
  {
    if i == 0 then 0 else GridTotal(ps, width, height, w, h, i - 1) + RowTotal(ps, width, height, w, h, i - 1, h)
  }

  lemma {:induction false} RowTotalStep(ps: seq<(int, int)>, width: int, height: int, w: nat, h: nat, i: nat, j: nat)
    requires width > 0 && height > 0 && |ps| > 0 && forall k | 0 <= k < |ps| :: OnBoard(ps[k], width, height)
    ensures var b := Bucket(ps[|ps| - 1], width, height, w, h);
      RowTotal(ps, width, height, w, h, i, j)
        == RowTotal(ps[..|ps| - 1], width, height, w, h, i, j) + (if b.0 == i && b.1 < j then 1 else 0)
  {
    if j > 0 {
      RowTotalStep(ps, width, height, w, h, i, j - 1);
    }
  }

  lemma {:induction false} GridTotalStep(ps: seq<(int, int)>, width: int, height: int, w: nat, h: nat, i: nat)
    requires width > 0 && height > 0 && h > 0 && |ps| > 0 && forall k | 0 <= k < |ps| :: OnBoard(ps[k], width, height)
    ensures var b := Bucket(ps[|ps| - 1], width, height, w, h);
      GridTotal(ps, width, height, w, h, i)
        == GridTotal(ps[..|ps| - 1], width, height, w, h, i) + (if b.0 < i then 1 else 0)
  {
    if i > 0 {
      GridTotalStep(ps, width, height, w, h, i - 1);
      RowTotalStep(ps, width, height, w, h, i - 1, h);
    }
  }

  lemma {:induction false} GridTotalEmpty(width: int, height: int, w: nat, h: nat, i: nat)
    requires width > 0 && height > 0
    ensures GridTotal([], width, height, w, h, i) == 0
  {
    if i > 0 {
      GridTotalEmpty(width, height, w, h, i - 1);
      RowTotalEmpty(width, height, w, h, i - 1, h);
    }
  }

  lemma {:induction false} RowTotalEmpty(width: int, height: int, w: nat, h: nat, i: nat, j: nat)
    requires width > 0 && height > 0
    ensures RowTotal([], width, height, w, h, i, j) == 0
  {
    if j > 0 {
      RowTotalEmpty(width, height, w, h, i, j - 1);
    }
  }

  /** Downsampling loses no robot: the buckets add up to the number of
      positions. */
  lemma {:induction false} DownsampleTotal(ps: seq<(int, int)>, width: int, height: int, w: nat, h: nat)
    requires width > 0 && height > 0 && w > 0 && h > 0 && forall k | 0 <= k < |ps| :: OnBoard(ps[k], width, height)
    ensures GridTotal(ps, width, height, w, h, w) == |ps|
  {
    if |ps| > 0 {
      DownsampleTotal(ps[..|ps| - 1], width, height, w, h);
      GridTotalStep(ps, width, height, w, h, w);
      assert Bucket(ps[|ps| - 1], width, height, w, h).0 < w;
    } else {
      GridTotalEmpty(width, height, w, h, w);
    }
  }
}
