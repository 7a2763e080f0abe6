/**
 * Year 2024, day 13: claw machines.  Button A moves the claw by `a`, button B
 * by `b`; a press of A costs 3 tokens and one of B costs 1.  The source solves
 * the 2x2 system with Cramer's rule and pays only for a positive integral
 * solution.
 */
module Y2024Day13 {
  import opened Common

  datatype Machine = Machine(a: (int, int), b: (int, int), prize: (int, int))

  /** The offset part b adds to both prize coordinates. */
  const FAR_OFFSET: int := 10000000000000

  function Det(m: Machine): int
  {
    m.a.0 * m.b.1 - m.b.0 * m.a.1
  }

  /** Pressing A `pa` times and B `pb` times lands on the (shifted) prize. */
  predicate Solves(m: Machine, offset: int, pa: int, pb: int)
  {
    pa * m.a.0 + pb * m.b.0 == m.prize.0 + offset &&
    pa * m.a.1 + pb * m.b.1 == m.prize.1 + offset
  }

  /**
   * The cost of one machine: the adjugate applied to the prize, divided by
   * the determinant when both products are divisible by it.  A zero
   * determinant makes the source's `%` panic: `None`.  Rust's `%` and `/`
   * truncate, but only a zero remainder and an exact quotient are used, on
   * which truncating and Euclidean division agree.
   */
  function Cost(m: Machine, offset: int): (r: Option<int>)
    ensures r.None? <==> Det(m) == 0
    ensures r.Some? ==> r.value >= 0
  {
    var det := Det(m);
    if det == 0 then None
    else
      var u0, u1 := m.prize.0 + offset, m.prize.1 + offset;
      var mtu0 := m.b.1 * u0 + (-m.b.0) * u1;
      var mtu1 := (-m.a.1) * u0 + m.a.0 * u1;
      if mtu0 % det != 0 || mtu1 % det != 0 then Some(0)
      else
        var pa, pb := mtu0 / det, mtu1 / det;
        if pa <= 0 || pb <= 0 then Some(0)
        else Some(pa * 3 + pb)
  }

  /** The adjugate turns a solution into the determinant times the solution. */
  lemma AdjugateOfSolution(m: Machine, offset: int, pa: int, pb: int)
    requires Solves(m, offset, pa, pb)
    ensures m.b.1 * (m.prize.0 + offset) + (-m.b.0) * (m.prize.1 + offset) == Det(m) * pa
    ensures (-m.a.1) * (m.prize.0 + offset) + m.a.0 * (m.prize.1 + offset) == Det(m) * pb
  {
    var u0, u1 := m.prize.0 + offset, m.prize.1 + offset;
    calc {
      m.b.1 * u0 + (-m.b.0) * u1;
      m.b.1 * (pa * m.a.0 + pb * m.b.0) - m.b.0 * (pa * m.a.1 + pb * m.b.1);
      pa * (m.a.0 * m.b.1 - m.b.0 * m.a.1);
    }
    calc {
      (-m.a.1) * u0 + m.a.0 * u1;
      m.a.0 * (pa * m.a.1 + pb * m.b.1) - m.a.1 * (pa * m.a.0 + pb * m.b.0);
      pb * (m.a.0 * m.b.1 - m.b.0 * m.a.1);
    }
  }

  /** Cramer's rule backwards, on plain integers: x0 a0 + x1 b0 == det u0 when (x0, x1) is the adjugate product. */
  lemma AdjugateRow(a0: int, a1: int, b0: int, b1: int, u0: int, u1: int, x0: int, x1: int)
    requires x0 == b1 * u0 - b0 * u1 && x1 == a0 * u1 - a1 * u0
    ensures a0 * x0 + b0 * x1 == (a0 * b1 - b0 * a1) * u0
  {
  }

  /** Conversely, the determinant times a vector equal to the adjugate product solves the system. */
  lemma SolutionOfAdjugate(m: Machine, offset: int, pa: int, pb: int)
    requires Det(m) != 0
    requires m.b.1 * (m.prize.0 + offset) + (-m.b.0) * (m.prize.1 + offset) == Det(m) * pa
    requires (-m.a.1) * (m.prize.0 + offset) + m.a.0 * (m.prize.1 + offset) == Det(m) * pb
    ensures Solves(m, offset, pa, pb)
  {
    var det := Det(m);
    var u0, u1 := m.prize.0 + offset, m.prize.1 + offset;
    var x0, x1 := det * pa, det * pb;
    AdjugateRow(m.a.0, m.a.1, m.b.0, m.b.1, u0, u1, x0, x1);
    AdjugateRow(m.b.1, m.b.0, m.a.1, m.a.0, -u1, -u0, -x1, -x0);
    assert det * (pa * m.a.0 + pb * m.b.0) == m.a.0 * x0 + m.b.0 * x1;
    assert det * (pa * m.a.1 + pb * m.b.1) == m.a.1 * x0 + m.b.1 * x1;
    CancelFactor(det, pa * m.a.0 + pb * m.b.0, u0);
    CancelFactor(det, pa * m.a.1 + pb * m.b.1, u1);
  }

  lemma CancelFactor(d: int, x: int, y: int)
    requires d != 0 && d * x == d * y
    ensures x == y
  {
    assert d * (x - y) == 0;
  }

  /** An exact multiple has remainder 0 and that quotient. */
  lemma ExactDivision(x: int, d: int, q: int)
    requires d != 0 && x == d * q
    ensures x % d == 0 && x / d == q
  {
    if d > 0 {
      ModUnique(x, d, q, 0);
    } else {
      ModUnique(x, -d, -q, 0);
      assert x % d == x % (-d);
    }
  }

  /** When the claw can reach the prize with positive presses, the machine costs 3a + b for them. */
  lemma SolutionIsPaid(m: Machine, offset: int, pa: int, pb: int)
    requires Det(m) != 0
    requires Solves(m, offset, pa, pb) && pa > 0 && pb > 0
    ensures Cost(m, offset) == Some(3 * pa + pb)
  {
    AdjugateOfSolution(m, offset, pa, pb);
    ExactDivision(m.b.1 * (m.prize.0 + offset) + (-m.b.0) * (m.prize.1 + offset), Det(m), pa);
    ExactDivision((-m.a.1) * (m.prize.0 + offset) + m.a.0 * (m.prize.1 + offset), Det(m), pb);
  }

  /** A machine that costs something is paid for a positive solution of its system. */
  lemma PaidIsSolution(m: Machine, offset: int)
    requires Cost(m, offset).Some? && Cost(m, offset).value != 0
    ensures exists pa, pb :: pa > 0 && pb > 0 && Solves(m, offset, pa, pb) && Cost(m, offset).value == 3 * pa + pb
  {
    var det := Det(m);
    var mtu0 := m.b.1 * (m.prize.0 + offset) + (-m.b.0) * (m.prize.1 + offset);
    var mtu1 := (-m.a.1) * (m.prize.0 + offset) + m.a.0 * (m.prize.1 + offset);
    var pa, pb := mtu0 / det, mtu1 / det;
    assert mtu0 == det * pa && mtu1 == det * pb;
    SolutionOfAdjugate(m, offset, pa, pb);
  }

  /** A machine without a positive solution costs nothing. */
  lemma UnreachableIsFree(m: Machine, offset: int)
    requires Det(m) != 0
    requires forall pa, pb :: pa > 0 && pb > 0 ==> !Solves(m, offset, pa, pb)
    ensures Cost(m, offset) == Some(0)
  {
    if Cost(m, offset).value != 0 {
      PaidIsSolution(m, offset);
    }
  }

  /** The total over the machines; any zero determinant panics. */
  function Total(machines: seq<Machine>, offset: int): (r: Option<int>)
    ensures r.Some? <==> forall i | 0 <= i < |machines| :: Det(machines[i]) != 0
    ensures r.Some? ==> r.value >= 0
  {
    if machines == [] then Some(0)
    else
      match (Total(machines[..|machines| - 1], offset), Cost(machines[|machines| - 1], offset))
      case (Some(t), Some(c)) => Some(t + c)
      case _ => None
  }

  function PartA(machines: seq<Machine>): Option<int>
  {
    Total(machines, 0)
  }

  function PartB(machines: seq<Machine>): Option<int>
  {
    Total(machines, FAR_OFFSET)
  }

  lemma ExampleMachines()
    ensures Cost(Machine((94, 34), (22, 67), (8400, 5400)), 0) == Some(280)
    ensures Cost(Machine((26, 66), (67, 21), (12748, 12176)), 0) == Some(0)
    ensures Cost(Machine((17, 86), (84, 37), (7870, 6450)), 0) == Some(200)
    ensures Cost(Machine((69, 23), (27, 71), (18641, 10279)), 0) == Some(0)
  {
    SolutionIsPaid(Machine((94, 34), (22, 67), (8400, 5400)), 0, 80, 40);
    SolutionIsPaid(Machine((17, 86), (84, 37), (7870, 6450)), 0, 38, 86);
  }

  /** The example of the puzzle: 480 tokens win the two reachable prizes. */
  lemma Example(machines: seq<Machine>)
    requires machines == [Machine((94, 34), (22, 67), (8400, 5400)), Machine((26, 66), (67, 21), (12748, 12176)),
                          Machine((17, 86), (84, 37), (7870, 6450)), Machine((69, 23), (27, 71), (18641, 10279))]
    ensures PartA(machines) == Some(480)
  {
    ExampleMachines();
    var m1, m2, m3 := machines[..1], machines[..2], machines[..3];
    assert m1[..0] == [] && m2[..1] == m1 && m3[..2] == m2 && machines[..3] == m3;
    assert Total(m1, 0) == Some(280);
    assert Total(m2, 0) == Some(280);
    assert Total(m3, 0) == Some(480);
  }
}
