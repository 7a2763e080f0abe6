/**
 * Year 2023, day 6: boat races.  Holding the button for `h` milliseconds of a
 * race lasting `time` milliseconds moves the boat `h * (time - h)` millimetres;
 * the puzzle asks how many hold times beat the record `distance`.  The source
 * answers in closed form with an integer square root.
 */
module Y2023Day06 {
  import opened Common

  /** The largest `u64`; `U64_MAX - 1` is even, which the source relies on. */
  const U64_MAX: int := 0xFFFF_FFFF_FFFF_FFFF

  /** The floor of the square root (`num_integer::Roots::sqrt` on `u64`). */
  function ISqrt(n: nat): (r: nat)
    ensures r * r <= n < (r + 1) * (r + 1)
    decreases n
  {
    if n == 0 then 0
    else
      var r0 := ISqrt(n / 4);
      assert 4 * (r0 * r0) <= n by {
        assert r0 * r0 <= n / 4;
      }
      assert n < 4 * ((r0 + 1) * (r0 + 1)) by {
        assert n / 4 + 1 <= (r0 + 1) * (r0 + 1);
      }
      DoubleSquare(r0);
      DoubleSquare(r0 + 1);
      if (2 * r0 + 1) * (2 * r0 + 1) <= n then 2 * r0 + 1 else 2 * r0
  }

  lemma DoubleSquare(x: int)
    ensures (2 * x) * (2 * x) == 4 * (x * x)
  {
  }

  lemma OddSquare(x: int)
    ensures (2 * x + 1) * (2 * x + 1) == 4 * (x * x + x) + 1
  {
  }

  lemma SquareNonNegative(x: int)
    ensures x * x >= 0
  {
  }

  /** The integer square root is determined by its defining bounds. */
  lemma ISqrtUnique(n: nat, r: nat)
    requires r * r <= n < (r + 1) * (r + 1)
    ensures ISqrt(n) == r
  {
    var s := ISqrt(n);
    if s < r {
      SquareMono(s + 1, r);
    } else if s > r {
      SquareMono(r + 1, s);
    }
  }

  /** A hold time `h` beats the record. */
  predicate Wins(time: nat, distance: nat, h: int)
  {
    0 <= h <= time && h * (time - h) > distance
  }

  /** The number of hold times in `[0, n)` that beat the record. */
  function CountWins(time: nat, distance: nat, n: nat): (r: nat)
    ensures r <= n
  {
    if n == 0 then 0
    else CountWins(time, distance, n - 1) + (if Wins(time, distance, n - 1) then 1 else 0)
  }

  /**
   * `possibilities_to_win`.  The discriminant `time^2 - 4 (distance + 1)` is a
   * `u64` subtraction, which panics when it would go negative: `None`.
   * The lower bound is written as in the source, through `u64::MAX`.
   */
  function PossibilitiesToWin(time: nat, distance: nat): (r: Option<int>)
    ensures r.None? <==> time * time < 4 * (distance + 1)
  {
    if time * time < 4 * (distance + 1) then None
    else
      var rt := ISqrt(time * time - 4 * (distance + 1));
      var a := (U64_MAX - 1) / 2 - ((U64_MAX - 1) - (time - rt)) / 2;
      var b := (time + rt) / 2;
      Some(b - a + 1)
  }

  /** The `u64::MAX` expression is the ceiling of half its argument. */
  lemma CeilHalf(x: int)
    requires 0 <= x <= U64_MAX - 1
    ensures (U64_MAX - 1) / 2 - ((U64_MAX - 1) - x) / 2 == (x + 1) / 2
  {
    var k := (U64_MAX - 1) / 2;
    assert U64_MAX - 1 == 2 * k;
    if x % 2 == 0 {
      assert (2 * k - x) / 2 == k - x / 2;
    } else {
      assert (2 * k - x) / 2 == k - (x + 1) / 2;
    }
  }

  /** `h` wins exactly when `|2h - time|` is at most the square root of the discriminant. */
  lemma WinsIffNearMiddle(time: nat, distance: nat, h: int)
    requires 0 <= h <= time
    ensures Wins(time, distance, h) <==> (2 * h - time) * (2 * h - time) <= time * time - 4 * (distance + 1)
  {
    var e := 2 * h - time;
    assert e * e == time * time - 4 * (h * (time - h));
  }

  lemma SquareMono(x: nat, y: nat)
    requires x <= y
    ensures x * x <= y * y
  {
    MulMono(x, y, x);
    MulMono(x, y, y);
  }

  /** A square is at most `n` exactly when its root is at most the integer square root `rt` of `n`. */
  lemma SquareAtMost(n: nat, rt: nat, m: nat)
    requires rt * rt <= n < (rt + 1) * (rt + 1)
    ensures m * m <= n <==> m <= rt
  {
    if m <= rt {
      SquareMono(m, rt);
    } else {
      SquareMono(rt + 1, m);
    }
  }

  /** `|2h - time| <= rt` describes the interval `[ceil((time - rt) / 2), floor((time + rt) / 2)]`. */
  lemma NearMiddleIffInInterval(time: nat, rt: nat, h: int)
    ensures Abs(2 * h - time) <= rt <==> (time - rt + 1) / 2 <= h <= (time + rt) / 2
  {
  }

  /** `h` wins exactly when it lies in `[a, b]`, the interval the source counts. */
  lemma WinsIffInInterval(time: nat, distance: nat, h: int)
    requires time * time >= 4 * (distance + 1)
    requires 0 <= h <= time
    ensures var rt := ISqrt(time * time - 4 * (distance + 1));
            Wins(time, distance, h) <==> (time - rt + 1) / 2 <= h <= (time + rt) / 2
  {
    var d := time * time - 4 * (distance + 1);
    var e := 2 * h - time;
    var m := Abs(e);
    WinsIffNearMiddle(time, distance, h);
    assert e * e == m * m;
    SquareAtMost(d, ISqrt(d), m);
    NearMiddleIffInInterval(time, ISqrt(d), h);
  }

  /** Every hold time in `[lo, hi]` (clipped to `[0, n)`) is counted by an interval. */
  lemma CountWinsInterval(time: nat, distance: nat, n: nat, lo: int, hi: int)
    requires n <= time + 1
    requires 0 <= lo
    requires forall h :: 0 <= h <= time ==> (Wins(time, distance, h) <==> lo <= h <= hi)
    ensures CountWins(time, distance, n) == Max(0, Min(n - 1, hi) - lo + 1)
  {
    if n > 0 {
      CountWinsInterval(time, distance, n - 1, lo, hi);
    }
  }

  /**
   * The closed form counts exactly the winning hold times, and fails exactly
   * when there are none.
   */
  lemma PossibilitiesCountWins(time: nat, distance: nat)
    requires time < U64_MAX
    ensures PossibilitiesToWin(time, distance).None? <==> CountWins(time, distance, time + 1) == 0
    ensures PossibilitiesToWin(time, distance).Some? ==>
              PossibilitiesToWin(time, distance).value == CountWins(time, distance, time + 1)
  {
    if time * time < 4 * (distance + 1) {
      forall h | 0 <= h <= time
        ensures !Wins(time, distance, h)
      {
        WinsIffNearMiddle(time, distance, h);
        SquareNonNegative(2 * h - time);
      }
      CountWinsInterval(time, distance, time + 1, 1, 0);
    } else {
      CountWinsClosedForm(time, distance);
    }
  }

  /** When the discriminant is non-negative, holding for `time / 2` wins. */
  lemma MiddleWins(time: nat, distance: nat)
    requires time * time >= 4 * (distance + 1)
    ensures Wins(time, distance, time / 2)
  {
    var mid := time / 2;
    WinsIffNearMiddle(time, distance, mid);
    if time % 2 == 1 {
      OddSquare(mid);
    }
  }

  lemma CountWinsClosedForm(time: nat, distance: nat)
    requires time < U64_MAX
    requires time * time >= 4 * (distance + 1)
    ensures PossibilitiesToWin(time, distance).value == CountWins(time, distance, time + 1) > 0
  {
    var d := time * time - 4 * (distance + 1);
    var rt := ISqrt(d);
    assert rt <= time by {
      SquareAtMost(d, rt, time);
    }
    CeilHalf(time - rt);
    var lo, hi := (time - rt + 1) / 2, (time + rt) / 2;
    forall h | 0 <= h <= time
      ensures Wins(time, distance, h) <==> lo <= h <= hi
    {
      WinsIffInInterval(time, distance, h);
    }
    CountWinsInterval(time, distance, time + 1, lo, hi);
    MiddleWins(time, distance);
  }

  /** Writing digit strings one after the other shifts the first by the length of the second. */
  lemma {:induction false} DecimalConcat(x: string, y: string)
    requires forall i | 0 <= i < |x| :: IsDigit(x[i])
    requires forall i | 0 <= i < |y| :: IsDigit(y[i])
    ensures Decimal(x + y) == Decimal(x) * Pow10(|y|) + Decimal(y)
  {
    if y == [] {
      assert x + y == x;
    } else {
      var y' := y[..|y| - 1];
      var c := y[|y| - 1] as int - '0' as int;
      assert (x + y)[..|x + y| - 1] == x + y';
      DecimalConcat(x, y');
      var dx, p := Decimal(x), Pow10(|y'|);
      calc {
        Decimal(x + y);
        10 * Decimal(x + y') + c;
        10 * (dx * p + Decimal(y')) + c;
        { ScaleProduct(dx, p); }
        dx * (10 * p) + (10 * Decimal(y') + c);
        dx * Pow10(|y|) + Decimal(y);
      }
    }
  }

  lemma ScaleProduct(a: int, b: int)
    ensures 10 * (a * b) == a * (10 * b)
  {
  }

  /** A race as the parser leaves it: the time and the record as digit strings. */
  type Race = (string, string)

  predicate Digits(races: seq<Race>)
  {
    forall k | 0 <= k < |races| ::
      (forall i | 0 <= i < |races[k].0| :: IsDigit(races[k].0[i])) &&
      (forall i | 0 <= i < |races[k].1| :: IsDigit(races[k].1[i]))
  }

  /** `part_a`: the product of the winning counts; a panicking race makes it panic. */
  function PartA(races: seq<Race>): (r: Option<int>)
    requires Digits(races)
    ensures r.Some? <==> forall k | 0 <= k < |races| :: PossibilitiesToWin(Decimal(races[k].0), Decimal(races[k].1)).Some?
  {
    if races == [] then Some(1)
    else
      var last := races[|races| - 1];
      match (PartA(races[..|races| - 1]), PossibilitiesToWin(Decimal(last.0), Decimal(last.1)))
      case (Some(p), Some(n)) => Some(p * n)
      case _ => None
  }

  /** The times and the records of all races, each written one after the other. */
  function Joined(races: seq<Race>): (r: Race)
    requires Digits(races)
    ensures forall i | 0 <= i < |r.0| :: IsDigit(r.0[i])
    ensures forall i | 0 <= i < |r.1| :: IsDigit(r.1[i])
    ensures |r.0| == Sum(seq(|races|, k requires 0 <= k < |races| => |races[k].0|))
  {
    if races == [] then ("", "")
    else
      var rest := Joined(races[..|races| - 1]);
      var last := races[|races| - 1];
      assert seq(|races| - 1, k requires 0 <= k < |races| - 1 => |races[..|races| - 1][k].0|)
          == seq(|races|, k requires 0 <= k < |races| => |races[k].0|)[..|races| - 1];
      (rest.0 + last.0, rest.1 + last.1)
  }

  /** `part_b`: the digit strings are read as one race, ignoring the spaces between them. */
  function PartB(races: seq<Race>): (r: Option<int>)
    requires Digits(races)
    ensures var j := Joined(races);
            r.Some? <==> Decimal(j.0) * Decimal(j.0) >= 4 * (Decimal(j.1) + 1)
  {
    var j := Joined(races);
    PossibilitiesToWin(Decimal(j.0), Decimal(j.1))
  }

  lemma ExampleRaces()
    ensures PossibilitiesToWin(7, 9) == Some(4)
    ensures PossibilitiesToWin(15, 40) == Some(8)
    ensures PossibilitiesToWin(30, 200) == Some(9)
  {
    ISqrtUnique(9, 3);
    ISqrtUnique(61, 7);
    ISqrtUnique(96, 9);
  }

  lemma ExampleDecimals()
    ensures Decimal("7") == 7 && Decimal("9") == 9
    ensures Decimal("15") == 15 && Decimal("40") == 40
    ensures Decimal("30") == 30 && Decimal("200") == 200
  {
    assert "20"[..1] == "2";
    assert "200"[..2] == "20";
  }

  lemma PartAStep(races: seq<Race>, p: int, time: nat, distance: nat, n: int)
    requires races != [] && Digits(races)
    requires PartA(races[..|races| - 1]) == Some(p)
    requires Decimal(races[|races| - 1].0) == time && Decimal(races[|races| - 1].1) == distance
    requires PossibilitiesToWin(time, distance) == Some(n)
    ensures PartA(races) == Some(p * n)
  {
  }

  lemma ExampleFirstTwo(races: seq<Race>)
    requires races == [("7", "9"), ("15", "40")]
    ensures PartA(races) == Some(32)
  {
    ExampleRaces();
    ExampleDecimals();
    ExampleDigits(races);
    var r1 := races[..1];
    assert r1 == [("7", "9")] && r1[..0] == [];
    ExampleDigits(r1);
    assert r1[0].0 == "7" && r1[0].1 == "9";
    PartAStep(r1, 1, 7, 9, 4);
    assert races[1].0 == "15" && races[1].1 == "40";
    PartAStep(races, 4, 15, 40, 8);
  }

  /** The example's times and records, or the first few of them, are digit strings. */
  lemma ExampleDigits(races: seq<Race>)
    requires races <= [("7", "9"), ("15", "40"), ("30", "200")]
    ensures Digits(races)
  {
    assert IsDigit('0') && IsDigit('1') && IsDigit('2') && IsDigit('3') && IsDigit('4');
    assert IsDigit('5') && IsDigit('7') && IsDigit('9');
    forall k | 0 <= k < |races|
      ensures forall i | 0 <= i < |races[k].0| :: IsDigit(races[k].0[i])
      ensures forall i | 0 <= i < |races[k].1| :: IsDigit(races[k].1[i])
    {
      if k == 0 {
        assert races[k] == ("7", "9");
      } else if k == 1 {
        assert races[k] == ("15", "40");
      } else {
        assert races[k] == ("30", "200");
      }
    }
  }

  /** The example of the puzzle: 288 for the three races. */
  lemma ExampleA(races: seq<Race>)
    requires races == [("7", "9"), ("15", "40"), ("30", "200")]
    ensures PartA(races) == Some(288)
  {
    ExampleRaces();
    ExampleDecimals();
    ExampleFirstTwo(races[..2]);
    ExampleDigits(races);
    assert races[2].0 == "30" && races[2].1 == "200";
    PartAStep(races, 32, 30, 200, 9);
  }

  /** The example's times, read as one digit string, make a race of 71530 ms. */
  lemma ExampleJoinedTime()
    ensures Decimal("7" + "15" + "30") == 71530
  {
    ExampleDecimals();
    DecimalConcat("7", "15");
    DecimalConcat("7" + "15", "30");
    assert Pow10(2) == 100;
  }

  /** The example read as one race of 71530 ms with record 940200 mm leaves 71503 ways to win. */
  lemma ExampleB(time: nat, distance: nat)
    requires time == 71530 && distance == 940200
    ensures PossibilitiesToWin(time, distance) == Some(71503)
  {
    var d := time * time - 4 * (distance + 1);
    assert d == 5112780096;
    ISqrtUnique(d, 71503);
    assert ISqrt(d) == 71503;
    CeilHalf(time - 71503);
    var a := (U64_MAX - 1) / 2 - ((U64_MAX - 1) - (time - 71503)) / 2;
    assert a == 14;
    assert (time + 71503) / 2 == 71516;
  }
}
