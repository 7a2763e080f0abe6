/** 2023 day 9: extrapolating a sequence through its table of differences, in both
    directions. Both solvers rewrite a slice of the input in place before recursing
    on a shorter slice of it. */
module Y2023Day09 {
  import opened Common

  /** The differences of neighbouring values. */
  function Diff(s: seq<int>): (r: seq<int>)
    requires |s| > 0
    ensures |r| == |s| - 1 && forall i | 0 <= i < |r| :: r[i] == s[i + 1] - s[i]
  {
    seq(|s| - 1, i requires 0 <= i < |s| - 1 => s[i + 1] - s[i])
  }

  /** The k-th row of the difference table. */
  function DiffN(s: seq<int>, k: nat): (r: seq<int>)
    requires k <= |s|
    ensures |r| == |s| - k
    decreases k
  {
    if k == 0 then s else DiffN(Diff(s), k - 1)
  }

  /** The value after the last: the last value plus the extrapolated difference. */
  function Next(s: seq<int>): int
    decreases |s|
  {
    if s == [] then 0 else s[|s| - 1] + Next(Diff(s))
  }

  /** The value before the first: the first value minus the extrapolated difference. */
  function Prev(s: seq<int>): int
    decreases |s|
  {
    if s == [] then 0 else s[0] - Prev(Diff(s))
  }

  /** What `extrapolate_right` leaves in the slice: the last value of every row of
      the difference table, the deepest row first. */
  function RightTable(s: seq<int>): (r: seq<int>)
    ensures |r| == |s|
    decreases |s|
  {
    if s == [] then [] else RightTable(Diff(s)) + [s[|s| - 1]]
  }

  /** What `extrapolate_left` leaves in the slice: the first value of every row of
      the difference table, the input row first. */
  function LeftTable(s: seq<int>): (r: seq<int>)
    ensures |r| == |s|
    decreases |s|
  {
    if s == [] then [] else [s[0]] + LeftTable(Diff(s))
  }

  /** The loop of `extrapolate_right`: `a[i] := a[i + 1] - a[i]` from left to right
      turns `a[lo..hi - 1]` into the differences of `a[lo..hi]`. */
  method DiffForward(a: array<int>, lo: nat, hi: nat)
    requires lo < hi <= a.Length
    modifies a
    ensures a[lo..hi - 1] == Diff(old(a[lo..hi]))
    ensures forall k | 0 <= k < a.Length && !(lo <= k < hi - 1) :: a[k] == old(a[k])
  {
    ghost var d := Diff(a[lo..hi]);
    for i := lo to hi - 1
      invariant forall k | lo <= k < i :: a[k] == d[k - lo]
      invariant forall k | 0 <= k < a.Length && !(lo <= k < i) :: a[k] == old(a[k])
    {
      a[i] := a[i + 1] - a[i];
    }
    assert forall k | 0 <= k < |d| :: a[lo..hi - 1][k] == d[k];
  }

  /** The loop of `extrapolate_left`: `a[i] := a[i] - a[i - 1]` from right to left
      turns `a[lo + 1..hi]` into the differences of `a[lo..hi]`. */
  method DiffBackward(a: array<int>, lo: nat, hi: nat)
    requires lo < hi <= a.Length
    modifies a
    ensures a[lo + 1..hi] == Diff(old(a[lo..hi]))
    ensures forall k | 0 <= k < a.Length && !(lo < k < hi) :: a[k] == old(a[k])
  {
    ghost var d := Diff(a[lo..hi]);
    for i := hi downto lo + 1
      invariant forall k | i <= k < hi :: a[k] == d[k - lo - 1]
      invariant forall k | 0 <= k < a.Length && !(i <= k < hi) :: a[k] == old(a[k])
    {
      a[i] := a[i] - a[i - 1];
    }
    assert forall k | 0 <= k < |d| :: a[lo + 1..hi][k] == d[k];
  }

  /** `extrapolate_right` on the slice `a[lo..hi]`: it returns the next value of the
      slice and leaves in `a[i]` the last value of row hi - 1 - i of the difference
      table; the rest of the array is untouched. */
  method ExtrapolateRight(a: array<int>, lo: nat, hi: nat) returns (r: int)
    requires lo <= hi <= a.Length
    modifies a
    ensures r == Next(old(a[lo..hi]))
    ensures a[lo..hi] == RightTable(old(a[lo..hi]))
    ensures forall k | 0 <= k < a.Length && !(lo <= k < hi) :: a[k] == old(a[k])
    decreases hi - lo
  {
    if hi == lo {
      return 0;
    }
    ghost var s := a[lo..hi];
    DiffForward(a, lo, hi);
    var e := ExtrapolateRight(a, lo, hi - 1);
    r := a[hi - 1] + e;
    assert a[lo..hi] == a[lo..hi - 1] + [a[hi - 1]];
  }

  /** `extrapolate_left` on the slice `a[lo..hi]`: it returns the previous value of
      the slice and leaves in `a[lo + i]` the first value of row i of the difference
      table; the rest of the array is untouched. */
  method ExtrapolateLeft(a: array<int>, lo: nat, hi: nat) returns (r: int)
    requires lo <= hi <= a.Length
    modifies a
    ensures r == Prev(old(a[lo..hi]))
    ensures a[lo..hi] == LeftTable(old(a[lo..hi]))
    ensures forall k | 0 <= k < a.Length && !(lo <= k < hi) :: a[k] == old(a[k])
    decreases hi - lo
  {
    if hi == lo {
      return 0;
    }
    ghost var s := a[lo..hi];
    DiffBackward(a, lo, hi);
    var e := ExtrapolateLeft(a, lo + 1, hi);
    r := a[lo] - e;
    assert a[lo..hi] == [a[lo]] + a[lo + 1..hi];
  }

  function Last(s: seq<int>): int
    requires |s| > 0
  {
    s[|s| - 1]
  }

  /** `part_a`: the sum of the next values of the lines. */
  method PartA(lines: seq<seq<int>>) returns (sum: int)
    ensures sum == Sum(seq(|lines|, i requires 0 <= i < |lines| => Next(lines[i])))
  {
    sum := 0;
    for j := 0 to |lines|
      invariant sum == Sum(seq(j, i requires 0 <= i < j => Next(lines[i])))
    {
      var a := new int[|lines[j]|](i requires 0 <= i < |lines[j]| => lines[j][i]);
      assert a[0..a.Length] == lines[j];
      var v := ExtrapolateRight(a, 0, a.Length);
      ghost var prefix := seq(j + 1, i requires 0 <= i < j + 1 => Next(lines[i]));
      assert prefix[..j] == seq(j, i requires 0 <= i < j => Next(lines[i]));
      sum := sum + v;
    }
  }

  /** `part_b`: the sum of the previous values of the lines. */
  method PartB(lines: seq<seq<int>>) returns (sum: int)
    ensures sum == Sum(seq(|lines|, i requires 0 <= i < |lines| => Prev(lines[i])))
  {
    sum := 0;
    for j := 0 to |lines|
      invariant sum == Sum(seq(j, i requires 0 <= i < j => Prev(lines[i])))
    {
      var a := new int[|lines[j]|](i requires 0 <= i < |lines[j]| => lines[j][i]);
      assert a[0..a.Length] == lines[j];
      var v := ExtrapolateLeft(a, 0, a.Length);
      ghost var prefix := seq(j + 1, i requires 0 <= i < j + 1 => Prev(lines[i]));
      assert prefix[..j] == seq(j, i requires 0 <= i < j => Prev(lines[i]));
      sum := sum + v;
    }
  }

  // ---------------------------------------------------------------------------
  // Properties

  /** A single value extrapolates to itself in both directions. */
  lemma SingleValue(v: int)
    ensures Next([v]) == v && Prev([v]) == v
  {
    assert Diff([v]) == [];
  }

  /** The extrapolated value extends the difference table consistently: the
      differences of the extended sequence are the differences extended by their own
      extrapolated value. */
  lemma {:induction false} NextExtendsDifferences(s: seq<int>)
    requires |s| > 0
    ensures Diff(s + [Next(s)]) == Diff(s) + [Next(Diff(s))]
  {
    var t := s + [Next(s)];
    assert t[|s|] - t[|s| - 1] == Next(Diff(s));
  }

  function Neg(s: seq<int>): (r: seq<int>)
    ensures |r| == |s| && forall i | 0 <= i < |s| :: r[i] == -s[i]
  {
    seq(|s|, i requires 0 <= i < |s| => -s[i])
  }

  function Reverse(s: seq<int>): (r: seq<int>)
    ensures |r| == |s| && forall i | 0 <= i < |s| :: r[i] == s[|s| - 1 - i]
  {
    seq(|s|, i requires 0 <= i < |s| => s[|s| - 1 - i])
  }

  /** Extrapolation is linear: negating the values negates the result. */
  lemma {:induction false} NextOfNeg(s: seq<int>)
    ensures Next(Neg(s)) == -Next(s)
    decreases |s|
  {
    if s != [] {
      assert Diff(Neg(s)) == Neg(Diff(s));
      NextOfNeg(Diff(s));
    }
  }

  /** Extrapolating to the left is extrapolating the reversed sequence to the right. */
  lemma {:induction false} PrevIsNextOfReverse(s: seq<int>)
    ensures Prev(s) == Next(Reverse(s))
    decreases |s|
  {
    if s != [] {
      assert Diff(Reverse(s)) == Neg(Reverse(Diff(s)));
      NextOfNeg(Reverse(Diff(s)));
      PrevIsNextOfReverse(Diff(s));
    }
  }

  /** Entry i of what `extrapolate_right` leaves is the last value of row
      |s| - 1 - i of the difference table. */
  lemma {:induction false} RightTableRows(s: seq<int>, i: nat)
    requires i < |s|
    ensures RightTable(s)[i] == Last(DiffN(s, |s| - 1 - i))
    decreases |s|
  {
    if i < |s| - 1 {
      RightTableRows(Diff(s), i);
      assert DiffN(s, |s| - 1 - i) == DiffN(Diff(s), |s| - 2 - i);
    }
  }

  /** Entry i of what `extrapolate_left` leaves is the first value of row i of the
      difference table. */
  lemma {:induction false} LeftTableRows(s: seq<int>, i: nat)
    requires i < |s|
    ensures LeftTable(s)[i] == DiffN(s, i)[0]
    decreases |s|
  {
    if i > 0 {
      LeftTableRows(Diff(s), i - 1);
    }
  }

  /** A constant sequence continues with its constant. */
  lemma {:induction false} ConstantNext(c: int, n: nat)
    ensures Next(seq(n, i => c)) == if n == 0 then 0 else c
    decreases n
  {
    if n > 0 {
      assert Diff(seq(n, i => c)) == seq(n - 1, i => 0);
      ConstantNext(0, n - 1);
    }
  }

  /** The rows of the examples, with their next and previous values. */
  lemma FirstRow(x: seq<int>)
    requires x == [0, 3, 6, 9, 12, 15]
    ensures Next(x) == 18 && Prev(x) == -3
  {
    assert Diff(x) == seq(5, i => 3);
    ConstantNext(3, 5);
    ConstantPrev(3, 5);
  }

  lemma SecondRow(y: seq<int>)
    requires y == [1, 3, 6, 10, 15, 21]
    ensures Next(y) == 28 && Prev(y) == 0
  {
    var y1 := Diff(y);
    assert y1 == [2, 3, 4, 5, 6];
    assert Diff(y1) == seq(4, i => 1);
    ConstantNext(1, 4);
    ConstantPrev(1, 4);
  }

  lemma ThirdRow(z: seq<int>)
    requires z == [10, 13, 16, 21, 30, 45]
    ensures Next(z) == 68 && Prev(z) == 5
  {
    var z1 := Diff(z);
    assert z1 == [3, 3, 5, 9, 15];
    ThirdRowDifferences(z1);
  }

  lemma ThirdRowDifferences(z1: seq<int>)
    requires z1 == [3, 3, 5, 9, 15]
    ensures Next(z1) == 23 && Prev(z1) == 5
  {
    var z2 := Diff(z1);
    assert z2 == [0, 2, 4, 6];
    assert Diff(z2) == seq(3, i => 2);
    ConstantNext(2, 3);
    ConstantPrev(2, 3);
    assert Next(z2) == 8 && Prev(z2) == -2;
  }

  /** The example: the next values sum to 114 and the previous values to 2. */
  lemma Example(x: seq<int>, y: seq<int>, z: seq<int>)
    requires x == [0, 3, 6, 9, 12, 15] && y == [1, 3, 6, 10, 15, 21] && z == [10, 13, 16, 21, 30, 45]
    ensures Next(x) + Next(y) + Next(z) == 114
    ensures Prev(x) + Prev(y) + Prev(z) == 2
  {
    FirstRow(x);
    SecondRow(y);
    ThirdRow(z);
  }

  lemma {:induction false} ConstantPrev(c: int, n: nat)
    ensures Prev(seq(n, i => c)) == if n == 0 then 0 else c
    decreases n
  {
    if n > 0 {
      assert Diff(seq(n, i => c)) == seq(n - 1, i => 0);
      ConstantPrev(0, n - 1);
    }
  }
}
