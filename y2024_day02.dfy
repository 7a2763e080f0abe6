/**
 * Year 2024, day 2: reactor reports.  A report (a list of levels) is safe when
 * it moves strictly in one direction by steps of at most 3; the problem
 * dampener tolerates one bad level.  The source checks this with one
 * recursion over slice patterns, `is_safe`.
 */
module Y2024Day02 {
  import opened Common

  datatype Ordering = Less | Equal | Greater

  /** `Ord::cmp` on integers. */
  function Cmp(x: int, y: int): (r: Ordering)
    ensures r == Less <==> x < y
    ensures r == Greater <==> x > y
  {
    if x < y then Less else if x > y then Greater else Equal
  }

  /** One step from `x` to `y` is allowed in direction `ord`. */
  predicate Step(x: int, y: int, ord: Ordering)
  {
    Cmp(x, y) == ord && Abs(x - y) <= 3
  }

  /** Reference definition: every adjacent pair is an allowed step. */
  predicate Safe(xs: seq<int>, ord: Ordering)
  {
    forall i | 0 <= i < |xs| - 1 :: Step(xs[i], xs[i + 1], ord)
  }

  /** The report with level `k` taken out. */
  function Remove(xs: seq<int>, k: nat): (r: seq<int>)
    requires k < |xs|
    ensures |r| == |xs| - 1
  {
    xs[..k] + xs[k + 1..]
  }

  /**
   * `is_safe`: with `removed` unset, the middle of three levels may be
   * skipped once (checking the first against the third), and the last of two
   * levels may be dropped.
   */
  function IsSafe(xs: seq<int>, removed: bool, ord: Ordering): bool
    decreases |xs|
  {
    if |xs| >= 3 then
      (Step(xs[0], xs[1], ord) && IsSafe(xs[1..], removed, ord))
      || (!removed && Step(xs[0], xs[2], ord) && IsSafe(xs[2..], true, ord))
    else if |xs| == 2 then
      !removed || Step(xs[0], xs[1], ord)
    else
      true
  }

  lemma SafeCons(x: int, xs: seq<int>, ord: Ordering)
    requires xs != []
    ensures Safe([x] + xs, ord) <==> Step(x, xs[0], ord) && Safe(xs, ord)
  {
    var s := [x] + xs;
    if Step(x, xs[0], ord) && Safe(xs, ord) {
      forall i | 0 <= i < |s| - 1
        ensures Step(s[i], s[i + 1], ord)
      {
        if i > 0 {
          assert s[i] == xs[i - 1] && s[i + 1] == xs[i];
        }
      }
    }
    if Safe(s, ord) {
      assert s[0] == x && s[1] == xs[0];
      forall i | 0 <= i < |xs| - 1
        ensures Step(xs[i], xs[i + 1], ord)
      {
        assert s[i + 1] == xs[i] && s[i + 2] == xs[i + 1];
      }
    }
  }

  /** With the removal used up, `is_safe` is exactly the reference check. */
  lemma {:induction false} IsSafeWithoutRemoval(xs: seq<int>, ord: Ordering)
    ensures IsSafe(xs, true, ord) <==> Safe(xs, ord)
    decreases |xs|
  {
    if |xs| >= 2 {
      IsSafeWithoutRemoval(xs[1..], ord);
      assert xs == [xs[0]] + xs[1..];
      SafeCons(xs[0], xs[1..], ord);
    }
  }

  lemma RemoveCons(xs: seq<int>, k: nat)
    requires 1 <= k < |xs|
    ensures Remove(xs, k) == [xs[0]] + Remove(xs[1..], k - 1)
  {
  }

  /**
   * With the removal still available, `is_safe` holds exactly when dropping
   * one level other than the first makes the report safe.
   */
  lemma {:induction false} IsSafeWithRemoval(xs: seq<int>, ord: Ordering)
    requires |xs| >= 2
    ensures IsSafe(xs, false, ord) <==> exists k | 1 <= k < |xs| :: Safe(Remove(xs, k), ord)
    decreases |xs|
  {
    if |xs| == 2 {
      assert Safe(Remove(xs, 1), ord);
    } else {
      var x, y, z := xs[0], xs[1], xs[2];
      var tail := xs[1..];
      IsSafeWithRemoval(tail, ord);
      IsSafeWithoutRemoval(xs[2..], ord);
      assert Remove(xs, 1) == [x] + xs[2..];
      assert xs[2..] == tail[1..];
      SafeCons(x, xs[2..], ord);
      if IsSafe(xs, false, ord) {
        if Step(x, y, ord) && IsSafe(tail, false, ord) {
          var k' :| 1 <= k' < |tail| && Safe(Remove(tail, k'), ord);
          RemoveCons(xs, k' + 1);
          SafeCons(x, Remove(tail, k'), ord);
          assert Safe(Remove(xs, k' + 1), ord);
        } else {
          assert Safe(Remove(xs, 1), ord);
        }
      } else {
        forall k | 1 <= k < |xs|
          ensures !Safe(Remove(xs, k), ord)
        {
          if k >= 2 {
            RemoveCons(xs, k);
            SafeCons(x, Remove(tail, k - 1), ord);
          }
        }
      }
    }
  }

  /** A safe report stays safe when its last level is dropped. */
  lemma SafeDropLast(xs: seq<int>, ord: Ordering)
    requires |xs| >= 1 && Safe(xs, ord)
    ensures Safe(Remove(xs, |xs| - 1), ord)
  {
    assert Remove(xs, |xs| - 1) == xs[..|xs| - 1];
  }

  /** Part a's test for one report: safe in either direction, no removal. */
  predicate SafeReport(xs: seq<int>)
  {
    IsSafe(xs, true, Less) || IsSafe(xs, true, Greater)
  }

  /** Part b's test: also tries dropping the first level (`&x[1..]`). */
  predicate TolerableReport(xs: seq<int>)
  {
    IsSafe(xs, false, Less) || IsSafe(xs, false, Greater)
    || IsSafe(xs[1..], true, Less) || IsSafe(xs[1..], true, Greater)
  }

  /** Reference definition of the problem dampener. */
  predicate SafeAfterRemoval(xs: seq<int>, ord: Ordering)
  {
    Safe(xs, ord) || exists k | 0 <= k < |xs| :: Safe(Remove(xs, k), ord)
  }

  lemma SafeReportMeaning(xs: seq<int>)
    ensures SafeReport(xs) <==> Safe(xs, Less) || Safe(xs, Greater)
  {
    IsSafeWithoutRemoval(xs, Less);
    IsSafeWithoutRemoval(xs, Greater);
  }

  lemma {:induction false} TolerableInDirection(xs: seq<int>, ord: Ordering)
    requires |xs| >= 1
    ensures IsSafe(xs, false, ord) || IsSafe(xs[1..], true, ord) <==> SafeAfterRemoval(xs, ord)
  {
    IsSafeWithoutRemoval(xs[1..], ord);
    assert Remove(xs, 0) == xs[1..];
    if |xs| >= 2 {
      IsSafeWithRemoval(xs, ord);
      if Safe(xs, ord) {
        SafeDropLast(xs, ord);
      }
    } else {
      assert Safe(xs, ord);
    }
  }

  /**
   * Part b accepts a report exactly when it, or the report with any one level
   * removed, is safe in some direction.
   */
  lemma TolerableReportMeaning(xs: seq<int>)
    ensures TolerableReport(xs) <==> SafeAfterRemoval(xs, Less) || SafeAfterRemoval(xs, Greater)
  {
    if xs == [] {
      assert Safe(xs, Less);
    } else {
      TolerableInDirection(xs, Less);
      TolerableInDirection(xs, Greater);
    }
  }

  /** Every report safe for part a is accepted by part b. */
  lemma SafeIsTolerable(xs: seq<int>)
    requires SafeReport(xs)
    ensures TolerableReport(xs)
  {
    SafeReportMeaning(xs);
    TolerableReportMeaning(xs);
  }

  /** The number of reports for which `p` holds. */
  function CountWhere(reports: seq<seq<int>>, p: seq<int> -> bool): (r: nat)
    ensures r <= |reports|
  {
    if reports == [] then 0
    else CountWhere(reports[..|reports| - 1], p) + (if p(reports[|reports| - 1]) then 1 else 0)
  }

  function PartA(reports: seq<seq<int>>): nat
  {
    CountWhere(reports, SafeReport)
  }

  function PartB(reports: seq<seq<int>>): nat
  {
    CountWhere(reports, TolerableReport)
  }

  lemma {:induction false} CountWhereMono(reports: seq<seq<int>>, p: seq<int> -> bool, q: seq<int> -> bool)
    requires forall xs | xs in reports :: p(xs) ==> q(xs)
    ensures CountWhere(reports, p) <= CountWhere(reports, q)
  {
    if reports != [] {
      CountWhereMono(reports[..|reports| - 1], p, q);
    }
  }

  /** The dampener never rejects a report part a accepted. */
  lemma PartAAtMostPartB(reports: seq<seq<int>>)
    ensures PartA(reports) <= PartB(reports)
  {
    forall xs | xs in reports && SafeReport(xs)
      ensures TolerableReport(xs)
    {
      SafeIsTolerable(xs);
    }
    CountWhereMono(reports, SafeReport, TolerableReport);
  }

  lemma ExampleReports()
    ensures SafeReport([7, 6, 4, 2, 1]) && TolerableReport([7, 6, 4, 2, 1])
    ensures !SafeReport([1, 2, 7, 8, 9]) && !TolerableReport([1, 2, 7, 8, 9])
    ensures !SafeReport([9, 7, 6, 2, 1]) && !TolerableReport([9, 7, 6, 2, 1])
    ensures !SafeReport([1, 3, 2, 4, 5]) && TolerableReport([1, 3, 2, 4, 5])
    ensures !SafeReport([8, 6, 4, 4, 1]) && TolerableReport([8, 6, 4, 4, 1])
    ensures SafeReport([1, 3, 6, 7, 9]) && TolerableReport([1, 3, 6, 7, 9])
  {
  }

  lemma CountWhereSnoc(reports: seq<seq<int>>, p: seq<int> -> bool, xs: seq<int>)
    ensures CountWhere(reports + [xs], p) == CountWhere(reports, p) + (if p(xs) then 1 else 0)
  {
    assert (reports + [xs])[..|reports|] == reports;
  }

  lemma CountWhereSix(a: seq<int>, b: seq<int>, c: seq<int>, d: seq<int>, e: seq<int>, f: seq<int>, p: seq<int> -> bool)
    ensures CountWhere([a, b, c, d, e, f], p)
         == (if p(a) then 1 else 0) + (if p(b) then 1 else 0) + (if p(c) then 1 else 0)
          + (if p(d) then 1 else 0) + (if p(e) then 1 else 0) + (if p(f) then 1 else 0)
  {
    assert [a] == [] + [a];
    CountWhereSnoc([], p, a);
    CountWhereSnoc([a], p, b);
    CountWhereSnoc([a, b], p, c);
    CountWhereSnoc([a, b, c], p, d);
    CountWhereSnoc([a, b, c, d], p, e);
    CountWhereSnoc([a, b, c, d, e], p, f);
    assert [a] + [b] == [a, b];
    assert [a, b] + [c] == [a, b, c];
    assert [a, b, c] + [d] == [a, b, c, d];
    assert [a, b, c, d] + [e] == [a, b, c, d, e];
    assert [a, b, c, d, e] + [f] == [a, b, c, d, e, f];
  }

  /** The puzzle's example: two reports are safe, four with the dampener. */
  lemma Example()
    ensures PartA([[7, 6, 4, 2, 1], [1, 2, 7, 8, 9], [9, 7, 6, 2, 1], [1, 3, 2, 4, 5], [8, 6, 4, 4, 1], [1, 3, 6, 7, 9]]) == 2
    ensures PartB([[7, 6, 4, 2, 1], [1, 2, 7, 8, 9], [9, 7, 6, 2, 1], [1, 3, 2, 4, 5], [8, 6, 4, 4, 1], [1, 3, 6, 7, 9]]) == 4
  {
    ExampleReports();
    CountWhereSix([7, 6, 4, 2, 1], [1, 2, 7, 8, 9], [9, 7, 6, 2, 1], [1, 3, 2, 4, 5], [8, 6, 4, 4, 1], [1, 3, 6, 7, 9], SafeReport);
    CountWhereSix([7, 6, 4, 2, 1], [1, 2, 7, 8, 9], [9, 7, 6, 2, 1], [1, 3, 2, 4, 5], [8, 6, 4, 4, 1], [1, 3, 6, 7, 9], TolerableReport);
  }
}
