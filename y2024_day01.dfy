/**
 * Year 2024, day 1: two lists of location ids.  Part a pairs the lists up
 * after sorting both and sums the distances; part b weighs every id of the
 * left list by how often it occurs in the right list.
 */
module Y2024Day01 {
  import opened Common

  const I64_MIN: int := -0x8000_0000_0000_0000
  const I64_MAX: int := 0x7fff_ffff_ffff_ffff

  /** `str::parse::<i64>`. */
  function ParseI64(s: string): (r: Option<int>)
    ensures r.Some? ==> I64_MIN <= r.value <= I64_MAX
  {
    ParseSigned(s, I64_MIN, I64_MAX)
  }

  /** Every `i64` reads back from its decimal rendering. */
  lemma ParseShow(n: int)
    requires I64_MIN <= n <= I64_MAX
    ensures ParseI64(ShowInt(n)) == Some(n)
  {
    ParseSignedShow(n, I64_MIN, I64_MAX);
  }

  /**
   * `parse`, one line already split at whitespace: the first two tokens as
   * `i64`.  A missing token or one that does not parse makes `unwrap` panic:
   * `None`.
   */
  function ParseLine(tokens: seq<string>): (r: Option<(int, int)>)
    ensures r.Some? <==> |tokens| >= 2 && ParseI64(tokens[0]).Some? && ParseI64(tokens[1]).Some?
  {
    if |tokens| < 2 then None
    else
      match (ParseI64(tokens[0]), ParseI64(tokens[1]))
      case (Some(x), Some(y)) => Some((x, y))
      case _ => None
  }

  /** `parse` over all lines, unzipped into the left and the right list; `None` if any line panics. */
  function Parse(lines: seq<seq<string>>): (r: Option<(seq<int>, seq<int>)>)
    ensures r.Some? <==> forall i | 0 <= i < |lines| :: ParseLine(lines[i]).Some?
    ensures r.Some? ==> |r.value.0| == |r.value.1| == |lines|
    ensures r.Some? ==> forall i | 0 <= i < |lines| :: ParseLine(lines[i]) == Some((r.value.0[i], r.value.1[i]))
  {
    if lines == [] then Some(([], []))
    else
      var init := lines[..|lines| - 1];
      assert forall i | 0 <= i < |lines| - 1 :: init[i] == lines[i];
      match (Parse(init), ParseLine(lines[|lines| - 1]))
      case (Some((a, b)), Some((x, y))) => Some((a + [x], b + [y]))
      case _ => None
  }

  predicate Sorted(s: seq<int>)
  {
    forall i, j | 0 <= i < j < |s| :: s[i] <= s[j]
  }

  /** `x` put into its place in the sorted `s`. */
  function Insert(x: int, s: seq<int>): seq<int>
  {
    if s == [] || x <= s[0] then [x] + s else [s[0]] + Insert(x, s[1..])
  }

  /** Inserting adds exactly `x`. */
  lemma {:induction false} InsertCounts(x: int, s: seq<int>)
    ensures multiset(Insert(x, s)) == multiset(s) + multiset{x}
  {
    if s != [] && x > s[0] {
      InsertCounts(x, s[1..]);
      assert s == [s[0]] + s[1..];
    }
  }

  /** Inserting keeps a sequence sorted. */
  lemma {:induction false} InsertSorted(x: int, s: seq<int>)
    requires Sorted(s)
    ensures Sorted(Insert(x, s))
  {
    if s != [] && x > s[0] {
      var t := s[1..];
      var rest := Insert(x, t);
      InsertSorted(x, t);
      assert rest[0] == x || rest[0] == t[0];
      var r := [s[0]] + rest;
      forall i, j | 0 <= i < j < |r|
        ensures r[i] <= r[j]
      {
        if i == 0 {
          assert s[0] <= rest[0] <= rest[j - 1];
        } else {
          assert r[i] == rest[i - 1] && r[j] == rest[j - 1];
        }
      }
    }
  }

  /** `slice::sort` on integers: the sorted permutation. */
  function Sort(s: seq<int>): (r: seq<int>)
    ensures Sorted(r) && multiset(r) == multiset(s)
  {
    if s == [] then []
    else
      var init := Sort(s[..|s| - 1]);
      InsertSorted(s[|s| - 1], init);
      InsertCounts(s[|s| - 1], init);
      assert s == s[..|s| - 1] + [s[|s| - 1]];
      Insert(s[|s| - 1], init)
  }

  /** Two sorted sequences with the same elements are equal: sorting ignores the input order. */
  lemma {:induction false} SortedUnique(s: seq<int>, t: seq<int>)
    requires Sorted(s) && Sorted(t) && multiset(s) == multiset(t)
    ensures s == t
    decreases |s|
  {
    if s != [] {
      assert |t| == |multiset(t)| == |s| > 0;
      assert s[0] in multiset(t) && t[0] in multiset(s);
      assert s[0] == t[0] by {
        var i :| 0 <= i < |t| && t[i] == s[0];
        var j :| 0 <= j < |s| && s[j] == t[0];
        assert t[0] <= t[i] && s[0] <= s[j];
      }
      assert s == [s[0]] + s[1..] && t == [t[0]] + t[1..];
      assert multiset(s) == multiset{s[0]} + multiset(s[1..]);
      assert multiset(t) == multiset{t[0]} + multiset(t[1..]);
      assert multiset(s[1..]) == multiset(s) - multiset{s[0]};
      assert multiset(t[1..]) == multiset(t) - multiset{t[0]};
      SortedUnique(s[1..], t[1..]);
    }
  }

  /** The distances of the zipped pairs, summed; `zip` stops at the shorter list. */
  function DistanceSum(a: seq<int>, b: seq<int>): int
  {
    if a == [] || b == [] then 0 else Abs(a[0] - b[0]) + DistanceSum(a[1..], b[1..])
  }

  /** `part_a`: both lists sorted, then the pairwise distances summed. */
  method PartA(a: seq<int>, b: seq<int>) returns (sum: int)
    ensures sum == DistanceSum(Sort(a), Sort(b))
  {
    var sa, sb := Sort(a), Sort(b);
    sum := 0;
    var n := Min(|sa|, |sb|);
    for i := 0 to n
      invariant sum + DistanceSum(sa[i..], sb[i..]) == DistanceSum(sa, sb)
    {
      assert sa[i..][1..] == sa[i + 1..] && sb[i..][1..] == sb[i + 1..];
      sum := sum + Abs(sa[i] - sb[i]);
    }
  }

  /** Part a depends only on which ids the lists hold, not on their order. */
  lemma PartAIgnoresOrder(a: seq<int>, b: seq<int>, a': seq<int>, b': seq<int>)
    requires multiset(a) == multiset(a') && multiset(b) == multiset(b')
    ensures DistanceSum(Sort(a), Sort(b)) == DistanceSum(Sort(a'), Sort(b'))
  {
    SortedUnique(Sort(a), Sort(a'));
    SortedUnique(Sort(b), Sort(b'));
  }

  /** The similarity score: every id of `a`, times its number of occurrences in `b`. */
  function Similarity(a: seq<int>, b: seq<int>): int
  {
    if a == [] then 0 else Similarity(a[..|a| - 1], b) + a[|a| - 1] * multiset(b)[a[|a| - 1]]
  }

  /** An id `y` added to the right list adds `y` once per occurrence of `y` in the left list. */
  lemma {:induction false} SimilaritySnocRight(a: seq<int>, b: seq<int>, y: int)
    ensures Similarity(a, b + [y]) == Similarity(a, b) + y * multiset(a)[y]
    decreases |a|
  {
    if a != [] {
      var init, x := a[..|a| - 1], a[|a| - 1];
      SimilaritySnocRight(init, b, y);
      assert a == init + [x];
      var mb, ma := multiset(b)[x], multiset(init)[y];
      if x == y {
        assert multiset(b + [y])[x] == mb + 1 && multiset(a)[y] == ma + 1;
        TimesSucc(x, mb);
        TimesSucc(y, ma);
      } else {
        assert multiset(b + [y])[x] == mb && multiset(a)[y] == ma;
      }
    }
  }

  lemma TimesSucc(p: int, q: int)
    ensures p * (q + 1) == p * q + p
  {
  }

  /** The similarity score is symmetric: both sum `x` over the pairs of equal ids. */
  lemma {:induction false} SimilaritySymmetric(a: seq<int>, b: seq<int>)
    ensures Similarity(a, b) == Similarity(b, a)
    decreases |b|
  {
    if b == [] {
      SimilarityEmptyRight(a);
    } else {
      var init, y := b[..|b| - 1], b[|b| - 1];
      assert b == init + [y];
      SimilaritySymmetric(a, init);
      SimilaritySnocRight(a, init, y);
    }
  }

  lemma {:induction false} SimilarityEmptyRight(a: seq<int>)
    ensures Similarity(a, []) == 0
    decreases |a|
  {
    if a != [] {
      SimilarityEmptyRight(a[..|a| - 1]);
    }
  }

  /** The map of `part_b`: each id of the list to the number of times it occurs. */
  method CountIds(b: seq<int>) returns (counts: map<int, int>)
    ensures forall x | x in counts :: counts[x] == multiset(b)[x] > 0
    ensures forall x | x !in counts :: multiset(b)[x] == 0
  {
    counts := map[];
    for i := 0 to |b|
      invariant forall x | x in counts :: counts[x] == multiset(b[..i])[x] > 0
      invariant forall x | x !in counts :: multiset(b[..i])[x] == 0
    {
      assert b[..i + 1] == b[..i] + [b[i]];
      if b[i] in counts {
        counts := counts[b[i] := counts[b[i]] + 1];
      } else {
        counts := counts[b[i] := 1];
      }
    }
    assert b[..|b|] == b;
  }

  /** `part_b`: count the right list's ids in a map, then sum `x * count` over the left list. */
  method PartB(a: seq<int>, b: seq<int>) returns (sum: int)
    ensures sum == Similarity(a, b)
  {
    var counts := CountIds(b);
    sum := 0;
    for i := 0 to |a|
      invariant sum == Similarity(a[..i], b)
    {
      assert a[..i + 1][..i] == a[..i];
      var c := if a[i] in counts then counts[a[i]] else 0;
      sum := sum + c * a[i];
    }
    assert a[..|a|] == a;
  }
}
