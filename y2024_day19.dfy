/**
 * Year 2024, day 19: towel patterns.  A pattern is a string of stripe
 * colours; the towels on offer are strings too, each available without
 * limit.  `constructable` counts, by dynamic programming over prefixes, the
 * ways to write a pattern as a concatenation of towels.
 */
module Y2024Day19 {

  /**
   * The source's match test: `a.bytes().zip(b.bytes()).all(|(x, y)| x == y)`,
   * which compares only up to the end of the shorter side.
   */
  predicate ZipAll(a: string, b: string)
  {
    forall k | 0 <= k < |a| && k < |b| :: a[k] == b[k]
  }

  /** With enough of the pattern left, the zipped test says that the towel is the next piece of it. */
  lemma ZipAllIsPiece(pattern: string, i: nat, towel: string)
    requires |towel| <= i <= |pattern|
    ensures ZipAll(pattern[i - |towel|..], towel) <==> pattern[i - |towel|..i] == towel
  {
    var s := pattern[i - |towel|..];
    if ZipAll(s, towel) {
      assert forall k | 0 <= k < |towel| :: pattern[i - |towel|..i][k] == s[k] == towel[k];
    }
  }

  predicate NonEmpty(towels: seq<string>)
  {
    forall j | 0 <= j < |towels| :: |towels[j]| > 0
  }

  /** `p` ends with the non-empty towel `t`. */
  predicate EndsWith(p: string, t: string)
  {
    0 < |t| <= |p| && p[|p| - |t|..] == t
  }

  /**
   * Reference definition: the number of ways to write `p` as a
   * concatenation of towels, counted by the last towel used.  The empty
   * pattern has one way, the empty concatenation.
   */
  function Ways(towels: seq<string>, p: string): nat
    decreases |p|, 1, 0
  {
    if |p| == 0 then 1 else Pieces(towels, p, |towels|)
  }

  /** The ways to write `p` whose last towel is one of the first `k` towels. */
  function Pieces(towels: seq<string>, p: string, k: nat): nat
    requires k <= |towels|
    decreases |p|, 0, k
  {
    if k == 0 then 0
    else
      var t := towels[k - 1];
      Pieces(towels, p, k - 1) + (if EndsWith(p, t) then Ways(towels, p[..|p| - |t|]) else 0)
  }

  /**
   * `constructable`: `prior[i]` counts the ways to build the first `i`
   * stripes.  The source assumes non-empty towels; an empty one would double
   * `prior[i]`.
   */
  method Constructable(towels: seq<string>, pattern: string) returns (r: nat)
    requires NonEmpty(towels)
    ensures r == Ways(towels, pattern)
  {
    var prior := new nat[|pattern| + 1](_ => 0);
    prior[0] := 1;
    for i := 1 to |pattern| + 1
      invariant forall j | 0 <= j < i :: prior[j] == Ways(towels, pattern[..j])
      invariant forall j | i <= j <= |pattern| :: prior[j] == 0
    {
      ghost var p := pattern[..i];
      for k := 0 to |towels|
        invariant forall j | 0 <= j < i :: prior[j] == Ways(towels, pattern[..j])
        invariant forall j | i < j <= |pattern| :: prior[j] == 0
        invariant prior[i] == Pieces(towels, p, k)
      {
        var towel := towels[k];
        if i >= |towel| {
          ZipAllIsPiece(pattern, i, towel);
          assert p[|p| - |towel|..] == pattern[i - |towel|..i];
          assert p[..|p| - |towel|] == pattern[..i - |towel|];
          if ZipAll(pattern[i - |towel|..], towel) {
            prior[i] := prior[i] + prior[i - |towel|];
          }
        }
      }
    }
    assert pattern[..|pattern|] == pattern;
    r := prior[|pattern|];
  }

  predicate ValidPicks(towels: seq<string>, picks: seq<nat>)
  {
    forall n | 0 <= n < |picks| :: picks[n] < |towels|
  }

  /** The concatenation of the towels picked by `picks`, in order. */
  function Concat(towels: seq<string>, picks: seq<nat>): string
    requires ValidPicks(towels, picks)
  {
    if picks == [] then [] else Concat(towels, picks[..|picks| - 1]) + towels[picks[|picks| - 1]]
  }

  /** Some towel among the first `k` ends `p` and leaves a buildable rest. */
  lemma {:induction false} PiecesPositive(towels: seq<string>, p: string, k: nat)
    requires k <= |towels| && Pieces(towels, p, k) > 0
    ensures exists j | 0 <= j < k :: EndsWith(p, towels[j]) && Ways(towels, p[..|p| - |towels[j]|]) > 0
  {
    var t := towels[k - 1];
    if !(EndsWith(p, t) && Ways(towels, p[..|p| - |t|]) > 0) {
      PiecesPositive(towels, p, k - 1);
    }
  }

  /** Each towel that ends `p` contributes its rest's ways. */
  lemma {:induction false} PiecesAtLeast(towels: seq<string>, p: string, k: nat, j: nat)
    requires j < k <= |towels| && EndsWith(p, towels[j])
    ensures Pieces(towels, p, k) >= Ways(towels, p[..|p| - |towels[j]|])
  {
    if j < k - 1 {
      PiecesAtLeast(towels, p, k - 1, j);
    }
  }

  /** A pattern with a positive count is a concatenation of towels. */
  lemma {:induction false} WaysPositiveIsConcat(towels: seq<string>, p: string)
    requires Ways(towels, p) > 0
    ensures exists picks :: ValidPicks(towels, picks) && Concat(towels, picks) == p
    decreases |p|
  {
    if |p| == 0 {
      assert ValidPicks(towels, []) && Concat(towels, []) == p;
    } else {
      PiecesPositive(towels, p, |towels|);
      var j :| 0 <= j < |towels| && EndsWith(p, towels[j]) && Ways(towels, p[..|p| - |towels[j]|]) > 0;
      var rest := p[..|p| - |towels[j]|];
      WaysPositiveIsConcat(towels, rest);
      var picks: seq<nat> :| ValidPicks(towels, picks) && Concat(towels, picks) == rest;
      var more: seq<nat> := picks + [j];
      assert more[..|more| - 1] == picks;
      assert rest + towels[j] == p;
      assert ValidPicks(towels, more) && Concat(towels, more) == p;
    }
  }

  /** A concatenation of non-empty towels has a positive count. */
  lemma {:induction false} ConcatHasWays(towels: seq<string>, picks: seq<nat>)
    requires NonEmpty(towels) && ValidPicks(towels, picks)
    ensures Ways(towels, Concat(towels, picks)) > 0
    decreases |picks|
  {
    if picks != [] {
      var init, j := picks[..|picks| - 1], picks[|picks| - 1];
      var rest, p := Concat(towels, init), Concat(towels, picks);
      ConcatHasWays(towels, init);
      assert p == rest + towels[j];
      assert p[..|p| - |towels[j]|] == rest;
      assert EndsWith(p, towels[j]);
      PiecesAtLeast(towels, p, |towels|, j);
    }
  }

  /** Part a's test: the count is positive exactly when the pattern is a concatenation of towels. */
  lemma PossibleIffConcat(towels: seq<string>, p: string)
    requires NonEmpty(towels)
    ensures Ways(towels, p) > 0 <==> exists picks :: ValidPicks(towels, picks) && Concat(towels, picks) == p
  {
    if Ways(towels, p) > 0 {
      WaysPositiveIsConcat(towels, p);
    }
    if exists picks :: ValidPicks(towels, picks) && Concat(towels, picks) == p {
      var picks: seq<nat> :| ValidPicks(towels, picks) && Concat(towels, picks) == p;
      ConcatHasWays(towels, picks);
    }
  }

  /** The number of patterns with at least one way. */
  function Possible(towels: seq<string>, patterns: seq<string>): nat
  {
    if patterns == [] then 0
    else Possible(towels, patterns[..|patterns| - 1]) + (if Ways(towels, patterns[|patterns| - 1]) > 0 then 1 else 0)
  }

  /** The ways summed over the patterns. */
  function TotalWays(towels: seq<string>, patterns: seq<string>): nat
  {
    if patterns == [] then 0
    else TotalWays(towels, patterns[..|patterns| - 1]) + Ways(towels, patterns[|patterns| - 1])
  }

  /** Every possible pattern has at least one way, so part a never exceeds part b. */
  lemma {:induction false} PossibleAtMostTotal(towels: seq<string>, patterns: seq<string>)
    ensures Possible(towels, patterns) <= TotalWays(towels, patterns)
    decreases |patterns|
  {
    if patterns != [] {
      PossibleAtMostTotal(towels, patterns[..|patterns| - 1]);
    }
  }

  /** `part_a`: the patterns with more than zero ways. */
  method PartA(towels: seq<string>, patterns: seq<string>) returns (count: nat)
    requires NonEmpty(towels)
    ensures count == Possible(towels, patterns)
  {
    count := 0;
    for i := 0 to |patterns|
      invariant count == Possible(towels, patterns[..i])
    {
      var ways := Constructable(towels, patterns[i]);
      assert patterns[..i + 1][..i] == patterns[..i];
      if ways > 0 {
        count := count + 1;
      }
    }
    assert patterns[..|patterns|] == patterns;
  }

  /** `part_b`: the ways summed over the patterns. */
  method PartB(towels: seq<string>, patterns: seq<string>) returns (count: nat)
    requires NonEmpty(towels)
    ensures count == TotalWays(towels, patterns)
  {
    count := 0;
    for i := 0 to |patterns|
      invariant count == TotalWays(towels, patterns[..i])
    {
      var ways := Constructable(towels, patterns[i]);
      assert patterns[..i + 1][..i] == patterns[..i];
      count := count + ways;
    }
    assert patterns[..|patterns|] == patterns;
  }
}
