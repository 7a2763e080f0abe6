/**
 * Year 2023, day 12: rows of springs that are operational, damaged or
 * unknown, with the lengths of the contiguous damaged blocks. The row is
 * split into groups at operational springs, and a memoised recursion counts
 * the ways to place the blocks into the groups.
 */
module Y2023Day12 {
  datatype Status = Operational | Damaged | Unknown

  /** No spring of a group is operational. */
  predicate Clean(group: seq<Status>)
  {
    forall i | 0 <= i < |group| :: group[i] != Operational
  }

  predicate AllClean(groups: seq<seq<Status>>)
  {
    forall i | 0 <= i < |groups| :: Clean(groups[i])
  }

  predicate AllUnknown(group: seq<Status>)
  {
    forall i | 0 <= i < |group| :: group[i] == Unknown
  }

  predicate AllGroupsUnknown(groups: seq<seq<Status>>)
  {
    groups == [] || (AllUnknown(groups[0]) && AllGroupsUnknown(groups[1..]))
  }

  // ---------------------------------------------------------------------
  // Grouping

  /** `position` of the first operational spring, or the length when there is none. */
  function FirstOperational(s: seq<Status>): (p: nat)
    ensures p <= |s|
  {
    if s == [] || s[0] == Operational then 0 else 1 + FirstOperational(s[1..])
  }

  /** The position found is the first operational spring: none comes before it. */
  lemma {:induction false} FirstOperationalIsFirst(s: seq<Status>)
    ensures Clean(s[..FirstOperational(s)])
    ensures FirstOperational(s) < |s| ==> s[FirstOperational(s)] == Operational
  {
    if s != [] && s[0] != Operational {
      FirstOperationalIsFirst(s[1..]);
      assert s[..FirstOperational(s)] == [s[0]] + s[1..][..FirstOperational(s[1..])];
    }
  }

  /** The maximal runs of non-operational springs, left to right. */
  function Groups(s: seq<Status>): seq<seq<Status>>
    decreases |s|
  {
    if s == [] then []
    else
      var p := FirstOperational(s);
      if p == |s| then [s]
      else if p == 0 then Groups(s[1..])
      else [s[..p]] + Groups(s[p + 1..])
  }

  /** All springs of the row that are not operational, in order. */
  function Broken(s: seq<Status>): seq<Status>
  {
    if s == [] then [] else (if s[0] == Operational then [] else [s[0]]) + Broken(s[1..])
  }

  function Concat(groups: seq<seq<Status>>): seq<Status>
  {
    if groups == [] then [] else groups[0] + Concat(groups[1..])
  }

  lemma ConcatAppend(a: seq<seq<Status>>, b: seq<seq<Status>>)
    ensures Concat(a + b) == Concat(a) + Concat(b)
  {
    if a == [] {
      assert a + b == b;
    } else {
      assert (a + b)[1..] == a[1..] + b;
      ConcatAppend(a[1..], b);
    }
  }

  lemma BrokenAppend(a: seq<Status>, b: seq<Status>)
    ensures Broken(a + b) == Broken(a) + Broken(b)
  {
    if a == [] {
      assert a + b == b;
    } else {
      assert (a + b)[1..] == a[1..] + b;
      BrokenAppend(a[1..], b);
    }
  }

  lemma BrokenClean(s: seq<Status>)
    requires Clean(s)
    ensures Broken(s) == s
  {
    if s != [] {
      BrokenClean(s[1..]);
    }
  }

  /** Every group is non-empty and holds no operational spring. */
  lemma {:induction false} GroupsClean(s: seq<Status>)
    ensures forall i | 0 <= i < |Groups(s)| :: |Groups(s)[i]| > 0 && Clean(Groups(s)[i])
    decreases |s|
  {
    if s != [] {
      var p := FirstOperational(s);
      FirstOperationalIsFirst(s);
      if p == 0 {
        GroupsClean(s[1..]);
      } else if p < |s| {
        GroupsClean(s[p + 1..]);
        var gs := Groups(s);
        forall i | 0 <= i < |gs|
          ensures |gs[i]| > 0 && Clean(gs[i])
        {
          if i > 0 {
            assert gs[i] == Groups(s[p + 1..])[i - 1];
          }
        }
      }
    }
  }

  /** Together the groups are exactly the row's non-operational springs, in order. */
  lemma {:induction false} GroupsConcat(s: seq<Status>)
    ensures Concat(Groups(s)) == Broken(s)
    decreases |s|
  {
    if s != [] {
      var p := FirstOperational(s);
      FirstOperationalIsFirst(s);
      assert Clean(s[..p]);
      BrokenClean(s[..p]);
      if p == |s| {
        assert s[..p] == s;
        assert Concat([s]) == s + Concat([]);
      } else {
        GroupsConcat(s[p + 1..]);
        assert s == s[..p] + [s[p]] + s[p + 1..];
        BrokenAppend(s[..p] + [s[p]], s[p + 1..]);
        BrokenAppend(s[..p], [s[p]]);
        assert Broken([s[p]]) == [] + Broken([]);
        if p > 0 {
          ConcatAppend([s[..p]], Groups(s[p + 1..]));
          assert Concat([s[..p]]) == s[..p] + Concat([]);
        } else {
          assert s[..p] + [s[p]] == [s[0]];
        }
      }
    }
  }

  lemma AppendAssocGroups(a: seq<seq<Status>>, b: seq<seq<Status>>, c: seq<seq<Status>>)
    ensures a + (b + c) == a + b + c
  {
  }

  /** `calc_possibilities`' loop: cut the row at each operational spring, skipping empty pieces. */
  method Group(status: seq<Status>) returns (grouped: seq<seq<Status>>)
    ensures grouped == Groups(status)
  {
    grouped := [];
    var remaining := status;
    while |remaining| > 0
      invariant grouped + Groups(remaining) == Groups(status)
      decreases |remaining|
    {
      var p := FirstOperational(remaining);
      if p == |remaining| {
        grouped := grouped + [remaining];
        break;
      }
      if p == 0 {
        remaining := remaining[1..];
        continue;
      }
      AppendAssocGroups(grouped, [remaining[..p]], Groups(remaining[p + 1..]));
      grouped := grouped + [remaining[..p]];
      remaining := remaining[p + 1..];
    }
  }

  // ---------------------------------------------------------------------
  // Counting

  /**
   * The `n`-th group from the end of `groups`, cut down to its last `m`
   * springs: the first group of a sub-problem, after the springs in front of
   * it have been skipped or taken by blocks.
   */
  function First(groups: seq<seq<Status>>, n: nat, m: nat): seq<Status>
  {
    if 0 < n <= |groups| then
      var g := groups[|groups| - n];
      if m <= |g| then g[|g| - m..] else g
    else []
  }

  /** The full length of the group after the first group of a sub-problem. */
  function NextLen(groups: seq<seq<Status>>, n: nat): nat
  {
    if 1 < n <= |groups| then |groups[|groups| - n + 1]| else 0
  }

  /** A sub-problem of the top-level call names groups and amounts that exist. */
  predicate Fits(groups: seq<seq<Status>>, amount: seq<nat>, n: nat, m: nat, d: nat)
  {
    n <= |groups| && (n > 0 ==> m <= |groups[|groups| - n]|) && d <= |amount|
  }

  /**
   * `calc_possibilities_internal` without its cache: the number of ways to
   * place the blocks `amount[d..]` into the last `n` groups, the first of
   * them cut to its last `m` springs (the source passes these as slices and
   * cuts the first group in place). A sub-problem outside the top-level
   * call counts 0.
   */
  function Count(groups: seq<seq<Status>>, amount: seq<nat>, n: nat, m: nat, d: nat): nat
    decreases n, m, 2
  {
    if !Fits(groups, amount, n, m, d) then 0
    else if n == 0 then
      if d == |amount| || (d + 1 == |amount| && amount[d] == 0) then 1 else 0
    else if d == |amount| then
      if AllUnknown(First(groups, n, m)) && AllGroupsUnknown(groups[|groups| - n + 1..]) then 1 else 0
    else if amount[d] >= m then WholeCount(groups, amount, n, m, d)
    else InsideCount(groups, amount, n, m, d)
  }

  /**
   * The block is at least as long as the first group: a group of unknown
   * springs may be skipped, and one exactly as long as the block is filled
   * by it (the spring after a group is operational).
   */
  function WholeCount(groups: seq<seq<Status>>, amount: seq<nat>, n: nat, m: nat, d: nat): nat
    decreases n, m, 1
  {
    if !Fits(groups, amount, n, m, d) || n == 0 || d >= |amount| then 0
    else
      var next, all := NextLen(groups, n), AllUnknown(First(groups, n, m));
      if amount[d] > m then
        if all then Count(groups, amount, n - 1, next, d) else 0
      else if all then Count(groups, amount, n - 1, next, d) + Count(groups, amount, n - 1, next, d + 1)
      else Count(groups, amount, n - 1, next, d + 1)
  }

  /**
   * The block is shorter than the first group: a leading damaged spring
   * starts it here; a leading unknown one may also be skipped. A group never
   * holds an operational spring (`LeadNeverOperational`), so the source's
   * `unreachable!()` case is never taken; it counts 0 here.
   */
  function InsideCount(groups: seq<seq<Status>>, amount: seq<nat>, n: nat, m: nat, d: nat): nat
    decreases n, m, 1
  {
    if !Fits(groups, amount, n, m, d) || n == 0 || d >= |amount| || amount[d] >= m then 0
    else
      var lead := First(groups, n, m)[0];
      if lead == Damaged then PlaceCount(groups, amount, n, m, d)
      else if lead == Unknown then Count(groups, amount, n, m - 1, d) + PlaceCount(groups, amount, n, m, d)
      else 0
  }

  /**
   * The block placed at the front of the first group: the spring right
   * after it must be unknown, and becomes operational.
   */
  function PlaceCount(groups: seq<seq<Status>>, amount: seq<nat>, n: nat, m: nat, d: nat): nat
    decreases n, m, 0
  {
    if !Fits(groups, amount, n, m, d) || n == 0 || d >= |amount| || amount[d] >= m then 0
    else
      var a := amount[d];
      if First(groups, n, m)[a] == Unknown then Count(groups, amount, n, m - a - 1, d + 1) else 0
  }

  /** The whole problem: all groups of the row and all amounts. */
  function Possibilities(status: seq<Status>, amount: seq<nat>): nat
  {
    var groups := Groups(status);
    Count(groups, amount, |groups|, if groups == [] then 0 else |groups[0]|, 0)
  }

  // ---------------------------------------------------------------------
  // The memoised recursion

  /** The cache key: groups left, first group length, amounts left, first amount. */
  type Key = (nat, nat, nat, nat)

  /**
   * Every cached entry holds the count of the sub-problem its key names.
   * Within one top-level call the key determines the sub-problem, so a
   * cached count is always the count asked for.
   */
  predicate CacheSound(groups: seq<seq<Status>>, amount: seq<nat>, cache: map<Key, nat>)
  {
    forall k | k in cache :: k.2 <= |amount| && cache[k] == Count(groups, amount, k.0, k.1, |amount| - k.2)
  }

  /** `calc_possibilities_internal`: look the sub-problem up, else compute and store it. */
  method Internal(groups: seq<seq<Status>>, amount: seq<nat>, n: nat, m: nat, d: nat, cache: map<Key, nat>)
    returns (x: nat, cache': map<Key, nat>)
    requires Fits(groups, amount, n, m, d) && CacheSound(groups, amount, cache)
    ensures x == Count(groups, amount, n, m, d) && CacheSound(groups, amount, cache')
    decreases n, m, 2
  {
    if n == 0 {
      return (if d == |amount| || (d + 1 == |amount| && amount[d] == 0) then 1 else 0), cache;
    }
    if d == |amount| {
      var rest := groups[|groups| - n + 1..];
      return (if AllUnknown(First(groups, n, m)) && AllGroupsUnknown(rest) then 1 else 0), cache;
    }
    var k: Key := (n, m, |amount| - d, amount[d]);
    if k in cache {
      return cache[k], cache;
    }
    if amount[d] >= m {
      x, cache' := WholeGroup(groups, amount, n, m, d, cache);
    } else {
      x, cache' := InsideGroup(groups, amount, n, m, d, cache);
    }
    cache' := cache'[k := x];
  }

  /** The block is at least as long as the first group: skip the group, or fill it exactly. */
  method WholeGroup(groups: seq<seq<Status>>, amount: seq<nat>, n: nat, m: nat, d: nat, cache: map<Key, nat>)
    returns (x: nat, cache': map<Key, nat>)
    requires Fits(groups, amount, n, m, d) && CacheSound(groups, amount, cache)
    requires n > 0 && d < |amount| && amount[d] >= m
    ensures x == WholeCount(groups, amount, n, m, d) && CacheSound(groups, amount, cache')
    decreases n, m, 1
  {
    var first := First(groups, n, m);
    var next := NextLen(groups, n);
    if amount[d] > m {
      if AllUnknown(first) {
        x, cache' := Internal(groups, amount, n - 1, next, d, cache);
      } else {
        x, cache' := 0, cache;
      }
    } else if AllUnknown(first) {
      var skip, fill;
      skip, cache' := Internal(groups, amount, n - 1, next, d, cache);
      fill, cache' := Internal(groups, amount, n - 1, next, d + 1, cache');
      x := skip + fill;
    } else {
      x, cache' := Internal(groups, amount, n - 1, next, d + 1, cache);
    }
  }

  /**
   * The block is shorter than the first group: a leading damaged spring
   * starts it here; a leading unknown one may also be skipped.
   */
  method InsideGroup(groups: seq<seq<Status>>, amount: seq<nat>, n: nat, m: nat, d: nat, cache: map<Key, nat>)
    returns (x: nat, cache': map<Key, nat>)
    requires Fits(groups, amount, n, m, d) && CacheSound(groups, amount, cache)
    requires n > 0 && d < |amount| && amount[d] < m
    ensures x == InsideCount(groups, amount, n, m, d) && CacheSound(groups, amount, cache')
    decreases n, m, 1
  {
    var first := First(groups, n, m);
    if first[0] == Damaged {
      x, cache' := Place(groups, amount, n, m, d, cache);
    } else if first[0] == Unknown {
      var place;
      x, cache' := Internal(groups, amount, n, m - 1, d, cache);
      place, cache' := Place(groups, amount, n, m, d, cache');
      x := x + place;
    } else {
      x, cache' := 0, cache;
    }
  }

  /**
   * The count with the block placed at the front of the first group: the
   * spring right after it must be unknown, and becomes operational.
   */
  method Place(groups: seq<seq<Status>>, amount: seq<nat>, n: nat, m: nat, d: nat, cache: map<Key, nat>)
    returns (x: nat, cache': map<Key, nat>)
    requires Fits(groups, amount, n, m, d) && CacheSound(groups, amount, cache)
    requires n > 0 && d < |amount| && amount[d] < m
    ensures x == PlaceCount(groups, amount, n, m, d)
    ensures CacheSound(groups, amount, cache')
    decreases n, m, 0
  {
    var a := amount[d];
    if First(groups, n, m)[a] == Unknown {
      x, cache' := Internal(groups, amount, n, m - a - 1, d + 1, cache);
    } else {
      x, cache' := 0, cache;
    }
  }

  /** `calc_possibilities`: group the row, then count with a fresh cache. */
  method CalcPossibilities(status: seq<Status>, amount: seq<nat>) returns (x: nat)
    ensures x == Possibilities(status, amount)
    ensures Positive(amount) ==> x == Arrangements(status, amount)
  {
    if Positive(amount) {
      PossibilitiesAreArrangements(status, amount);
    }
    var groups := Group(status);
    var cache;
    x, cache := Internal(groups, amount, |groups|, if groups == [] then 0 else |groups[0]|, 0, map[]);
  }

  // ---------------------------------------------------------------------
  // Properties of the count

  function Unknowns(n: nat): (r: seq<Status>)
    ensures |r| == n && AllUnknown(r)
  {
    seq(n, i => Unknown)
  }

  /** The last `m` springs of a group of unknown springs are unknown. */
  lemma FirstUnknowns(n: nat, m: nat)
    requires m <= n
    ensures First([Unknowns(n)], 1, m) == Unknowns(m)
  {
  }

  /** Unknown springs hold no further block in exactly one way: all operational. */
  lemma CountUnknownsNone(n: nat, m: nat, amount: seq<nat>)
    requires m <= n
    ensures Count([Unknowns(n)], amount, 1, m, |amount|) == 1
  {
    FirstUnknowns(n, m);
    assert [Unknowns(n)][1..] == [];
  }

  /**
   * A block of length `k` fits into `m` unknown springs in `m - k + 1`
   * ways, one per starting spring, and in none when it is longer.
   */
  lemma {:induction false} CountUnknownsOne(n: nat, m: nat, k: nat)
    requires 1 <= k && m <= n
    ensures Count([Unknowns(n)], [k], 1, m, 0) == if k <= m then m - k + 1 else 0
    decreases m
  {
    if k < m {
      CountUnknownsOne(n, m - 1, k);
      CountUnknownsInside(n, m, k);
    } else {
      CountUnknownsWhole(n, m, k);
    }
  }

  /** A block shorter than the unknown springs: skip the first one, or place the block there. */
  lemma CountUnknownsInside(n: nat, m: nat, k: nat)
    requires 1 <= k < m <= n
    ensures Count([Unknowns(n)], [k], 1, m, 0) == Count([Unknowns(n)], [k], 1, m - 1, 0) + 1
  {
    var g := [Unknowns(n)];
    FirstUnknowns(n, m);
    CountUnknownsNone(n, m - k - 1, [k]);
    assert PlaceCount(g, [k], 1, m, 0) == 1;
    assert InsideCount(g, [k], 1, m, 0) == Count(g, [k], 1, m - 1, 0) + 1;
  }

  /** A block at least as long as the unknown springs fits only when exactly as long. */
  lemma CountUnknownsWhole(n: nat, m: nat, k: nat)
    requires 1 <= k && m <= k && m <= n
    ensures Count([Unknowns(n)], [k], 1, m, 0) == if k == m then 1 else 0
  {
    var g := [Unknowns(n)];
    FirstUnknowns(n, m);
    CountUnknownsNone(n, 0, [k]);
    assert Count(g, [k], 0, 0, 0) == 0;
    assert WholeCount(g, [k], 1, m, 0) == if k == m then Count(g, [k], 0, 0, 1) else 0;
  }

  /** A group that is one damaged block takes exactly the block of its length, and no shorter one. */
  lemma CountDamagedBlock(n: nat, k: nat)
    requires 0 < k <= n
    ensures Count([seq(n, i => Damaged)], [k], 1, n, 0) == if k == n then 1 else 0
  {
    var g := seq(n, i => Damaged);
    assert First([g], 1, n) == g;
    if k < n {
      assert g[0] == Damaged && g[k] == Damaged;
      assert PlaceCount([g], [k], 1, n, 0) == 0;
    } else {
      assert !AllUnknown(g) by {
        assert g[0] == Damaged;
      }
      assert Count([g], [k], 0, 0, 1) == 1;
    }
  }

  /**
   * Within the groups of a row the springs a sub-problem starts with are
   * never operational: the source's `unreachable!()` is indeed unreachable.
   */
  lemma LeadNeverOperational(s: seq<Status>, n: nat, m: nat)
    requires 0 < n <= |Groups(s)| && 0 < m <= |Groups(s)[|Groups(s)| - n]|
    ensures First(Groups(s), n, m)[0] != Operational
  {
    GroupsClean(s);
    var g := Groups(s)[|Groups(s)| - n];
    assert Clean(g);
    assert First(Groups(s), n, m)[0] == g[|g| - m];
  }

  // ---------------------------------------------------------------------
  // Arrangements: the count the recursion computes, defined independently

  /** Every way of deciding the unknown springs of a row: a known spring stays, an unknown one becomes either. */
  function Completions(s: seq<Status>): seq<seq<Status>>
  {
    if s == [] then [[]]
    else
      var rest := Completions(s[1..]);
      (if s[0] != Damaged then Prepend(Operational, rest) else [])
      + (if s[0] != Operational then Prepend(Damaged, rest) else [])
  }

  function Prepend(x: Status, cs: seq<seq<Status>>): (r: seq<seq<Status>>)
    ensures |r| == |cs|
  {
    if cs == [] then [] else [[x] + cs[0]] + Prepend(x, cs[1..])
  }

  /** `c` decides every spring of `s`, keeping the known ones. */
  predicate Completes(c: seq<Status>, s: seq<Status>)
  {
    |c| == |s| && forall i | 0 <= i < |s| :: c[i] != Unknown && (s[i] != Unknown ==> c[i] == s[i])
  }

  predicate Distinct(cs: seq<seq<Status>>)
  {
    forall i, j | 0 <= i < j < |cs| :: cs[i] != cs[j]
  }

  /** The block run still open when a row ends or an operational spring is met. */
  function Close(run: nat): seq<nat>
  {
    if run > 0 then [run] else []
  }

  /**
   * The lengths of the maximal runs of damaged springs of a decided row,
   * left to right, `run` damaged springs having been seen just before it.
   */
  function RunsFrom(c: seq<Status>, run: nat): seq<nat>
  {
    if c == [] then Close(run)
    else if c[0] == Damaged then RunsFrom(c[1..], run + 1)
    else Close(run) + RunsFrom(c[1..], 0)
  }

  /** How many of the decided rows `cs` have the runs `a`. */
  function CountRuns(cs: seq<seq<Status>>, a: seq<nat>, run: nat): nat
  {
    if cs == [] then 0
    else (if RunsFrom(cs[0], run) == a then 1 else 0) + CountRuns(cs[1..], a, run)
  }

  function ArrFrom(s: seq<Status>, a: seq<nat>, run: nat): nat
  {
    CountRuns(Completions(s), a, run)
  }

  /** The number of ways to decide the unknown springs so that the damaged runs are exactly `amount`. */
  function Arrangements(status: seq<Status>, amount: seq<nat>): nat
  {
    ArrFrom(status, amount, 0)
  }

  predicate Positive(amount: seq<nat>)
  {
    forall i | 0 <= i < |amount| :: amount[i] > 0
  }

  lemma {:induction false} PrependIn(x: Status, cs: seq<seq<Status>>, c: seq<Status>)
    ensures c in Prepend(x, cs) <==> c != [] && c[0] == x && c[1..] in cs
  {
    if cs != [] {
      PrependIn(x, cs[1..], c);
      if c == [x] + cs[0] {
        assert c[1..] == cs[0];
      }
      if c != [] && c[0] == x && c[1..] == cs[0] {
        assert c == [x] + cs[0];
      }
    }
  }

  /** The completions are exactly the rows that decide `s`. */
  lemma {:induction false} CompletionsExact(s: seq<Status>, c: seq<Status>)
    ensures c in Completions(s) <==> Completes(c, s)
  {
    if s != [] {
      var rest := Completions(s[1..]);
      PrependIn(Operational, rest, c);
      PrependIn(Damaged, rest, c);
      if c != [] {
        CompletionsExact(s[1..], c[1..]);
        if Completes(c, s) {
          assert Completes(c[1..], s[1..]) by {
            forall i | 0 <= i < |s| - 1
              ensures c[1..][i] != Unknown && (s[1..][i] != Unknown ==> c[1..][i] == s[1..][i])
            {
              assert c[i + 1] != Unknown && (s[i + 1] != Unknown ==> c[i + 1] == s[i + 1]);
            }
          }
        }
        if c in Completions(s) {
          assert Completes(c, s) by {
            forall i | 0 <= i < |s|
              ensures c[i] != Unknown && (s[i] != Unknown ==> c[i] == s[i])
            {
              if i > 0 {
                assert c[i] == c[1..][i - 1] && s[i] == s[1..][i - 1];
              }
            }
          }
        }
      }
    }
  }

  lemma {:induction false} PrependDistinct(x: Status, cs: seq<seq<Status>>)
    requires Distinct(cs)
    ensures Distinct(Prepend(x, cs))
  {
    if cs != [] {
      PrependDistinct(x, cs[1..]);
      var r := Prepend(x, cs);
      forall i, j | 0 <= i < j < |r|
        ensures r[i] != r[j]
      {
        PrependIn(x, cs[1..], r[j]);
        if i == 0 {
          assert r[j] == Prepend(x, cs[1..])[j - 1];
          assert r[j][1..] in cs[1..];
          assert r[0][1..] == cs[0];
        } else {
          assert r[i] == Prepend(x, cs[1..])[i - 1] && r[j] == Prepend(x, cs[1..])[j - 1];
        }
      }
    }
  }

  /** No completion is listed twice, so counting them counts ways. */
  lemma {:induction false} CompletionsDistinct(s: seq<Status>)
    ensures Distinct(Completions(s))
  {
    if s != [] {
      var rest := Completions(s[1..]);
      CompletionsDistinct(s[1..]);
      PrependDistinct(Operational, rest);
      PrependDistinct(Damaged, rest);
      var ops := if s[0] != Damaged then Prepend(Operational, rest) else [];
      var dams := if s[0] != Operational then Prepend(Damaged, rest) else [];
      var r := ops + dams;
      forall i, j | 0 <= i < j < |r|
        ensures r[i] != r[j]
      {
        if i < |ops| <= j {
          PrependIn(Operational, rest, r[i]);
          PrependIn(Damaged, rest, r[j]);
          assert r[i] in ops && r[j] in dams;
        }
      }
    }
  }

  lemma {:induction false} CountRunsAppend(xs: seq<seq<Status>>, ys: seq<seq<Status>>, a: seq<nat>, run: nat)
    ensures CountRuns(xs + ys, a, run) == CountRuns(xs, a, run) + CountRuns(ys, a, run)
  {
    if xs == [] {
      assert xs + ys == ys;
    } else {
      assert (xs + ys)[1..] == xs[1..] + ys;
      CountRunsAppend(xs[1..], ys, a, run);
    }
  }

  lemma {:induction false} CountRunsDamaged(cs: seq<seq<Status>>, a: seq<nat>, run: nat)
    ensures CountRuns(Prepend(Damaged, cs), a, run) == CountRuns(cs, a, run + 1)
  {
    if cs != [] {
      assert ([Damaged] + cs[0])[1..] == cs[0];
      CountRunsDamaged(cs[1..], a, run);
    }
  }

  lemma {:induction false} CountRunsOperational(cs: seq<seq<Status>>, a: seq<nat>, run: nat)
    ensures CountRuns(Prepend(Operational, cs), a, run)
         == if run == 0 then CountRuns(cs, a, 0)
            else if a != [] && a[0] == run then CountRuns(cs, a[1..], 0) else 0
  {
    if cs != [] {
      var c := [Operational] + cs[0];
      assert c[1..] == cs[0];
      assert RunsFrom(c, run) == Close(run) + RunsFrom(cs[0], 0);
      if run > 0 && a != [] {
        assert [run] + RunsFrom(cs[0], 0) == a <==> a[0] == run && RunsFrom(cs[0], 0) == a[1..] by {
          if a[0] == run && RunsFrom(cs[0], 0) == a[1..] {
            assert a == [a[0]] + a[1..];
          }
        }
      }
      CountRunsOperational(cs[1..], a, run);
    }
  }

  lemma ArrEnd(a: seq<nat>, run: nat)
    ensures ArrFrom([], a, run) == if Close(run) == a then 1 else 0
  {
    var e: seq<Status> := [];
    assert Completions([]) == [e];
    assert [e][1..] == [] && [e][0] == e;
    assert RunsFrom(e, run) == Close(run);
    assert CountRuns([e], a, run) == (if RunsFrom(e, run) == a then 1 else 0) + CountRuns([], a, run);
  }

  lemma ArrOperational(r: seq<Status>, a: seq<nat>, run: nat)
    ensures ArrFrom([Operational] + r, a, run)
         == if run == 0 then ArrFrom(r, a, 0)
            else if a != [] && a[0] == run then ArrFrom(r, a[1..], 0) else 0
  {
    var s := [Operational] + r;
    assert s[1..] == r;
    assert Completions(s) == Prepend(Operational, Completions(r)) + [];
    assert Prepend(Operational, Completions(r)) + [] == Prepend(Operational, Completions(r));
    CountRunsOperational(Completions(r), a, run);
  }

  lemma ArrDamaged(r: seq<Status>, a: seq<nat>, run: nat)
    ensures ArrFrom([Damaged] + r, a, run) == ArrFrom(r, a, run + 1)
  {
    var s := [Damaged] + r;
    assert s[1..] == r;
    assert Completions(s) == [] + Prepend(Damaged, Completions(r));
    assert [] + Prepend(Damaged, Completions(r)) == Prepend(Damaged, Completions(r));
    CountRunsDamaged(Completions(r), a, run);
  }

  lemma ArrUnknown(r: seq<Status>, a: seq<nat>, run: nat)
    ensures ArrFrom([Unknown] + r, a, run) == ArrFrom([Operational] + r, a, run) + ArrFrom([Damaged] + r, a, run)
  {
    var s := [Unknown] + r;
    assert s[1..] == r;
    var rest := Completions(r);
    assert Completions(s) == Prepend(Operational, rest) + Prepend(Damaged, rest);
    CountRunsAppend(Prepend(Operational, rest), Prepend(Damaged, rest), a, run);
    ArrOperational(r, a, run);
    ArrDamaged(r, a, run);
    CountRunsOperational(rest, a, run);
    CountRunsDamaged(rest, a, run);
  }

  /**
   * The same count by one scan over the row, spring by spring: the
   * recurrence that `ArrFrom` satisfies (`ScanIsArrangements`).
   */
  function Scan(s: seq<Status>, a: seq<nat>, run: nat): nat
    decreases |s|
  {
    if s == [] then (if Close(run) == a then 1 else 0)
    else
      var r := s[1..];
      var op := if run == 0 then Scan(r, a, 0) else if a != [] && a[0] == run then Scan(r, a[1..], 0) else 0;
      var dam := Scan(r, a, run + 1);
      match s[0]
      case Operational => op
      case Damaged => dam
      case Unknown => op + dam
  }

  lemma ScanEnd(a: seq<nat>, run: nat)
    ensures Scan([], a, run) == if Close(run) == a then 1 else 0
  {
  }

  lemma ScanOperational(r: seq<Status>, a: seq<nat>, run: nat)
    ensures Scan([Operational] + r, a, run)
         == if run == 0 then Scan(r, a, 0)
            else if a != [] && a[0] == run then Scan(r, a[1..], 0) else 0
  {
    assert ([Operational] + r)[1..] == r;
  }

  lemma ScanDamaged(r: seq<Status>, a: seq<nat>, run: nat)
    ensures Scan([Damaged] + r, a, run) == Scan(r, a, run + 1)
  {
    assert ([Damaged] + r)[1..] == r;
  }

  lemma ScanUnknown(r: seq<Status>, a: seq<nat>, run: nat)
    ensures Scan([Unknown] + r, a, run) == Scan([Operational] + r, a, run) + Scan([Damaged] + r, a, run)
  {
    assert ([Unknown] + r)[1..] == r;
    assert ([Operational] + r)[1..] == r;
    assert ([Damaged] + r)[1..] == r;
  }

  /** Counting the completions and scanning the row agree. */
  lemma {:induction false} ScanIsArrangements(s: seq<Status>, a: seq<nat>, run: nat)
    ensures ArrFrom(s, a, run) == Scan(s, a, run)
    decreases |s|
  {
    if s == [] {
      ArrEnd(a, run);
    } else {
      var r := s[1..];
      assert s == [s[0]] + r;
      ScanIsArrangements(r, a, run + 1);
      ScanIsArrangements(r, a, 0);
      if a != [] {
        ScanIsArrangements(r, a[1..], 0);
      }
      ArrOperational(r, a, run);
      ArrDamaged(r, a, run);
      ScanOperational(r, a, run);
      ScanDamaged(r, a, run);
      if s[0] == Unknown {
        ArrUnknown(r, a, run);
        ScanUnknown(r, a, run);
      }
    }
  }

  /** A run already longer than the next amount, or with no amount left, is never matched. */
  lemma {:induction false} Overrun(s: seq<Status>, a: seq<nat>, run: nat)
    requires run > 0 && (a == [] || a[0] < run)
    ensures Scan(s, a, run) == 0
    decreases |s|
  {
    if s == [] {
      ScanEnd(a, run);
    } else {
      var r := s[1..];
      assert s == [s[0]] + r;
      ScanOperational(r, a, run);
      ScanDamaged(r, a, run);
      Overrun(r, a, run + 1);
      if s[0] == Unknown {
        ScanUnknown(r, a, run);
      }
    }
  }

  predicate NoDamaged(s: seq<Status>)
  {
    forall i | 0 <= i < |s| :: s[i] != Damaged
  }

  /** With no blocks left the row is matched in one way when nothing in it is damaged, else in none. */
  lemma {:induction false} NoBlocks(s: seq<Status>)
    ensures Scan(s, [], 0) == if NoDamaged(s) then 1 else 0
  {
    if s == [] {
      ScanEnd([], 0);
    } else {
      var r := s[1..];
      assert s == [s[0]] + r;
      assert NoDamaged(s) <==> s[0] != Damaged && NoDamaged(r) by {
        if s[0] != Damaged && NoDamaged(r) {
          forall i | 0 <= i < |s|
            ensures s[i] != Damaged
          {
            if i > 0 {
              assert s[i] == r[i - 1];
            }
          }
        }
      }
      NoBlocks(r);
      ScanOperational(r, [], 0);
      ScanDamaged(r, [], 0);
      Overrun(r, [], 1);
      if s[0] == Unknown {
        ScanUnknown(r, [], 0);
      }
    }
  }

  /** An operational spring at the end of a row changes no count. */
  lemma {:induction false} ClosingOp(x: seq<Status>, a: seq<nat>, run: nat)
    ensures Scan(x + [Operational], a, run) == Scan(x, a, run)
  {
    if x == [] {
      assert x + [Operational] == [Operational] + [];
      ScanOperational([], a, run);
      ScanEnd(a, run);
      if a != [] {
        ScanEnd(a[1..], 0);
        assert [run] == a <==> a[0] == run && a[1..] == [] by {
          if a[0] == run && a[1..] == [] {
            assert a == [a[0]] + a[1..];
          }
        }
      }
    } else {
      var r := x[1..];
      assert x == [x[0]] + r;
      assert x + [Operational] == [x[0]] + (r + [Operational]);
      ScanOperational(r, a, run);
      ScanOperational(r + [Operational], a, run);
      ScanDamaged(r, a, run);
      ScanDamaged(r + [Operational], a, run);
      ClosingOp(r, a, run + 1);
      ClosingOp(r, a, 0);
      if a != [] {
        ClosingOp(r, a[1..], 0);
      }
      if x[0] == Unknown {
        ScanUnknown(r, a, run);
        ScanUnknown(r + [Operational], a, run);
      }
    }
  }

  /** After an operational spring, the count depends on the rest only through its own counts. */
  lemma {:induction false} Congruence(x: seq<Status>, y: seq<Status>, y': seq<Status>, a: seq<nat>, run: nat)
    requires forall b: seq<nat> :: Scan(y, b, 0) == Scan(y', b, 0)
    ensures Scan(x + [Operational] + y, a, run) == Scan(x + [Operational] + y', a, run)
  {
    if x == [] {
      assert x + [Operational] + y == [Operational] + y;
      assert x + [Operational] + y' == [Operational] + y';
      ScanOperational(y, a, run);
      ScanOperational(y', a, run);
      if a != [] {
        assert Scan(y, a[1..], 0) == Scan(y', a[1..], 0);
      }
      assert Scan(y, a, 0) == Scan(y', a, 0);
    } else {
      var r := x[1..];
      assert x + [Operational] + y == [x[0]] + (r + [Operational] + y);
      assert x + [Operational] + y' == [x[0]] + (r + [Operational] + y');
      var u, v := r + [Operational] + y, r + [Operational] + y';
      ScanOperational(u, a, run);
      ScanOperational(v, a, run);
      ScanDamaged(u, a, run);
      ScanDamaged(v, a, run);
      Congruence(r, y, y', a, run + 1);
      Congruence(r, y, y', a, 0);
      if a != [] {
        Congruence(r, y, y', a[1..], 0);
      }
      if x[0] == Unknown {
        ScanUnknown(u, a, run);
        ScanUnknown(v, a, run);
      }
    }
  }

  /** The groups written back out, each followed by one operational spring. */
  function Join(gs: seq<seq<Status>>): seq<Status>
  {
    if gs == [] then [] else gs[0] + [Operational] + Join(gs[1..])
  }

  /** Cutting a row into its groups keeps every count. */
  lemma {:induction false} RowIsJoin(s: seq<Status>, a: seq<nat>)
    ensures Scan(s, a, 0) == Scan(Join(Groups(s)), a, 0)
    decreases |s|
  {
    if s != [] {
      var p := FirstOperational(s);
      FirstOperationalIsFirst(s);
      if p == |s| {
        assert Groups(s) == [s];
        assert [s][1..] == [];
        assert Join([s]) == s + [Operational] + Join([]);
        assert s + [Operational] + [] == s + [Operational];
        ClosingOp(s, a, 0);
      } else if p == 0 {
        assert s == [Operational] + s[1..];
        ScanOperational(s[1..], a, 0);
        RowIsJoin(s[1..], a);
      } else {
        var rest := s[p + 1..];
        forall b: seq<nat>
          ensures Scan(rest, b, 0) == Scan(Join(Groups(rest)), b, 0)
        {
          RowIsJoin(rest, b);
        }
        Congruence(s[..p], rest, Join(Groups(rest)), a, 0);
        assert s == s[..p] + [Operational] + rest;
        var gs := [s[..p]] + Groups(rest);
        assert gs[0] == s[..p] && gs[1..] == Groups(rest);
      }
    }
  }

  /**
   * A block at least as long as the run so far plus a clean stretch `f`:
   * the stretch is either all operational, or completes the block exactly.
   */
  lemma {:induction false} WholeStretch(f: seq<Status>, r: seq<Status>, a: seq<nat>, run: nat)
    requires Clean(f) && a != [] && a[0] > 0 && run + |f| <= a[0]
    ensures Scan(f + [Operational] + r, a, run)
         == (if run == 0 && AllUnknown(f) then Scan(r, a, 0) else 0)
          + (if run + |f| == a[0] then Scan(r, a[1..], 0) else 0)
    decreases |f|
  {
    if f == [] {
      assert f + [Operational] + r == [Operational] + r;
      ScanOperational(r, a, run);
    } else {
      var g := f[1..];
      assert f + [Operational] + r == [f[0]] + (g + [Operational] + r);
      assert Clean(g) by {
        forall i | 0 <= i < |g|
          ensures g[i] != Operational
        {
          assert g[i] == f[i + 1];
        }
      }
      assert f[0] != Operational;
      var u := g + [Operational] + r;
      ScanDamaged(u, a, run);
      WholeStretch(g, r, a, run + 1);
      if f[0] == Unknown {
        ScanUnknown(u, a, run);
        ScanOperational(u, a, run);
        WholeStretch(g, r, a, 0);
        assert AllUnknown(f) <==> AllUnknown(g) by {
          if AllUnknown(g) {
            forall i | 0 <= i < |f|
              ensures f[i] == Unknown
            {
              if i > 0 {
                assert f[i] == g[i - 1];
              }
            }
          }
        }
      }
    }
  }

  /**
   * A block already started: it takes the next springs of the clean stretch
   * `f` and must be closed by an unknown spring inside it.
   */
  lemma {:induction false} StartedBlock(f: seq<Status>, r: seq<Status>, a: seq<nat>, run: nat)
    requires Clean(f) && a != [] && 0 < run <= a[0] < run + |f|
    ensures Scan(f + [Operational] + r, a, run)
         == if f[a[0] - run] == Unknown then Scan(f[a[0] - run + 1..] + [Operational] + r, a[1..], 0) else 0
    decreases |f|
  {
    var g := f[1..];
    var u := g + [Operational] + r;
    assert f + [Operational] + r == [f[0]] + u;
    assert f[0] != Operational;
    ScanDamaged(u, a, run);
    if run == a[0] {
      Overrun(u, a, run + 1);
      if f[0] == Unknown {
        ScanUnknown(u, a, run);
        ScanOperational(u, a, run);
      }
    } else {
      assert Clean(g) by {
        forall i | 0 <= i < |g|
          ensures g[i] != Operational
        {
          assert g[i] == f[i + 1];
        }
      }
      StartedBlock(g, r, a, run + 1);
      assert g[a[0] - run - 1] == f[a[0] - run];
      assert g[a[0] - run..] == f[a[0] - run + 1..];
      if f[0] == Unknown {
        ScanUnknown(u, a, run);
        ScanOperational(u, a, run);
      }
    }
  }

  /** The springs a sub-problem still looks at: its first group cut down, then the groups after it. */
  function Flat(groups: seq<seq<Status>>, n: nat, m: nat): seq<Status>
  {
    if 0 < n <= |groups| then First(groups, n, m) + [Operational] + Join(groups[|groups| - n + 1..]) else []
  }

  lemma {:induction false} NoDamagedJoin(gs: seq<seq<Status>>)
    requires AllClean(gs)
    ensures NoDamaged(Join(gs)) <==> AllGroupsUnknown(gs)
  {
    if gs != [] {
      var g := gs[0];
      assert AllClean(gs[1..]) by {
        forall i | 0 <= i < |gs| - 1
          ensures Clean(gs[1..][i])
        {
          assert gs[1..][i] == gs[i + 1];
        }
      }
      NoDamagedJoin(gs[1..]);
      NoDamagedSplit(g, Join(gs[1..]));
      assert Clean(g);
      assert NoDamaged(g) <==> AllUnknown(g) by {
        forall i | 0 <= i < |g|
          ensures g[i] != Operational
        {
        }
      }
    }
  }

  /** The first group of a sub-problem, cut down, is clean and as long as asked; cutting further takes a suffix of it. */
  lemma FirstShape(groups: seq<seq<Status>>, n: nat, m: nat, k: nat)
    requires AllClean(groups) && 0 < n <= |groups| && k <= m <= |groups[|groups| - n]|
    ensures |First(groups, n, m)| == m && Clean(First(groups, n, m))
    ensures First(groups, n, m - k) == First(groups, n, m)[k..]
  {
    var g := groups[|groups| - n];
    var f := First(groups, n, m);
    assert Clean(g);
    assert f == g[|g| - m..];
    forall i | 0 <= i < m
      ensures f[i] != Operational
    {
      assert f[i] == g[|g| - m + i];
    }
  }

  /** The springs of a sub-problem: its first group, an operational spring, then the springs of the next sub-problem. */
  lemma FlatShape(groups: seq<seq<Status>>, n: nat, m: nat)
    requires 0 < n <= |groups| && m <= |groups[|groups| - n]|
    ensures Flat(groups, n, m) == First(groups, n, m) + [Operational] + Flat(groups, n - 1, NextLen(groups, n))
  {
    var rest := groups[|groups| - n + 1..];
    if n > 1 {
      var h := groups[|groups| - n + 1];
      assert First(groups, n - 1, NextLen(groups, n)) == h;
      assert rest == [h] + groups[|groups| - n + 2..];
    } else {
      assert rest == [];
    }
  }

  /** Cutting `k` more springs off the first group of a sub-problem. */
  lemma FlatCut(groups: seq<seq<Status>>, n: nat, m: nat, k: nat)
    requires AllClean(groups) && 0 < n <= |groups| && k <= m <= |groups[|groups| - n]|
    ensures Flat(groups, n, m - k) == First(groups, n, m)[k..] + [Operational] + Flat(groups, n - 1, NextLen(groups, n))
  {
    FirstShape(groups, n, m, k);
    FlatShape(groups, n, m - k);
  }

  lemma NoDamagedSplit(f: seq<Status>, r: seq<Status>)
    ensures NoDamaged(f + [Operational] + r) <==> NoDamaged(f) && NoDamaged(r)
  {
    var j := f + [Operational] + r;
    if NoDamaged(f) && NoDamaged(r) {
      forall i | 0 <= i < |j|
        ensures j[i] != Damaged
      {
        if i < |f| {
          assert j[i] == f[i];
        } else if i > |f| {
          assert j[i] == r[i - |f| - 1];
        }
      }
    }
    if NoDamaged(j) {
      forall i | 0 <= i < |f|
        ensures f[i] != Damaged
      {
        assert j[i] == f[i];
      }
      forall i | 0 <= i < |r|
        ensures r[i] != Damaged
      {
        assert j[|f| + 1 + i] == r[i];
      }
    }
  }

  /** With every amount placed, a sub-problem is matched once when its springs are all unknown, else never. */
  lemma {:induction false} NothingLeft(groups: seq<seq<Status>>, amount: seq<nat>, n: nat, m: nat)
    requires AllClean(groups) && Fits(groups, amount, n, m, |amount|) && n > 0
    ensures Count(groups, amount, n, m, |amount|) == Scan(Flat(groups, n, m), [], 0)
  {
    var f := First(groups, n, m);
    var rest := groups[|groups| - n + 1..];
    FirstShape(groups, n, m, 0);
    NoBlocks(Flat(groups, n, m));
    assert AllClean(rest) by {
      forall i | 0 <= i < |rest|
        ensures Clean(rest[i])
      {
        assert rest[i] == groups[|groups| - n + 1 + i];
      }
    }
    NoDamagedJoin(rest);
    NoDamagedSplit(f, Join(rest));
    assert NoDamaged(f) <==> AllUnknown(f) by {
      forall i | 0 <= i < |f|
        ensures f[i] != Operational
      {
      }
    }
  }

  /**
   * A block shorter than a clean stretch: a leading unknown spring may be
   * skipped, and the block may start at the front if the spring after it
   * can be operational.
   */
  lemma InsideStretch(f: seq<Status>, r: seq<Status>, a: seq<nat>)
    requires Clean(f) && a != [] && 0 < a[0] < |f|
    ensures Scan(f + [Operational] + r, a, 0)
         == (if f[0] == Unknown then Scan(f[1..] + [Operational] + r, a, 0) else 0)
          + (if f[a[0]] == Unknown then Scan(f[a[0] + 1..] + [Operational] + r, a[1..], 0) else 0)
  {
    var k := a[0];
    var g := f[1..];
    var u := g + [Operational] + r;
    SplitFirst(f, r);
    assert Clean(g) by {
      forall i | 0 <= i < |g|
        ensures g[i] != Operational
      {
        assert g[i] == f[i + 1];
      }
    }
    ScanDamaged(u, a, 0);
    var after := f[k + 1..] + [Operational] + r;
    assert g[k - 1] == f[k];
    assert g[k..] + [Operational] + r == after;
    StartedBlockAt(g, r, a, 1, after);
    assert f[0] != Operational;
    if f[0] == Unknown {
      ScanUnknown(u, a, 0);
      ScanOperational(u, a, 0);
    }
  }

  lemma StartedBlockAt(f: seq<Status>, r: seq<Status>, a: seq<nat>, run: nat, after: seq<Status>)
    requires Clean(f) && a != [] && 0 < run <= a[0] < run + |f|
    requires after == f[a[0] - run + 1..] + [Operational] + r
    ensures Scan(f + [Operational] + r, a, run) == if f[a[0] - run] == Unknown then Scan(after, a[1..], 0) else 0
  {
    StartedBlock(f, r, a, run);
  }

  lemma SplitFirst(f: seq<Status>, r: seq<Status>)
    requires f != []
    ensures f + [Operational] + r == [f[0]] + (f[1..] + [Operational] + r)
  {
  }

  /** The count's own step for a block shorter than the first group. */
  lemma InsideStep(groups: seq<seq<Status>>, amount: seq<nat>, n: nat, m: nat, d: nat)
    requires Fits(groups, amount, n, m, d) && n > 0 && d < |amount| && amount[d] < m
    requires First(groups, n, m)[0] != Operational
    ensures Count(groups, amount, n, m, d)
         == (if First(groups, n, m)[0] == Unknown then Count(groups, amount, n, m - 1, d) else 0)
          + (if First(groups, n, m)[amount[d]] == Unknown then Count(groups, amount, n, m - amount[d] - 1, d + 1) else 0)
  {
    assert Count(groups, amount, n, m, d) == InsideCount(groups, amount, n, m, d);
    var k := amount[d];
    assert PlaceCount(groups, amount, n, m, d)
        == if First(groups, n, m)[k] == Unknown then Count(groups, amount, n, m - k - 1, d + 1) else 0;
  }

  /** The count's own step for a block at least as long as the first group. */
  lemma WholeStep(groups: seq<seq<Status>>, amount: seq<nat>, n: nat, m: nat, d: nat)
    requires Fits(groups, amount, n, m, d) && n > 0 && d < |amount| && amount[d] >= m
    ensures Count(groups, amount, n, m, d)
         == (if AllUnknown(First(groups, n, m)) then Count(groups, amount, n - 1, NextLen(groups, n), d) else 0)
          + (if amount[d] == m then Count(groups, amount, n - 1, NextLen(groups, n), d + 1) else 0)
  {
    assert Count(groups, amount, n, m, d) == WholeCount(groups, amount, n, m, d);
  }

  /** `FlatCut` under `Scan`, so that callers see no sequence equality. */
  lemma FlatCutScan(groups: seq<seq<Status>>, n: nat, m: nat, k: nat, a: seq<nat>)
    requires AllClean(groups) && 0 < n <= |groups| && k <= m <= |groups[|groups| - n]|
    ensures Scan(Flat(groups, n, m - k), a, 0)
         == Scan(First(groups, n, m)[k..] + [Operational] + Flat(groups, n - 1, NextLen(groups, n)), a, 0)
  {
    FlatCut(groups, n, m, k);
  }

  /** Two sums of the same two optional terms are equal. */
  lemma SameSum(c: nat, c0: nat, c1: nat, s: nat, s0: nat, s1: nat, u0: bool, u1: bool)
    requires c == (if u0 then c0 else 0) + (if u1 then c1 else 0)
    requires s == (if u0 then s0 else 0) + (if u1 then s1 else 0)
    requires c0 == s0 && c1 == s1
    ensures c == s
  {
  }

  /** `InsideStretch` on the sub-problem's springs, stated without sequence equalities. */
  lemma InsideFlat(groups: seq<seq<Status>>, amount: seq<nat>, n: nat, m: nat, d: nat)
    requires AllClean(groups) && 0 < n <= |groups| && m <= |groups[|groups| - n]|
    requires d < |amount| && 0 < amount[d] < m
    ensures |First(groups, n, m)| == m && First(groups, n, m)[0] != Operational
    ensures Scan(Flat(groups, n, m), amount[d..], 0)
         == (if First(groups, n, m)[0] == Unknown then Scan(Flat(groups, n, m - 1), amount[d..], 0) else 0)
          + (if First(groups, n, m)[amount[d]] == Unknown then Scan(Flat(groups, n, m - amount[d] - 1), amount[d + 1..], 0) else 0)
  {
    var a := amount[d..];
    var k := amount[d];
    var f := First(groups, n, m);
    var r := Flat(groups, n - 1, NextLen(groups, n));
    FlatCutScan(groups, n, m, 1, a);
    FlatCutScan(groups, n, m, k + 1, amount[d + 1..]);
    FlatShape(groups, n, m);
    FirstShape(groups, n, m, 0);
    assert a[0] == k && a[1..] == amount[d + 1..];
    InsideStretch(f, r, a);
  }

  /** The block is shorter than the first group, which starts with a damaged or unknown spring. */
  lemma {:induction false} InsideIsArrangements(groups: seq<seq<Status>>, amount: seq<nat>, n: nat, m: nat, d: nat)
    requires AllClean(groups) && Fits(groups, amount, n, m, d)
    requires Positive(amount) && n > 0 && d < |amount| && amount[d] < m
    ensures Count(groups, amount, n, m, d) == Scan(Flat(groups, n, m), amount[d..], 0)
    decreases n, m, 1
  {
    var k := amount[d];
    CountIsArrangements(groups, amount, n, m - 1, d);
    CountIsArrangements(groups, amount, n, m - k - 1, d + 1);
    InsideFlat(groups, amount, n, m, d);
    InsideStep(groups, amount, n, m, d);
    var f := First(groups, n, m);
    SameSum(Count(groups, amount, n, m, d), Count(groups, amount, n, m - 1, d), Count(groups, amount, n, m - k - 1, d + 1),
            Scan(Flat(groups, n, m), amount[d..], 0), Scan(Flat(groups, n, m - 1), amount[d..], 0),
            Scan(Flat(groups, n, m - k - 1), amount[d + 1..], 0), f[0] == Unknown, f[k] == Unknown);
  }

  /**
   * The recursion counts arrangements: each sub-problem's count is the
   * number of ways to decide the springs it still looks at so that the
   * damaged runs are exactly the amounts it still has to place.
   */
  lemma {:induction false} CountIsArrangements(groups: seq<seq<Status>>, amount: seq<nat>, n: nat, m: nat, d: nat)
    requires AllClean(groups) && Fits(groups, amount, n, m, d) && Positive(amount)
    ensures Count(groups, amount, n, m, d) == Scan(Flat(groups, n, m), amount[d..], 0)
    decreases n, m, 2
  {
    if n == 0 {
      ScanEnd(amount[d..], 0);
    } else if d == |amount| {
      NothingLeft(groups, amount, n, m);
    } else {
      var next := NextLen(groups, n);
      CountIsArrangements(groups, amount, n - 1, next, d);
      CountIsArrangements(groups, amount, n - 1, next, d + 1);
      if amount[d] >= m {
        var a := amount[d..];
        FirstShape(groups, n, m, 0);
        FlatShape(groups, n, m);
        assert a[0] == amount[d] && a[1..] == amount[d + 1..];
        WholeStretch(First(groups, n, m), Flat(groups, n - 1, next), a, 0);
        WholeStep(groups, amount, n, m, d);
      } else {
        InsideIsArrangements(groups, amount, n, m, d);
      }
    }
  }

  /**
   * The count of `calc_possibilities` is the number of arrangements of the
   * row, for amounts that are positive as every puzzle line's are.
   */
  lemma PossibilitiesAreArrangements(status: seq<Status>, amount: seq<nat>)
    requires Positive(amount)
    ensures Possibilities(status, amount) == Arrangements(status, amount)
  {
    var groups := Groups(status);
    GroupsClean(status);
    RowIsJoin(status, amount);
    ScanIsArrangements(status, amount, 0);
    if groups == [] {
      CountIsArrangements(groups, amount, 0, 0, 0);
    } else {
      CountIsArrangements(groups, amount, |groups|, |groups[0]|, 0);
      assert First(groups, |groups|, |groups[0]|) == groups[0];
      assert Flat(groups, |groups|, |groups[0]|) == Join(groups);
    }
  }

  // ---------------------------------------------------------------------
  // Part b

  /** Five copies of the row joined by single unknown springs. */
  function UnfoldStatus(s: seq<Status>): (r: seq<Status>)
    ensures |r| == 5 * |s| + 4
    ensures forall i | 0 <= i < |s| ::
      (r[i] == s[i] && r[|s| + 1 + i] == s[i] && r[2 * |s| + 2 + i] == s[i]
       && r[3 * |s| + 3 + i] == s[i] && r[4 * |s| + 4 + i] == s[i])
    ensures r[|s|] == r[2 * |s| + 1] == r[3 * |s| + 2] == r[4 * |s| + 3] == Unknown
  {
    var u := [Unknown];
    s + u + s + u + s + u + s + u + s
  }

  /** The amounts repeated five times: `cycle().take(5 * len)`. */
  function UnfoldAmounts(a: seq<nat>): (r: seq<nat>)
    ensures |r| == 5 * |a|
    ensures forall i | 0 <= i < |r| :: r[i] == a[i % |a|]
  {
    seq(5 * |a|, i requires 0 <= i < 5 * |a| => a[i % |a|])
  }

  /** `part_a`: the sum of the counts of all rows. */
  function PartA(input: seq<(seq<Status>, seq<nat>)>): nat
  {
    if input == [] then 0
    else PartA(input[..|input| - 1]) + Possibilities(input[|input| - 1].0, input[|input| - 1].1)
  }

  /** `part_b`: the same over the unfolded rows. */
  function PartB(input: seq<(seq<Status>, seq<nat>)>): nat
  {
    if input == [] then 0
    else
      var (s, a) := input[|input| - 1];
      PartB(input[..|input| - 1]) + Possibilities(UnfoldStatus(s), UnfoldAmounts(a))
  }

  /** The sum of the arrangements of the rows, each row's amounts taken as they are or unfolded. */
  function TotalArrangements(input: seq<(seq<Status>, seq<nat>)>, unfold: bool): nat
  {
    if input == [] then 0
    else
      var (s, a) := input[|input| - 1];
      TotalArrangements(input[..|input| - 1], unfold)
      + (if unfold then Arrangements(UnfoldStatus(s), UnfoldAmounts(a)) else Arrangements(s, a))
  }

  predicate AllPositive(input: seq<(seq<Status>, seq<nat>)>)
  {
    forall k | 0 <= k < |input| :: Positive(input[k].1)
  }

  /** Part a is the total number of arrangements of the rows. */
  lemma {:induction false} PartAArrangements(input: seq<(seq<Status>, seq<nat>)>)
    requires AllPositive(input)
    ensures PartA(input) == TotalArrangements(input, false)
  {
    if input != [] {
      var init := input[..|input| - 1];
      assert AllPositive(init) by {
        forall k | 0 <= k < |init|
          ensures Positive(init[k].1)
        {
          assert init[k] == input[k];
        }
      }
      PartAArrangements(init);
      PossibilitiesAreArrangements(input[|input| - 1].0, input[|input| - 1].1);
    }
  }

  /** Unfolding keeps the amounts positive. */
  lemma UnfoldPositive(a: seq<nat>)
    requires Positive(a)
    ensures Positive(UnfoldAmounts(a))
  {
    var r := UnfoldAmounts(a);
    forall i | 0 <= i < |r|
      ensures r[i] > 0
    {
      assert r[i] == a[i % |a|];
    }
  }

  /** Part b is the total number of arrangements of the unfolded rows. */
  lemma {:induction false} PartBArrangements(input: seq<(seq<Status>, seq<nat>)>)
    requires AllPositive(input)
    ensures PartB(input) == TotalArrangements(input, true)
  {
    if input != [] {
      var init := input[..|input| - 1];
      assert AllPositive(init) by {
        forall k | 0 <= k < |init|
          ensures Positive(init[k].1)
        {
          assert init[k] == input[k];
        }
      }
      PartBArrangements(init);
      var (s, a) := input[|input| - 1];
      UnfoldPositive(a);
      PossibilitiesAreArrangements(UnfoldStatus(s), UnfoldAmounts(a));
    }
  }
}
