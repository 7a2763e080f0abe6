/**
 * Year 2024, day 5: page-ordering rules `x|y` ("x before y") and updates,
 * each a list of page numbers.  An update is correctly ordered when no later
 * page is required to come before an earlier one; `order` repairs an update
 * in place by swapping the first violating pair and starting over.
 */
module Y2024Day05 {

  type Rules = set<(nat, nat)>

  /** Reference definition: no pair `i < j` with the rule `u[j]|u[i]`. */
  predicate Ordered(rules: Rules, u: seq<nat>)
  {
    forall i, j | 0 <= i < j < |u| :: (u[j], u[i]) !in rules
  }

  /** Some later page of `u` must come before `u[i]`. */
  predicate BadAt(rules: Rules, u: seq<nat>, i: nat)
    requires i < |u|
  {
    exists j | i < j < |u| :: (u[j], u[i]) in rules
  }

  /**
   * The check of `part_a`'s filter: two nested loops, returning `false` at
   * the first violating pair.
   */
  method IsOrdered(rules: Rules, u: seq<nat>) returns (ok: bool)
    ensures ok <==> Ordered(rules, u)
  {
    for i := 0 to |u|
      invariant forall i', j | 0 <= i' < i && i' < j < |u| :: (u[j], u[i']) !in rules
    {
      for j := i + 1 to |u|
        invariant forall i', j' | 0 <= i' < i && i' < j' < |u| :: (u[j'], u[i']) !in rules
        invariant forall j' | i < j' < j :: (u[j'], u[i]) !in rules
      {
        if (u[j], u[i]) in rules {
          return false;
        }
      }
    }
    return true;
  }

  /** The first index from `from` on at which `u` is bad, or `|u|` if there is none. */
  function FirstBadFrom(rules: Rules, u: seq<nat>, from: nat): (r: nat)
    requires from <= |u|
    ensures from <= r <= |u|
    decreases |u| - from
  {
    if from == |u| then |u|
    else if BadAt(rules, u, from) then from
    else FirstBadFrom(rules, u, from + 1)
  }

  function FirstBad(rules: Rules, u: seq<nat>): nat
  {
    FirstBadFrom(rules, u, 0)
  }

  /** With no bad index in `[from, m)`, the search gets at least to `m`, and stops at `m` when `m` is bad. */
  lemma {:induction false} FirstBadAtLeast(rules: Rules, u: seq<nat>, from: nat, m: nat)
    requires from <= m <= |u|
    requires forall k | from <= k < m :: !BadAt(rules, u, k)
    ensures FirstBadFrom(rules, u, from) >= m
    ensures m < |u| && BadAt(rules, u, m) ==> FirstBadFrom(rules, u, from) == m
    decreases m - from
  {
    if from < m {
      FirstBadAtLeast(rules, u, from + 1, m);
    }
  }

  /** A sequence is ordered exactly when no index is bad. */
  lemma OrderedIffNoBad(rules: Rules, u: seq<nat>)
    ensures Ordered(rules, u) <==> FirstBad(rules, u) == |u|
  {
    if Ordered(rules, u) {
      FirstBadAtLeast(rules, u, 0, |u|);
    } else {
      var i, j :| 0 <= i < j < |u| && (u[j], u[i]) in rules;
      assert BadAt(rules, u, i);
      NotPastBad(rules, u, 0, i);
    }
  }

  /** The search never passes a bad index. */
  lemma {:induction false} NotPastBad(rules: Rules, u: seq<nat>, from: nat, i: nat)
    requires from <= i < |u| && BadAt(rules, u, i)
    ensures FirstBadFrom(rules, u, from) <= i
    decreases i - from
  {
    if from < i && !BadAt(rules, u, from) {
      NotPastBad(rules, u, from + 1, i);
    }
  }

  /**
   * `rank` orders the pages of `u` consistently with the rules among them.
   * `order` terminates only under such a ranking: with a cycle of rules among
   * the pages of an update it may swap forever.
   */
  predicate Ranked(rules: Rules, u: seq<nat>, rank: nat -> nat)
  {
    forall x, y | (x, y) in rules && x in u && y in u :: rank(x) < rank(y)
  }

  /** The rank of the page at the first bad index; 0 if there is none. */
  function BadRank(rules: Rules, u: seq<nat>, rank: nat -> nat): nat
  {
    var i := FirstBad(rules, u);
    if i < |u| then rank(u[i]) else 0
  }

  /**
   * Swapping the first violating pair `i < j` keeps the pages and the
   * ranking, keeps every index before `i` good, and if `i` stays the first
   * bad index its page now ranks lower.
   */
  lemma SwapProgress(rules: Rules, u: seq<nat>, v: seq<nat>, i: nat, j: nat, rank: nat -> nat)
    requires i < j < |u| && v == u[i := u[j]][j := u[i]]
    requires forall k | 0 <= k < i :: !BadAt(rules, u, k)
    requires (u[j], u[i]) in rules && Ranked(rules, u, rank)
    ensures !Ordered(rules, u) && FirstBad(rules, u) == i
    ensures multiset(v) == multiset(u) && Ranked(rules, v, rank)
    ensures FirstBad(rules, v) > i || (FirstBad(rules, v) == i && BadRank(rules, v, rank) < BadRank(rules, u, rank))
  {
    assert BadAt(rules, u, i);
    FirstBadAtLeast(rules, u, 0, i);
    forall k, l | 0 <= k < i && k < l < |v|
      ensures (v[l], v[k]) !in rules
    {
      var l' := if l == i then j else if l == j then i else l;
      assert !BadAt(rules, u, k);
      assert v[l] == u[l'] && v[k] == u[k] && k < l';
    }
    FirstBadAtLeast(rules, v, 0, i);
    assert u[j] in u && u[i] in u;
    SwapPermutes(u, i, j);
  }

  /** Swapping two entries keeps the elements. */
  lemma SwapPermutes(u: seq<nat>, i: nat, j: nat)
    requires i < j < |u|
    ensures multiset(u[i := u[j]][j := u[i]]) == multiset(u)
    ensures forall x :: x in u[i := u[j]][j := u[i]] <==> x in u
  {
    var v := u[i := u[j]][j := u[i]];
    assert multiset(v) == multiset(u);
    forall x
      ensures x in v <==> x in u
    {
      assert x in v <==> x in multiset(v);
      assert x in u <==> x in multiset(u);
    }
  }

  /**
   * `order`: look for the first pair `i < j` with the rule `u[j]|u[i]`, swap
   * it, call itself again and return `false`; return `true` if there is no
   * such pair.  The update ends up ordered and a permutation of itself.
   */
  method Order(rules: Rules, a: array<nat>, ghost rank: nat -> nat) returns (wasOrdered: bool)
    requires Ranked(rules, a[..], rank)
    modifies a
    ensures multiset(a[..]) == multiset(old(a[..]))
    ensures Ordered(rules, a[..])
    ensures wasOrdered <==> Ordered(rules, old(a[..]))
    ensures wasOrdered ==> a[..] == old(a[..])
    decreases a.Length - FirstBad(rules, a[..]), BadRank(rules, a[..], rank)
  {
    ghost var u := a[..];
    for i := 0 to a.Length
      invariant a[..] == u
      invariant forall k | 0 <= k < i :: !BadAt(rules, u, k)
    {
      for j := i + 1 to a.Length
        invariant a[..] == u
        invariant forall l | i < l < j :: (u[l], u[i]) !in rules
      {
        if (a[j], a[i]) in rules {
          a[i], a[j] := a[j], a[i];
          SwapProgress(rules, u, a[..], i, j, rank);
          var _ := Order(rules, a, rank);
          return false;
        }
      }
      assert !BadAt(rules, u, i);
    }
    NoBadIsOrdered(rules, u);
    return true;
  }

  lemma NoBadIsOrdered(rules: Rules, u: seq<nat>)
    requires forall k | 0 <= k < |u| :: !BadAt(rules, u, k)
    ensures Ordered(rules, u)
  {
    forall i, j | 0 <= i < j < |u|
      ensures (u[j], u[i]) !in rules
    {
      assert !BadAt(rules, u, i);
    }
  }

  /** The page in the middle, `u[u.len() / 2]`; an empty update would panic. */
  function Middle(u: seq<nat>): nat
    requires |u| > 0
  {
    u[|u| / 2]
  }

  predicate NonEmpty(updates: seq<seq<nat>>)
  {
    forall k | 0 <= k < |updates| :: |updates[k]| > 0
  }

  /** The middle pages of the correctly ordered updates, summed. */
  function OrderedMiddles(rules: Rules, updates: seq<seq<nat>>): nat
    requires NonEmpty(updates)
  {
    if updates == [] then 0
    else
      var u := updates[|updates| - 1];
      OrderedMiddles(rules, updates[..|updates| - 1]) + (if Ordered(rules, u) then Middle(u) else 0)
  }

  /** `part_a`: the middle pages of the updates that pass the check. */
  method PartA(rules: Rules, updates: seq<seq<nat>>) returns (sum: nat)
    requires NonEmpty(updates)
    ensures sum == OrderedMiddles(rules, updates)
  {
    sum := 0;
    for k := 0 to |updates|
      invariant sum == OrderedMiddles(rules, updates[..k])
    {
      var ok := IsOrdered(rules, updates[k]);
      assert updates[..k + 1][..k] == updates[..k];
      if ok {
        sum := sum + Middle(updates[k]);
      }
    }
    assert updates[..|updates|] == updates;
  }

  /** `r` is a repair of `u`: the same pages, correctly ordered. */
  predicate IsRepair(rules: Rules, u: seq<nat>, r: seq<nat>)
  {
    multiset(r) == multiset(u) && Ordered(rules, r)
  }

  /** The middle pages of the repairs of the updates that were not ordered, summed. */
  function RepairedMiddles(rules: Rules, updates: seq<seq<nat>>, repaired: seq<seq<nat>>): nat
    requires |repaired| == |updates|
    requires forall k | 0 <= k < |updates| :: |repaired[k]| > 0
  {
    if updates == [] then 0
    else
      var n := |updates| - 1;
      RepairedMiddles(rules, updates[..n], repaired[..n]) + (if Ordered(rules, updates[n]) then 0 else Middle(repaired[n]))
  }

  /**
   * `part_b`: every update is copied and repaired by `order`; the middle
   * pages of those that `order` had to change are summed.  `repaired` holds
   * the repaired copies.
   */
  method PartB(rules: Rules, updates: seq<seq<nat>>, ghost ranks: seq<nat -> nat>)
    returns (sum: nat, ghost repaired: seq<seq<nat>>)
    requires NonEmpty(updates) && |ranks| == |updates|
    requires forall k | 0 <= k < |updates| :: Ranked(rules, updates[k], ranks[k])
    ensures |repaired| == |updates|
    ensures forall k | 0 <= k < |updates| :: IsRepair(rules, updates[k], repaired[k]) && |repaired[k]| > 0
    ensures sum == RepairedMiddles(rules, updates, repaired)
  {
    sum, repaired := 0, [];
    for k := 0 to |updates|
      invariant |repaired| == k
      invariant forall l | 0 <= l < k :: IsRepair(rules, updates[l], repaired[l]) && |repaired[l]| > 0
      invariant sum == RepairedMiddles(rules, updates[..k], repaired)
    {
      var u := updates[k];
      var a := new nat[|u|](i requires 0 <= i < |u| => u[i]);
      assert a[..] == u;
      var wasOrdered := Order(rules, a, ranks[k]);
      assert |a[..]| == |multiset(a[..])| == |u| > 0;
      ghost var prev := repaired;
      repaired := repaired + [a[..]];
      assert updates[..k + 1][..k] == updates[..k] && repaired[..k] == prev;
      if !wasOrdered {
        sum := sum + Middle(a[..]);
      }
    }
    assert updates[..|updates|] == updates;
  }

  /**
   * The rules decide every pair of distinct pages of `u`, as the puzzle's
   * rules do for each update.
   */
  predicate Total(rules: Rules, u: seq<nat>)
  {
    forall x, y | x in u && y in u && x != y :: (x, y) in rules || (y, x) in rules
  }

  /** The pages of `w` are pages of `u`: the ranking and the totality carry over. */
  lemma RankedSub(rules: Rules, u: seq<nat>, w: seq<nat>, rank: nat -> nat)
    requires Ranked(rules, u, rank) && Total(rules, u)
    requires forall z | z in w :: z in u
    ensures Ranked(rules, w, rank) && Total(rules, w)
  {
  }

  /** Two repairs of `u` start with the same page: the one of least rank. */
  lemma HeadsEqual(rules: Rules, u: seq<nat>, r1: seq<nat>, r2: seq<nat>, rank: nat -> nat)
    requires Ranked(rules, u, rank) && Total(rules, u)
    requires IsRepair(rules, u, r1) && IsRepair(rules, u, r2) && |r1| > 0 && |r2| > 0
    ensures r1[0] == r2[0]
  {
    var x, y := r1[0], r2[0];
    assert x in multiset(r1) && y in multiset(r2);
    assert x in r2 && y in r1 && x in u && y in u;
    var k :| 0 <= k < |r1| && r1[k] == y;
    var m :| 0 <= m < |r2| && r2[m] == x;
    assert k > 0 ==> (y, x) !in rules;
    assert m > 0 ==> (x, y) !in rules;
  }

  /** Dropping the first page keeps an update ordered. */
  lemma OrderedTail(rules: Rules, r: seq<nat>)
    requires Ordered(rules, r) && |r| > 0
    ensures Ordered(rules, r[1..])
  {
    forall i, j | 0 <= i < j < |r| - 1
      ensures (r[1..][j], r[1..][i]) !in rules
    {
      assert r[1..][j] == r[j + 1] && r[1..][i] == r[i + 1];
    }
  }

  /** Dropping the first page removes one copy of it, and what is left are pages of `r`. */
  lemma TailCounts(r: seq<nat>)
    requires |r| > 0
    ensures multiset(r[1..]) == multiset(r) - multiset{r[0]}
    ensures forall z | z in r[1..] :: z in r
  {
    assert r == [r[0]] + r[1..];
  }

  /** Dropping the common first page leaves two repairs of the same rest. */
  lemma TailsRepair(rules: Rules, u: seq<nat>, r1: seq<nat>, r2: seq<nat>, rank: nat -> nat)
    requires Ranked(rules, u, rank) && Total(rules, u)
    requires IsRepair(rules, u, r1) && IsRepair(rules, u, r2) && |r1| > 0 && |r2| > 0 && r1[0] == r2[0]
    ensures Ranked(rules, r1[1..], rank) && Total(rules, r1[1..])
    ensures IsRepair(rules, r1[1..], r1[1..]) && IsRepair(rules, r1[1..], r2[1..])
  {
    TailCounts(r1);
    TailCounts(r2);
    OrderedTail(rules, r1);
    OrderedTail(rules, r2);
    forall z | z in r1[1..]
      ensures z in u
    {
      assert z in multiset(r1);
    }
    RankedSub(rules, u, r1[1..], rank);
  }

  /**
   * When the rules are ranked and decide every pair, the repair is unique:
   * the sum of `part_b` does not depend on how `order` swaps.
   */
  lemma {:induction false} RepairUnique(rules: Rules, u: seq<nat>, r1: seq<nat>, r2: seq<nat>, rank: nat -> nat)
    requires Ranked(rules, u, rank) && Total(rules, u)
    requires IsRepair(rules, u, r1) && IsRepair(rules, u, r2)
    ensures r1 == r2
    decreases |r1|
  {
    assert |r2| == |multiset(r2)| == |r1|;
    if r1 != [] {
      HeadsEqual(rules, u, r1, r2, rank);
      TailsRepair(rules, u, r1, r2, rank);
      RepairUnique(rules, r1[1..], r1[1..], r2[1..], rank);
      assert r1 == [r1[0]] + r1[1..] && r2 == [r2[0]] + r2[1..];
    }
  }
}
