/**
 * Year 2023, day 21, the counting side: the loop that records the plot
 * counts until they settle, and `get_c_at_time`, which reads a count off
 * the settled record; both over any count function.
 */
module Y2023Day21Counts {
  import opened Common

  /**
   * The loop of `sim_with_start_pos` after `k` steps, with the counts so
   * far, for counts given by `count`: step, count, and stop as soon as the
   * new count equals the count two entries back, without appending it.
   * `None` after `fuel` more steps.
   */
  function Settle(count: nat -> nat, k: nat, res: seq<nat>, fuel: nat): (r: Option<seq<nat>>)
    ensures r.Some? ==> |r.value| >= 2 && |r.value| >= |res| && r.value[..|res|] == res
    decreases fuel
  {
    if fuel == 0 then None
    else
      var c := count(k + 1);
      if |res| > 1 && res[|res| - 2] == c then Some(res)
      else Settle(count, k + 1, res + [c], fuel - 1)
  }

  /** The loop depends only on the values of the count function. */
  lemma {:induction false} SettleSame(count: nat -> nat, count': nat -> nat, k: nat, res: seq<nat>, fuel: nat)
    requires forall n: nat :: count(n) == count'(n)
    ensures Settle(count, k, res, fuel) == Settle(count', k, res, fuel)
    decreases fuel
  {
    if fuel > 0 {
      SettleSame(count, count', k + 1, res + [count(k + 1)], fuel - 1);
    }
  }

  /**
   * The state of the loop after `k` steps: the counts so far, one per
   * step, and `left` rounds to go, with `goal` the loop's answer.
   */
  predicate Pending(count: nat -> nat, k: nat, counts: seq<nat>, left: nat, goal: Option<seq<nat>>)
  {
    |counts| == k + 1 && Settle(count, k, counts, left) == goal
  }

  /** A round that does not stop leaves the loop with one more count and one round less. */
  lemma PendingNext(count: nat -> nat, k: nat, counts: seq<nat>, left: nat, c: nat, goal: Option<seq<nat>>)
    requires Pending(count, k, counts, left, goal) && left > 0 && c == count(k + 1)
    requires !(|counts| > 1 && counts[|counts| - 2] == c)
    ensures Pending(count, k + 1, counts + [c], left - 1, goal)
  {
  }

  /** A round that stops answers the counts so far. */
  lemma PendingStop(count: nat -> nat, k: nat, counts: seq<nat>, left: nat, c: nat, goal: Option<seq<nat>>)
    requires Pending(count, k, counts, left, goal) && left > 0 && c == count(k + 1)
    requires |counts| > 1 && counts[|counts| - 2] == c
    ensures goal == Some(counts)
  {
  }

  /** With no rounds left the loop gives up. */
  lemma PendingOut(count: nat -> nat, k: nat, counts: seq<nat>, goal: Option<seq<nat>>)
    requires Pending(count, k, counts, 0, goal)
    ensures goal == None
  {
  }

  /** The counts describe the run: they begin with 1, entry `i` is the count after `i` steps, and no entry repeats the one two back. */
  predicate Describes(count: nat -> nat, res: seq<nat>)
  {
    |res| >= 1 && res[0] == 1
    && (forall i | 1 <= i < |res| :: res[i] == count(i))
    && (forall i | 2 <= i < |res| :: res[i] != res[i - 2])
  }

  /** The settled counts describe the run, and the next step's count repeats the one two back. */
  lemma {:induction false} SettleDescribes(count: nat -> nat, res: seq<nat>, fuel: nat)
    requires Describes(count, res) && Settle(count, |res| - 1, res, fuel).Some?
    ensures var r := Settle(count, |res| - 1, res, fuel).value;
      Describes(count, r) && count(|r|) == r[|r| - 2]
    decreases fuel
  {
    var c := count(|res|);
    if !(|res| > 1 && res[|res| - 2] == c) {
      var res' := res + [c];
      assert Describes(count, res') by {
        assert forall i | 0 <= i < |res| :: res'[i] == res[i];
      }
      SettleDescribes(count, res', fuel - 1);
    }
  }

  /**
   * `get_c_at_time`: the count at time `t` when it was recorded, otherwise
   * the last recorded count whose time has `t`'s parity.
   */
  function GetCAtTime(cs: seq<nat>, t: nat): (r: nat)
    requires t < |cs| || |cs| >= 2
    ensures t < |cs| ==> r == cs[t]
    ensures t >= |cs| ==> exists i | |cs| - 2 <= i < |cs| :: i % 2 == t % 2 && r == cs[i]
  {
    if t < |cs| then cs[t]
    else
      var idx := |cs| - 1;
      var idx' := if t % 2 != idx % 2 then idx - 1 else idx;
      assert idx' % 2 == t % 2;
      cs[idx']
  }

  /** Past the recorded counts, `get_c_at_time` depends only on the parity of the time. */
  lemma GetCAtTimeParity(cs: seq<nat>, t: nat)
    requires |cs| >= 2 && t >= |cs| + 2
    ensures GetCAtTime(cs, t) == GetCAtTime(cs, t - 2)
  {
  }

  /** The count after `n` steps equals the count two steps earlier. */
  predicate Alternates(count: nat -> nat, n: nat)
    requires n >= 2
  {
    count(n) == count(n - 2)
  }

  /**
   * When the counts do alternate from the last two recorded on, the
   * answer of `get_c_at_time` is the true count at any time.
   */
  lemma {:induction false} GetCAtTimeExact(count: nat -> nat, cs: seq<nat>, t: nat)
    requires Describes(count, cs) && |cs| >= 2 && count(0) == 1
    requires forall n | n >= |cs| :: Alternates(count, n)
    ensures GetCAtTime(cs, t) == count(t)
    decreases t
  {
    if t >= |cs| {
      assert Alternates(count, t);
      if t >= |cs| + 2 {
        GetCAtTimeParity(cs, t);
      }
      GetCAtTimeExact(count, cs, t - 2);
    }
  }
}
