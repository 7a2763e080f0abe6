/**
 * Year 2023, day 20: pulses travel through a network of flip-flops and
 * conjunctions.  The whole network's memory is one 64-bit word, a bit per
 * module; a button press sends a low pulse through the broadcaster, and
 * pulses are handled first in, first out until none are left.
 */
module Y2023Day20 {
  import opened Common

  datatype Kind = Broadcast | Conjunction | FlipFlop

  /**
   * A module: its kind, the modules feeding it, and where it sends.  The
   * input mask, a 64-bit word with a bit per module, is kept as the set of
   * its bit positions.
   */
  datatype Module = Module(kind: Kind, inMask: set<nat>, outList: seq<nat>)

  /** The network: its modules, numbered by position, and the broadcaster's outputs. */
  datatype System = System(modules: seq<Module>, broadcast: seq<nat>)

  /** A pulse: the module it reaches, and whether it is high. */
  type Pulse = (nat, bool)

  predicate Targets(n: nat, outs: seq<nat>)
  {
    forall i | 0 <= i < |outs| :: outs[i] < n
  }

  /** At most 64 modules (one bit each), and every output names a module. */
  predicate Valid(sys: System)
  {
    |sys.modules| <= 64
    && Targets(|sys.modules|, sys.broadcast)
    && forall k | 0 <= k < |sys.modules| :: Targets(|sys.modules|, sys.modules[k].outList)
  }

  /** The network's memory, one 64-bit word, as the set of positions of its set bits. */
  type Memory = set<nat>

  /** One pulse of the given level to every output, in order. */
  function Sends(outs: seq<nat>, high: bool): (r: seq<Pulse>)
    ensures |r| == |outs|
    ensures forall i | 0 <= i < |outs| :: r[i] == (outs[i], high)
  {
    seq(|outs|, i requires 0 <= i < |outs| => (outs[i], high))
  }

  /**
   * How module `idx` reacts to a pulse: its new memory and the pulses it
   * sends.  A flip-flop ignores high pulses and on a low one toggles its
   * bit and sends high iff the bit is now set; a conjunction sets its bit
   * iff all its inputs' bits are set and sends low iff its bit is set; the
   * broadcaster, reached by a pulse, does nothing.  No other bit changes.
   */
  function React(sys: System, idx: nat, high: bool, state: Memory): (r: (Memory, seq<Pulse>))
    requires Valid(sys) && idx < |sys.modules|
    ensures r.0 - {idx} == state - {idx}
    ensures sys.modules[idx].kind == FlipFlop && high ==> r == (state, [])
    ensures sys.modules[idx].kind == FlipFlop && !high ==>
      (idx in r.0 <==> idx !in state) && r.1 == Sends(sys.modules[idx].outList, idx in r.0)
    ensures sys.modules[idx].kind == Conjunction ==>
      (idx in r.0 <==> sys.modules[idx].inMask <= state)
      && r.1 == Sends(sys.modules[idx].outList, idx !in r.0)
    ensures sys.modules[idx].kind == Broadcast ==> r == (state, [])
  {
    var m := sys.modules[idx];
    match m.kind
    case FlipFlop =>
      if high then (state, [])
      else
        var s := if idx in state then state - {idx} else state + {idx};
        (s, Sends(m.outList, idx in s))
    case Conjunction =>
      var s := if m.inMask <= state then state + {idx} else state - {idx};
      (s, Sends(m.outList, idx !in s))
    case Broadcast => (state, [])
  }

  /** What `perform_step` accumulates: the memory, the low and high totals, and the per-module counts. */
  datatype Tally = Tally(state: Memory, low: nat, high: nat, lows: seq<nat>, highs: seq<nat>)

  predicate Fits(sys: System, t: Tally)
  {
    |t.lows| == |sys.modules| && |t.highs| == |sys.modules|
  }

  /** Counting one dequeued pulse: exactly one total and the matching counter of its target go up. */
  function Count(t: Tally, p: Pulse): (r: Tally)
    requires p.0 < |t.lows| && p.0 < |t.highs|
    ensures r.state == t.state && |r.lows| == |t.lows| && |r.highs| == |t.highs|
    ensures r.low + r.high == t.low + t.high + 1
    ensures p.1 ==> r.low == t.low && r.high == t.high + 1 && r.lows == t.lows && r.highs == t.highs[p.0 := t.highs[p.0] + 1]
    ensures !p.1 ==> r.high == t.high && r.low == t.low + 1 && r.highs == t.highs && r.lows == t.lows[p.0 := t.lows[p.0] + 1]
  {
    var (idx, high) := p;
    var up := if high then 0 else 1;
    var hi := if high then 1 else 0;
    Tally(t.state, t.low + up, t.high + hi, t.lows[idx := t.lows[idx] + up], t.highs[idx := t.highs[idx] + hi])
  }

  /**
   * Handle the queued pulses first in, first out: count each, let its
   * target react, and queue what it sends behind everything already
   * queued.  `None` when more than `fuel` pulses would be needed.
   */
  function Drain(sys: System, queue: seq<Pulse>, t: Tally, fuel: nat): Option<Tally>
    requires Valid(sys) && Fits(sys, t)
    requires forall i | 0 <= i < |queue| :: queue[i].0 < |sys.modules|
    decreases fuel
  {
    if queue == [] then Some(t)
    else if fuel == 0 then None
    else
      var (idx, high) := queue[0];
      var c := Count(t, queue[0]);
      var (s, sent) := React(sys, idx, high, c.state);
      Drain(sys, queue[1..] + sent, c.(state := s), fuel - 1)
  }

  function Zeros(n: nat): (r: seq<nat>)
    ensures |r| == n && forall i | 0 <= i < n :: r[i] == 0
  {
    seq(n, _ => 0)
  }

  /** One button press from memory `state`: the broadcaster's low pulses, with the press itself counted as a low pulse. */
  function Press(sys: System, state: Memory, fuel: nat): Option<Tally>
    requires Valid(sys)
  {
    var n := |sys.modules|;
    Drain(sys, Sends(sys.broadcast, false), Tally(state, 1, 0, Zeros(n), Zeros(n)), fuel)
  }

  /** `perform_step`, with the queue, the counters and the memory updated in place. */
  method PerformStep(sys: System, state: Memory, fuel: nat) returns (r: Option<Tally>)
    requires Valid(sys)
    ensures r == Press(sys, state, fuel)
  {
    var n := |sys.modules|;
    var queue := Sends(sys.broadcast, false);
    var t := Tally(state, 1, 0, Zeros(n), Zeros(n));
    var left := fuel;
    while queue != []
      invariant Fits(sys, t)
      invariant forall i | 0 <= i < |queue| :: queue[i].0 < n
      invariant Drain(sys, queue, t, left) == Press(sys, state, fuel)
      decreases left
    {
      if left == 0 {
        return None;
      }
      var (idx, high) := queue[0];
      t, queue := Handle(sys, idx, high, t, queue[1..]);
      left := left - 1;
    }
    r := Some(t);
  }

  /**
   * The body of `perform_step`'s loop for one dequeued pulse: count it,
   * let its target react, and queue what the target sends.
   */
  method Handle(sys: System, idx: nat, high: bool, t: Tally, rest: seq<Pulse>) returns (t': Tally, queue: seq<Pulse>)
    requires Valid(sys) && Fits(sys, t) && idx < |sys.modules|
    ensures var c := Count(t, (idx, high));
      var (s, sent) := React(sys, idx, high, c.state);
      t' == c.(state := s) && queue == rest + sent
  {
    queue := rest;
    t' := Count(t, (idx, high));
    var m := sys.modules[idx];
    match m.kind {
      case FlipFlop =>
        if !high {
          t' := t'.(state := if idx in t'.state then t'.state - {idx} else t'.state + {idx});
          queue := queue + Sends(m.outList, idx in t'.state);
        }
      case Conjunction =>
        if m.inMask <= t'.state {
          t' := t'.(state := t'.state + {idx});
        } else {
          t' := t'.(state := t'.state - {idx});
        }
        queue := queue + Sends(m.outList, idx !in t'.state);
      case Broadcast =>
    }
  }

  /** The per-module counters add up to the totals, the press itself aside. */
  predicate Balanced(t: Tally)
  {
    Sum(t.lows) + 1 == t.low && Sum(t.highs) == t.high
  }

  lemma {:induction false} SumBump(s: seq<nat>, i: nat)
    requires i < |s|
    ensures Sum(s[i := s[i] + 1]) == Sum(s) + 1
  {
    var s' := s[i := s[i] + 1];
    assert s'[..|s| - 1] == if i == |s| - 1 then s[..|s| - 1] else s[..|s| - 1][i := s[i] + 1];
    if i < |s| - 1 {
      SumBump(s[..|s| - 1], i);
    }
  }

  lemma {:induction false} SumZeros(n: nat)
    ensures Sum(Zeros(n)) == 0
  {
    if n > 0 {
      assert Zeros(n)[..n - 1] == Zeros(n - 1);
      SumZeros(n - 1);
    }
  }

  /** Counting a pulse keeps the counters in step with the totals. */
  lemma CountBalanced(t: Tally, p: Pulse)
    requires p.0 < |t.lows| && p.0 < |t.highs| && Balanced(t)
    ensures Balanced(Count(t, p))
  {
    if p.1 {
      SumBump(t.highs, p.0);
    } else {
      SumBump(t.lows, p.0);
    }
  }

  /** Draining keeps the counters in step with the totals, and the totals only grow. */
  lemma {:induction false} DrainBalanced(sys: System, queue: seq<Pulse>, t: Tally, fuel: nat)
    requires Valid(sys) && Fits(sys, t) && Balanced(t)
    requires forall i | 0 <= i < |queue| :: queue[i].0 < |sys.modules|
    requires Drain(sys, queue, t, fuel).Some?
    ensures Balanced(Drain(sys, queue, t, fuel).value)
    ensures Drain(sys, queue, t, fuel).value.low >= t.low && Drain(sys, queue, t, fuel).value.high >= t.high + 0
    ensures Drain(sys, queue, t, fuel).value.low + Drain(sys, queue, t, fuel).value.high >= t.low + t.high + |queue|
    decreases fuel
  {
    if queue != [] {
      var (idx, high) := queue[0];
      var c := Count(t, queue[0]);
      CountBalanced(t, queue[0]);
      var (s, sent) := React(sys, idx, high, c.state);
      DrainBalanced(sys, queue[1..] + sent, c.(state := s), fuel - 1);
    }
  }

  /** A press counts itself as a low pulse, plus one pulse per broadcaster output at least, with the counters matching the totals. */
  lemma PressBalanced(sys: System, state: Memory, fuel: nat)
    requires Valid(sys) && Press(sys, state, fuel).Some?
    ensures Balanced(Press(sys, state, fuel).value)
    ensures Press(sys, state, fuel).value.low >= 1
    ensures Press(sys, state, fuel).value.low + Press(sys, state, fuel).value.high >= 1 + |sys.broadcast|
  {
    var n := |sys.modules|;
    SumZeros(n);
    DrainBalanced(sys, Sends(sys.broadcast, false), Tally(state, 1, 0, Zeros(n), Zeros(n)), fuel);
  }

  /** `n` presses with the memory carried from one to the next: the final memory and the low and high totals. */
  function Presses(sys: System, state: Memory, n: nat, fuel: nat): Option<(Memory, nat, nat)>
    requires Valid(sys)
  {
    if n == 0 then Some((state, 0, 0))
    else
      match Presses(sys, state, n - 1, fuel)
      case None => None
      case Some((s, low, high)) =>
        match Press(sys, s, fuel)
        case None => None
        case Some(t) => Some((t.state, low + t.low, high + t.high))
  }

  /** Every press adds at least one low pulse, the button's own. */
  lemma {:induction false} PressesLow(sys: System, state: Memory, n: nat, fuel: nat)
    requires Valid(sys) && Presses(sys, state, n, fuel).Some?
    ensures Presses(sys, state, n, fuel).value.1 >= n
  {
    if n > 0 {
      PressesLow(sys, state, n - 1, fuel);
      var s := Presses(sys, state, n - 1, fuel).value.0;
      PressBalanced(sys, s, fuel);
    }
  }

  /**
   * Part a: 1000 presses from an all-clear memory; the product of the low
   * and high totals.  Each press may handle at most `fuel` pulses; `None`
   * when one needs more.
   */
  method PartA(sys: System, fuel: nat) returns (r: Option<nat>)
    requires Valid(sys)
    ensures Presses(sys, {}, 1000, fuel).None? ==> r.None?
    ensures Presses(sys, {}, 1000, fuel).Some? ==>
      r == Some(Presses(sys, {}, 1000, fuel).value.1 * Presses(sys, {}, 1000, fuel).value.2)
  {
    var state: Memory := {};
    var low, high := 0, 0;
    for i := 0 to 1000
      invariant Presses(sys, {}, i, fuel) == Some((state, low, high))
    {
      var step := PerformStep(sys, state, fuel);
      if step.None? {
        NoneStays(sys, i + 1, 1000, fuel);
        return None;
      }
      state, low, high := step.value.state, low + step.value.low, high + step.value.high;
    }
    r := Some(low * high);
  }

  /** Once a press runs out of fuel, so do all longer runs. */
  lemma {:induction false} NoneStays(sys: System, i: nat, n: nat, fuel: nat)
    requires Valid(sys) && i <= n && Presses(sys, {}, i, fuel).None?
    ensures Presses(sys, {}, n, fuel).None?
    decreases n - i
  {
    if i < n {
      NoneStays(sys, i + 1, n, fuel);
    }
  }
}
