/**
 * Year 2023, day 8: walking a network of nodes by a repeated list of
 * left/right instructions.  Node labels are three bytes packed into one
 * number.  Part a counts the steps from `AAA` to `ZZZ`; part b traces, from
 * every start node, the eventually periodic walk as a `Cycle`: the steps
 * before the period, the period's length, and the steps at which the walk
 * stands on an end node.
 */
module Y2023Day08 {
  import opened Common

  type Byte = x: nat | x < 256

  datatype Direction = Left | Right

  datatype Node = Node(left: nat, right: nat)
  {
    /** `get`: the child the direction points to. */
    function Get(d: Direction): (r: nat)
      ensures d == Left ==> r == left
      ensures d == Right ==> r == right
    {
      match d
      case Left => left
      case Right => right
    }
  }

  /**
   * `index`: the first three bytes of a label as one number, most
   * significant first.  The bytes can be read back, so the low byte is the
   * label's third letter, the one `is_start` and `is_end` test.
   */
  function Index(name: seq<Byte>): (r: nat)
    requires |name| >= 3
    ensures r < 0x100_0000
    ensures r / 65536 == name[0] && r / 256 % 256 == name[1] && r % 256 == name[2]
    ensures IsStart(r) <==> name[2] == 'A' as nat
    ensures IsEnd(r) <==> name[2] == 'Z' as nat
  {
    var b0, b1, b2: nat := name[0], name[1], name[2];
    var r := b0 * 65536 + b1 * 256 + b2;
    ModUnique(r, 256, b0 * 256 + b1, b2);
    ModUnique(r / 256, 256, b0, b1);
    r
  }

  /** Two labels get the same index exactly when their first three bytes agree. */
  lemma IndexInjective(a: seq<Byte>, b: seq<Byte>)
    requires |a| >= 3 && |b| >= 3
    ensures Index(a) == Index(b) <==> a[..3] == b[..3]
  {
    if a[..3] == b[..3] {
      assert a[0] == b[0] && a[1] == b[1] && a[2] == b[2];
    }
    if Index(a) == Index(b) {
      assert a[..3] == [a[0], a[1], a[2]] && b[..3] == [b[0], b[1], b[2]];
    }
  }

  predicate IsStart(node: nat)
  {
    node % 256 == 'A' as nat
  }

  predicate IsEnd(node: nat)
  {
    node % 256 == 'Z' as nat
  }

  /** Both children of node `v` are nodes. */
  predicate HasChildren(graph: map<nat, Node>, v: nat)
    requires v in graph
  {
    graph[v].left in graph && graph[v].right in graph
  }

  /** The instructions and the nodes, keyed by index. */
  datatype Network = Network(instructions: seq<Direction>, graph: map<nat, Node>)
  {
    /** At least one instruction, and every child is itself a node. */
    predicate Valid()
    {
      |instructions| > 0 && forall v {:trigger HasChildren(graph, v)} | v in graph :: HasChildren(graph, v)
    }
  }

  /**
   * The instruction used by step `k + 1`: the list read cyclically.  An
   * empty list, which a valid network rules out, yields `Left`.
   */
  function Instr(net: Network, k: nat): Direction
    decreases k
  {
    if |net.instructions| == 0 then Left
    else if k < |net.instructions| then net.instructions[k]
    else Instr(net, k - |net.instructions|)
  }

  /** Reading cyclically is indexing modulo the number of instructions. */
  lemma {:induction false} InstrMod(net: Network, k: nat)
    requires |net.instructions| > 0
    ensures Instr(net, k) == net.instructions[k % |net.instructions|]
    decreases k
  {
    var l := |net.instructions|;
    if k < l {
      ModUnique(k, l, 0, k);
    } else {
      InstrMod(net, k - l);
      ModShift(k - l, l, l);
    }
  }

  /** Skipping a multiple of the number of instructions leads to the same instruction. */
  lemma InstrShift(net: Network, k: nat, len: nat)
    requires |net.instructions| > 0 && len % |net.instructions| == 0
    ensures Instr(net, k + len) == Instr(net, k)
  {
    InstrMod(net, k);
    InstrMod(net, k + len);
    ModShift(k, len, |net.instructions|);
  }

  /**
   * The node reached from `v` by direction `d`.  Where the source would
   * panic on a missing node, which a valid network rules out, the walk
   * stands still.
   */
  function Step(graph: map<nat, Node>, v: nat, d: Direction): (r: nat)
    ensures v in graph && HasChildren(graph, v) ==> r in graph
  {
    if v in graph then graph[v].Get(d) else v
  }

  /**
   * Reference definition of the walk: the node reached from `start` after
   * `n` steps, step `k` (from 1) following instruction `(k - 1) mod` the
   * number of instructions.
   */
  function Pos(net: Network, start: nat, n: nat): nat
  {
    if n == 0 then start else Step(net.graph, Pos(net, start, n - 1), Instr(net, n - 1))
  }

  /** In a valid network the walk never leaves the nodes. */
  lemma {:induction false} PosInGraph(net: Network, start: nat, n: nat)
    requires net.Valid() && start in net.graph
    ensures Pos(net, start, n) in net.graph
  {
    if n > 0 {
      PosInGraph(net, start, n - 1);
      assert HasChildren(net.graph, Pos(net, start, n - 1));
    }
  }

  lemma ModShift(a: nat, m: nat, l: nat)
    requires l > 0 && m % l == 0
    ensures (a + m) % l == a % l
  {
    ModUnique(a + m, l, a / l + m / l, a % l);
  }

  lemma ModDiff(a: nat, b: nat, l: nat)
    requires l > 0 && b <= a && a % l == b % l
    ensures (a - b) % l == 0
  {
    ModUnique(a - b, l, a / l - b / l, 0);
  }

  /**
   * Two steps at the same node and the same instruction position: from the
   * earlier one on, the walk repeats with the distance between them.
   */
  lemma {:induction false} Periodic(net: Network, start: nat, f: nat, len: nat, k: nat)
    requires net.Valid() && start in net.graph
    requires len > 0 && len % |net.instructions| == 0
    requires Pos(net, start, f + len) == Pos(net, start, f) && f <= k
    ensures Pos(net, start, k + len) == Pos(net, start, k)
    decreases k - f
  {
    if k > f {
      Periodic(net, start, f, len, k - 1);
      InstrShift(net, k - 1, len);
      assert k + len - 1 == (k - 1) + len;
    }
  }

  /** Past `f`, every step's node is found within the first period. */
  lemma {:induction false} Reduce(net: Network, start: nat, f: nat, len: nat, k: nat)
    requires net.Valid() && start in net.graph
    requires len > 0 && len % |net.instructions| == 0
    requires Pos(net, start, f + len) == Pos(net, start, f) && f <= k
    ensures Pos(net, start, k) == Pos(net, start, f + (k - f) % len)
    decreases k
  {
    if k - f >= len {
      Reduce(net, start, f, len, k - len);
      Periodic(net, start, f, len, k - len);
      ModShift(k - len - f, len, len);
      assert k - len + len == k;
    } else {
      ModUnique(k - f, len, 0, k - f);
    }
  }

  /** The first step at which the walk stands where it stands after `n` steps. */
  function FirstVisit(net: Network, start: nat, n: nat): (f: nat)
    ensures f <= n && Pos(net, start, f) == Pos(net, start, n)
    ensures forall k: nat | k < f :: Pos(net, start, k) != Pos(net, start, n)
  {
    FirstFrom(net, start, n, 0)
  }

  function FirstFrom(net: Network, start: nat, n: nat, k: nat): (f: nat)
    requires k <= n && forall j: nat | j < k :: Pos(net, start, j) != Pos(net, start, n)
    ensures k <= f <= n && Pos(net, start, f) == Pos(net, start, n)
    ensures forall j: nat | j < f :: Pos(net, start, j) != Pos(net, start, n)
    decreases n - k
  {
    if Pos(net, start, k) == Pos(net, start, n) then k else FirstFrom(net, start, n, k + 1)
  }

  /** Steps at the same node share their first visit. */
  lemma FirstVisitSame(net: Network, start: nat, a: nat, b: nat)
    requires Pos(net, start, a) == Pos(net, start, b)
    ensures FirstVisit(net, start, a) == FirstVisit(net, start, b)
  {
  }

  predicate Increasing(s: seq<nat>)
  {
    forall i, j | 0 <= i < j < |s| :: s[i] < s[j]
  }

  /** The steps among `1..n` that end on an end node, in order. */
  function Hits(net: Network, start: nat, n: nat): (r: seq<nat>)
    ensures forall x: nat :: x in r <==> 1 <= x <= n && IsEnd(Pos(net, start, x))
    ensures Increasing(r)
  {
    if n == 0 then []
    else
      var init := Hits(net, start, n - 1);
      if IsEnd(Pos(net, start, n)) then
        assert forall i | 0 <= i < |init| :: init[i] < n by {
          forall i | 0 <= i < |init|
            ensures init[i] < n
          {
            assert init[i] in init;
            assert 1 <= init[i] <= n - 1 && IsEnd(Pos(net, start, init[i]));
          }
        }
        init + [n]
      else init
  }

  /**
   * A traced walk.  Steps before `offset` are stored as they are; the walk
   * repeats every `length` steps from `offset` on, and the steps of one
   * period are stored relative to `offset`.
   */
  datatype Cycle = Cycle(offset: nat, length: nat, acceptedStart: seq<nat>, acceptedCycle: seq<nat>)

  /** `c` is a correct trace of the walk from `start`. */
  ghost predicate Describes(net: Network, start: nat, c: Cycle)
  {
    && net.Valid() && start in net.graph
    && c.length > 0 && c.length % |net.instructions| == 0
    && Pos(net, start, c.offset + c.length) == Pos(net, start, c.offset)
    && Increasing(c.acceptedStart) && Increasing(c.acceptedCycle)
    && StartHits(net, start, c.offset, c.acceptedStart)
    && CycleHits(net, start, c.offset, c.length, c.acceptedCycle)
  }

  /** `hits` holds exactly the steps before `offset`, from 1, that end on an end node. */
  ghost predicate StartHits(net: Network, start: nat, offset: nat, hits: seq<nat>)
  {
    && net.Valid() && start in net.graph
    && forall x: nat :: x in hits <==> 1 <= x < offset && IsEnd(Pos(net, start, x))
  }

  /** `hits` holds exactly the steps `offset + y`, from 1, with `y <= length`, that end on an end node. */
  ghost predicate CycleHits(net: Network, start: nat, offset: nat, length: nat, hits: seq<nat>)
  {
    && net.Valid() && start in net.graph
    && forall y: nat :: y in hits <==> 1 <= offset + y && y <= length && IsEnd(Pos(net, start, offset + y))
  }

  /** The number of entries below `bound`; on an increasing sequence these are a prefix. */
  function CountBelow(s: seq<nat>, bound: nat): (r: nat)
    ensures r <= |s|
    ensures Increasing(s) ==> (forall i | 0 <= i < r :: s[i] < bound) && (forall i | r <= i < |s| :: s[i] >= bound)
  {
    if s == [] then 0
    else
      var rest := CountBelow(s[1..], bound);
      assert Increasing(s) ==> Increasing(s[1..]);
      (if s[0] < bound then 1 else 0) + rest
  }

  /** Every entry lowered by `d`. */
  function Shift(s: seq<nat>, d: nat): (r: seq<nat>)
    requires forall i | 0 <= i < |s| :: s[i] >= d
    ensures |r| == |s| && forall i | 0 <= i < |s| :: r[i] + d == s[i]
  {
    if s == [] then [] else [s[0] - d] + Shift(s[1..], d)
  }

  /** The source's stop test, at step `k`: the node was first reached a positive multiple of the instruction count earlier. */
  ghost predicate SourceStops(net: Network, start: nat, k: nat)
  {
    && net.Valid() && start in net.graph
    && var f := FirstVisit(net, start, k);
    k > f && (k - f) % |net.instructions| == 0
  }

  /** On an increasing sequence, `CountBelow` splits the entries below `bound` from the rest. */
  lemma PartitionMember(s: seq<nat>, bound: nat, v: nat)
    requires Increasing(s)
    ensures v in s[..CountBelow(s, bound)] <==> v in s && v < bound
    ensures v in s[CountBelow(s, bound)..] <==> v in s && v >= bound
  {
    var n := CountBelow(s, bound);
    assert s == s[..n] + s[n..];
  }

  lemma ShiftMember(s: seq<nat>, d: nat, y: nat)
    requires forall i | 0 <= i < |s| :: s[i] >= d
    ensures y in Shift(s, d) <==> y + d in s
  {
    var r := Shift(s, d);
    if y in r {
      var i :| 0 <= i < |r| && r[i] == y;
      assert s[i] == y + d;
    }
    if y + d in s {
      var i :| 0 <= i < |s| && s[i] == y + d;
      assert r[i] == y;
    }
  }

  lemma ShiftIncreasing(s: seq<nat>, d: nat)
    requires Increasing(s) && forall i | 0 <= i < |s| :: s[i] >= d
    ensures Increasing(Shift(s, d))
  {
    var r := Shift(s, d);
    forall i, j | 0 <= i < j < |r|
      ensures r[i] < r[j]
    {
      assert s[i] < s[j];
    }
  }

  /**
   * The split of the hits once the walk stopped at step `steps` with period
   * start `offset`: the hits before `offset` as they are, the others
   * relative to `offset`.
   */
  function Split(hits: seq<nat>, offset: nat, steps: nat): (c: Cycle)
    requires Increasing(hits) && offset < steps
    ensures c.offset == offset && c.length == steps - offset
    ensures Increasing(c.acceptedStart) && Increasing(c.acceptedCycle)
  {
    var n := CountBelow(hits, offset);
    SplitParts(hits, offset, n);
    ShiftIncreasing(hits[n..], offset);
    Cycle(offset, steps - offset, hits[..n], Shift(hits[n..], offset))
  }

  /** Both parts of an increasing sequence split at `offset` are increasing, the later one at least `offset`. */
  lemma SplitParts(hits: seq<nat>, offset: nat, n: nat)
    requires Increasing(hits) && n == CountBelow(hits, offset)
    ensures Increasing(hits[..n]) && Increasing(hits[n..])
    ensures forall i | 0 <= i < |hits[n..]| :: hits[n..][i] >= offset
  {
    var late := hits[n..];
    forall i | 0 <= i < |late|
      ensures late[i] >= offset
    {
      assert late[i] == hits[n + i];
    }
    forall i, j | 0 <= i < j < |late|
      ensures late[i] < late[j]
    {
      assert late[i] == hits[n + i] && late[j] == hits[n + j];
    }
  }

  /** The split keeps the hits before `offset` as they are and takes the others relative to `offset`. */
  lemma SplitMember(hits: seq<nat>, offset: nat, steps: nat, v: nat)
    requires Increasing(hits) && offset < steps
    ensures v in Split(hits, offset, steps).acceptedStart <==> v in hits && v < offset
    ensures v in Split(hits, offset, steps).acceptedCycle <==> offset + v in hits
  {
    var n := CountBelow(hits, offset);
    PartitionMember(hits, offset, v);
    ShiftMember(hits[n..], offset, v);
    PartitionMember(hits, offset, offset + v);
  }

  /** The hits before `offset` are the start part of a trace. */
  lemma StartHitsOf(net: Network, start: nat, offset: nat, steps: nat, hits: seq<nat>, part: seq<nat>)
    requires net.Valid() && start in net.graph && offset <= steps
    requires forall x: nat :: x in hits <==> 1 <= x <= steps && IsEnd(Pos(net, start, x))
    requires forall x: nat :: x in part <==> x in hits && x < offset
    ensures StartHits(net, start, offset, part)
  {
    forall x: nat
      ensures x in part <==> 1 <= x < offset && IsEnd(Pos(net, start, x))
    {
      assert x in part <==> x in hits && x < offset;
    }
  }

  /** The hits from `offset` to `steps`, taken relative to `offset`, are the period part of a trace. */
  lemma CycleHitsOf(net: Network, start: nat, offset: nat, steps: nat, hits: seq<nat>, part: seq<nat>)
    requires net.Valid() && start in net.graph && offset <= steps
    requires forall x: nat :: x in hits <==> 1 <= x <= steps && IsEnd(Pos(net, start, x))
    requires forall y: nat :: y in part <==> offset + y in hits
    ensures CycleHits(net, start, offset, steps - offset, part)
  {
    forall y: nat
      ensures y in part <==> 1 <= offset + y && y <= steps - offset && IsEnd(Pos(net, start, offset + y))
    {
      assert y in part <==> offset + y in hits;
    }
  }

  /** Splitting the hits of a walk that repeats from `offset` to `steps` describes it. */
  lemma SplitDescribes(net: Network, start: nat, offset: nat, steps: nat)
    requires net.Valid() && start in net.graph
    requires offset < steps && (steps - offset) % |net.instructions| == 0
    requires Pos(net, start, steps) == Pos(net, start, offset)
    ensures Describes(net, start, Split(Hits(net, start, steps), offset, steps))
  {
    var hits := Hits(net, start, steps);
    var c := Split(hits, offset, steps);
    var before, period := c.acceptedStart, c.acceptedCycle;
    forall v: nat
      ensures v in before <==> v in hits && v < offset
      ensures v in period <==> offset + v in hits
    {
      SplitMember(hits, offset, steps, v);
    }
    StartHitsOf(net, start, offset, steps, hits, before);
    CycleHitsOf(net, start, offset, steps, hits, period);
    DescribesOfParts(net, start, offset, steps, before, period, c);
  }

  /** A cycle whose fields are the given parts describes the walk. */
  lemma DescribesOfParts(net: Network, start: nat, offset: nat, steps: nat, before: seq<nat>, period: seq<nat>, c: Cycle)
    requires net.Valid() && start in net.graph
    requires offset < steps && (steps - offset) % |net.instructions| == 0
    requires Pos(net, start, steps) == Pos(net, start, offset)
    requires c == Cycle(offset, steps - offset, before, period)
    requires Increasing(before) && Increasing(period)
    requires StartHits(net, start, offset, before) && CycleHits(net, start, offset, steps - offset, period)
    ensures Describes(net, start, c)
  {
    assert c.offset + c.length == steps;
  }

  /** `visited` maps every node reached within `steps` steps to the step it was first reached at. */
  ghost predicate Tracked(net: Network, start: nat, steps: nat, visited: map<nat, nat>)
  {
    && (forall v {:trigger visited[v]} | v in visited ::
          visited[v] <= steps && Pos(net, start, visited[v]) == v && FirstVisit(net, start, visited[v]) == visited[v])
    && (forall k: nat | k <= steps :: Pos(net, start, k) in visited)
  }

  /** Recording the next node, unless it was reached before, keeps the first visits. */
  lemma TrackStep(net: Network, start: nat, steps: nat, visited: map<nat, nat>)
    requires Tracked(net, start, steps, visited)
    ensures var v := Pos(net, start, steps + 1);
      var next := if v in visited then visited else visited[v := steps + 1];
      Tracked(net, start, steps + 1, next) && next[v] == FirstVisit(net, start, steps + 1)
  {
    if Pos(net, start, steps + 1) in visited {
      TrackSeen(net, start, steps, visited);
    } else {
      TrackNew(net, start, steps, visited);
    }
  }

  lemma TrackSeen(net: Network, start: nat, steps: nat, visited: map<nat, nat>)
    requires Tracked(net, start, steps, visited) && Pos(net, start, steps + 1) in visited
    ensures Tracked(net, start, steps + 1, visited)
    ensures visited[Pos(net, start, steps + 1)] == FirstVisit(net, start, steps + 1)
  {
    FirstVisitSame(net, start, visited[Pos(net, start, steps + 1)], steps + 1);
  }

  lemma TrackNew(net: Network, start: nat, steps: nat, visited: map<nat, nat>)
    requires Tracked(net, start, steps, visited) && Pos(net, start, steps + 1) !in visited
    ensures Tracked(net, start, steps + 1, visited[Pos(net, start, steps + 1) := steps + 1])
    ensures FirstVisit(net, start, steps + 1) == steps + 1
  {
    var v := Pos(net, start, steps + 1);
    assert forall k: nat | k <= steps :: Pos(net, start, k) != v;
  }

  /** The first step ends at a node first reached at step 0 or 1. */
  lemma TrackStart(net: Network, start: nat)
    ensures Tracked(net, start, 0, map[start := 0])
  {
  }

  /**
   * `trace` as written: walk until the current node's first visit lies a
   * positive multiple of the instruction count back, then split the hits.
   * The source's loop need not end (see `TraceNeverStops`); the model
   * takes it ending as a precondition and shows it ends at the first step
   * whose stop test holds.
   */
  method Trace(net: Network, start: nat) returns (c: Cycle)
    requires net.Valid() && start in net.graph
    requires exists k: nat :: SourceStops(net, start, k)
    ensures Describes(net, start, c)
    ensures SourceStops(net, start, c.offset + c.length)
    ensures forall k: nat | k < c.offset + c.length :: !SourceStops(net, start, k)
    ensures c.offset == FirstVisit(net, start, c.offset + c.length)
  {
    var offset, steps, accepted := WalkUntilStop(net, start);
    TraceResult(net, start, offset, steps);
    c := Split(accepted, offset, steps);
  }

  /**
   * The loop of `trace`: the walk, the end nodes met and the first visit of
   * every node, up to the first step whose stop test holds.
   */
  method WalkUntilStop(net: Network, start: nat) returns (offset: nat, steps: nat, accepted: seq<nat>)
    requires net.Valid() && start in net.graph
    requires exists k: nat :: SourceStops(net, start, k)
    ensures offset == FirstVisit(net, start, steps) && steps > offset && (steps - offset) % |net.instructions| == 0
    ensures accepted == Hits(net, start, steps)
    ensures forall k: nat | k < steps :: !SourceStops(net, start, k)
  {
    var current := start;
    steps := 0;
    accepted := [];
    var visited: map<nat, nat> := map[start := 0];
    ghost var bound: nat :| SourceStops(net, start, bound);
    offset := 0;
    TrackStart(net, start);
    while true
      invariant current == Pos(net, start, steps) && accepted == Hits(net, start, steps)
      invariant Tracked(net, start, steps, visited)
      invariant NoStopUpTo(net, start, steps)
      invariant steps < bound
      decreases bound - steps
    {
      steps, current, accepted, visited, offset := WalkStep(net, start, steps, current, accepted, visited);
      if steps > offset && (steps - offset) % |net.instructions| == 0 {
        break;
      }
      NoStopExtend(net, start, steps, bound);
    }
  }

  /**
   * One step of the walk: follow the next instruction and record the step
   * if it ends on an end node.
   */
  method Advance(net: Network, ghost start: nat, steps: nat, current: nat, accepted: seq<nat>)
    returns (n: nat, current': nat, accepted': seq<nat>)
    requires current == Pos(net, start, steps) && accepted == Hits(net, start, steps)
    ensures n == steps + 1
    ensures current' == Pos(net, start, n) && accepted' == Hits(net, start, n)
  {
    n := steps + 1;
    current' := Step(net.graph, current, Instr(net, steps));
    accepted' := if IsEnd(current') then accepted + [n] else accepted;
  }

  /**
   * One pass of the loop of `trace`: take the next step, then look up (or
   * record) the first visit of the node reached.
   */
  method WalkStep(net: Network, ghost start: nat, steps: nat, current: nat, accepted: seq<nat>, visited: map<nat, nat>)
    returns (n: nat, current': nat, accepted': seq<nat>, visited': map<nat, nat>, offset: nat)
    requires current == Pos(net, start, steps) && accepted == Hits(net, start, steps)
    requires Tracked(net, start, steps, visited)
    ensures n == steps + 1
    ensures current' == Pos(net, start, n) && accepted' == Hits(net, start, n)
    ensures Tracked(net, start, n, visited') && offset == FirstVisit(net, start, n)
  {
    TrackStep(net, start, steps, visited);
    n, current', accepted' := Advance(net, start, steps, current, accepted);
    visited' := if current' in visited then visited else visited[current' := n];
    offset := visited'[current'];
  }

  /** The stop test fails at every step up to `n`. */
  ghost predicate NoStopUpTo(net: Network, start: nat, n: nat)
  {
    forall k: nat | k <= n :: !SourceStops(net, start, k)
  }

  lemma NoStopExtend(net: Network, start: nat, n: nat, bound: nat)
    requires net.Valid() && start in net.graph && n > 0
    requires NoStopUpTo(net, start, n - 1) && SourceStops(net, start, bound) && n - 1 < bound
    requires var f := FirstVisit(net, start, n); !(n > f && (n - f) % |net.instructions| == 0)
    ensures NoStopUpTo(net, start, n) && n < bound
  {
    assert !SourceStops(net, start, n);
  }

  /** Stopping at step `steps`, with `offset` its first visit, yields a trace that describes the walk. */
  lemma TraceResult(net: Network, start: nat, offset: nat, steps: nat)
    requires net.Valid() && start in net.graph
    requires offset == FirstVisit(net, start, steps) && steps > offset && (steps - offset) % |net.instructions| == 0
    ensures var c := Split(Hits(net, start, steps), offset, steps);
      && c.offset + c.length == steps
      && Describes(net, start, c)
      && SourceStops(net, start, steps)
  {
    SplitDescribes(net, start, offset, steps);
  }

  /** `is_accepted`: whether step `x` ends on an end node, read off the trace; `binary_search` on the increasing lists is membership. */
  function IsAccepted(c: Cycle, x: nat): bool
    requires c.length > 0
  {
    if x < c.offset then x in c.acceptedStart
    else (x - c.offset) % c.length in c.acceptedCycle
  }

  /** The trace answers for every step, provided the start is not itself an end node (start nodes end in `A`). */
  lemma IsAcceptedCorrect(net: Network, start: nat, c: Cycle, x: nat)
    requires Describes(net, start, c)
    requires !IsEnd(start)
    ensures IsAccepted(c, x) <==> IsEnd(Pos(net, start, x))
  {
    if x < c.offset {
      assert x in c.acceptedStart <==> 1 <= x < c.offset && IsEnd(Pos(net, start, x));
    } else {
      ReduceCycle(net, start, c, x);
      CycleMember(net, start, c, (x - c.offset) % c.length);
    }
  }

  lemma ReduceCycle(net: Network, start: nat, c: Cycle, x: nat)
    requires Describes(net, start, c) && c.offset <= x
    ensures Pos(net, start, x) == Pos(net, start, c.offset + (x - c.offset) % c.length)
  {
    Reduce(net, start, c.offset, c.length, x);
  }

  lemma CycleMember(net: Network, start: nat, c: Cycle, y: nat)
    requires Describes(net, start, c)
    ensures y in c.acceptedCycle <==> 1 <= c.offset + y && y <= c.length && IsEnd(Pos(net, start, c.offset + y))
  {
  }

  /** `first_accepted`: the first stored step, pre-period entries before period entries. */
  function FirstAccepted(c: Cycle): Option<nat>
  {
    if |c.acceptedStart| > 0 then Some(c.acceptedStart[0])
    else if |c.acceptedCycle| > 0 then Some(c.acceptedCycle[0] + c.offset)
    else None
  }

  /** The first step (from 1) that ends on an end node, or `None` when the walk never does. */
  lemma FirstAcceptedCorrect(net: Network, start: nat, c: Cycle)
    requires Describes(net, start, c)
    ensures FirstAccepted(c).Some? ==>
      var n := FirstAccepted(c).value;
      n >= 1 && IsEnd(Pos(net, start, n)) && forall k: nat | 1 <= k < n :: !IsEnd(Pos(net, start, k))
    ensures FirstAccepted(c).None? ==> forall k: nat | 1 <= k :: !IsEnd(Pos(net, start, k))
  {
    if |c.acceptedStart| > 0 {
      var n := c.acceptedStart[0];
      assert n in c.acceptedStart;
      forall k: nat | 1 <= k < n
        ensures !IsEnd(Pos(net, start, k))
      {
        assert forall i | 0 <= i < |c.acceptedStart| :: c.acceptedStart[i] >= n;
        assert k !in c.acceptedStart;
      }
    } else if |c.acceptedCycle| > 0 {
      var y := c.acceptedCycle[0];
      assert y in c.acceptedCycle;
      forall k: nat | 1 <= k < y + c.offset
        ensures !IsEnd(Pos(net, start, k))
      {
        if k < c.offset {
          assert k !in c.acceptedStart;
        } else {
          assert k - c.offset !in c.acceptedCycle;
        }
      }
    } else {
      forall k: nat | 1 <= k
        ensures !IsEnd(Pos(net, start, k))
      {
        if k < c.offset {
          assert k !in c.acceptedStart;
        } else {
          NoHitAfter(net, start, c, k);
        }
      }
    }
  }

  lemma NoHitAfter(net: Network, start: nat, c: Cycle, k: nat)
    requires Describes(net, start, c)
    requires |c.acceptedCycle| == 0 && 1 <= k && c.offset <= k
    ensures !IsEnd(Pos(net, start, k))
  {
    Reduce(net, start, c.offset, c.length, k);
    var y := (k - c.offset) % c.length;
    if c.offset + y == 0 {
      assert y !in c.acceptedCycle && c.length !in c.acceptedCycle;
    } else {
      assert y !in c.acceptedCycle;
    }
  }

  /**
   * `visited` maps (node, instruction position) states to a step, up to
   * `steps`, at which the walk was in that state.
   */
  ghost predicate PhaseTracked(net: Network, start: nat, steps: nat, visited: map<(nat, nat), nat>)
  {
    && |net.instructions| > 0
    && forall s {:trigger visited[s]} | s in visited ::
      visited[s] <= steps && Pos(net, start, visited[s]) == s.0 && visited[s] % |net.instructions| == s.1
  }

  /** The possible states: a node and an instruction position. */
  ghost function States(net: Network): set<(nat, nat)>
  {
    set v: nat, p: nat | v in net.graph && 0 <= p < |net.instructions| :: (v, p)
  }

  /** Recording a new state keeps the record and uses up one of the possible states. */
  lemma PhaseRecord(net: Network, start: nat, steps: nat, n: nat, visited: map<(nat, nat), nat>)
    requires net.Valid() && start in net.graph && steps < n
    requires PhaseTracked(net, start, steps, visited) && visited.Keys <= States(net)
    requires (Pos(net, start, n), n % |net.instructions|) !in visited
    ensures var next := visited[(Pos(net, start, n), n % |net.instructions|) := n];
      PhaseTracked(net, start, n, next) && next.Keys <= States(net)
      && |States(net) - next.Keys| < |States(net) - visited.Keys|
  {
    var key := (Pos(net, start, n), n % |net.instructions|);
    PosInGraph(net, start, n);
    assert key in States(net);
    FreshState(States(net), visited, key, n);
    TrackedExtend(net, start, steps, n, visited, key);
  }

  /** Recording the state reached at step `n` keeps every recorded step at most `n`. */
  lemma TrackedExtend(net: Network, start: nat, steps: nat, n: nat, visited: map<(nat, nat), nat>, key: (nat, nat))
    requires steps < n && PhaseTracked(net, start, steps, visited)
    requires key == (Pos(net, start, n), n % |net.instructions|)
    ensures PhaseTracked(net, start, n, visited[key := n])
  {
    var next := visited[key := n];
    forall s | s in next
      ensures next[s] <= n && Pos(net, start, next[s]) == s.0 && next[s] % |net.instructions| == s.1
    {
      if s != key {
        assert next[s] == visited[s];
      }
    }
  }

  /** Adding a key from `states` that was not yet present leaves fewer keys to add. */
  lemma FreshState(states: set<(nat, nat)>, visited: map<(nat, nat), nat>, key: (nat, nat), x: nat)
    requires visited.Keys <= states && key in states && key !in visited
    ensures visited[key := x].Keys <= states
    ensures |states - visited[key := x].Keys| < |states - visited.Keys|
  {
    assert states - visited[key := x].Keys < states - visited.Keys by {
      assert key in states - visited.Keys;
    }
  }

  /** A repeated state: the walk repeats from its first occurrence, and the split hits describe it. */
  lemma PhaseRepeat(net: Network, start: nat, offset: nat, steps: nat)
    requires net.Valid() && start in net.graph && offset < steps
    requires Pos(net, start, offset) == Pos(net, start, steps)
    requires offset % |net.instructions| == steps % |net.instructions|
    ensures Describes(net, start, Split(Hits(net, start, steps), offset, steps))
  {
    ModDiff(steps, offset, |net.instructions|);
    SplitDescribes(net, start, offset, steps);
  }

  /**
   * The evidently intended `trace`: remember each (node, instruction
   * position) state and stop at the first repeated state.  There are
   * finitely many states, so the walk always stops.
   */
  method TracePhased(net: Network, start: nat) returns (c: Cycle)
    requires net.Valid() && start in net.graph
    ensures Describes(net, start, c)
  {
    var count := |net.instructions|;
    var current := start;
    var steps: nat := 0;
    var accepted: seq<nat> := [];
    var visited: map<(nat, nat), nat> := map[(start, 0) := 0];
    var offset: nat := 0;
    assert (start, 0) in States(net);
    while true
      invariant current == Pos(net, start, steps) && accepted == Hits(net, start, steps)
      invariant PhaseTracked(net, start, steps, visited) && visited.Keys <= States(net)
      decreases |States(net) - visited.Keys|
    {
      var n;
      n, current, accepted := Advance(net, start, steps, current, accepted);
      var key := (current, n % count);
      if key in visited {
        offset, steps := visited[key], n;
        break;
      }
      PhaseRecord(net, start, steps, n, visited);
      visited, steps := visited[key := n], n;
    }
    PhaseRepeat(net, start, offset, steps);
    c := Split(accepted, offset, steps);
  }

  /**
   * A network on which the source's `trace` never stops: instructions
   * `LR`, and nodes 0 -> 1 -> 2 -> 3, then 1 and 2 alternating.  Node 1 is
   * first reached at an odd step and afterwards only at even steps, node 2
   * the other way round.
   */
  function Loop(): (net: Network)
    ensures net.Valid() && 0 in net.graph
  {
    Network([Left, Right], map[0 := Node(1, 1), 1 := Node(2, 2), 2 := Node(3, 1), 3 := Node(1, 1)])
  }

  lemma {:induction false} LoopPos(k: nat)
    requires k >= 4
    ensures Pos(Loop(), 0, k) == if k % 2 == 0 then 1 else 2
  {
    var net := Loop();
    assert Pos(net, 0, 1) == 1;
    assert Pos(net, 0, 2) == 2;
    assert Pos(net, 0, 3) == 3;
    if k == 4 {
      assert Pos(net, 0, 4) == 1;
    } else {
      LoopPos(k - 1);
      InstrMod(net, k - 1);
      assert Pos(net, 0, k) == Step(net.graph, Pos(net, 0, k - 1), net.instructions[(k - 1) % 2]);
    }
  }

  /** The source's stop test holds at no step of `Loop`, so its loop runs forever there. */
  lemma TraceNeverStops(k: nat)
    ensures !SourceStops(Loop(), 0, k)
  {
    var net := Loop();
    assert Pos(net, 0, 1) == 1;
    assert Pos(net, 0, 2) == 2;
    assert Pos(net, 0, 3) == 3;
    var f := FirstVisit(net, 0, k);
    if k >= 4 {
      LoopPos(k);
      if k % 2 == 0 {
        assert f == 1;
      } else {
        assert f == 2;
      }
    } else {
      assert f == k;
    }
  }

  const AAA: nat := 65 * 65536 + 65 * 256 + 65
  const ZZZ: nat := 90 * 65536 + 90 * 256 + 90

  /**
   * `part_a`: follow the instructions from `AAA`, counting steps, until
   * `ZZZ`.  The source loops forever when `ZZZ` is never reached; the model
   * takes reaching it as a precondition.
   */
  method PartA(net: Network) returns (steps: nat)
    requires net.Valid() && AAA in net.graph
    requires exists n: nat :: Pos(net, AAA, n) == ZZZ
    ensures Pos(net, AAA, steps) == ZZZ
    ensures forall k: nat | k < steps :: Pos(net, AAA, k) != ZZZ
  {
    var current := AAA;
    ghost var bound: nat :| Pos(net, AAA, bound) == ZZZ;
    steps := 0;
    while current != ZZZ
      invariant current == Pos(net, AAA, steps)
      invariant forall k: nat | k < steps :: Pos(net, AAA, k) != ZZZ
      invariant steps <= bound
      decreases bound - steps
    {
      current := Step(net.graph, current, Instr(net, steps));
      steps := steps + 1;
    }
  }

  /** The first example's network: `RL`, with `ZZZ` reached from `AAA` via `CCC`. */
  function ExampleA(): (net: Network)
    ensures net.Valid() && AAA in net.graph
  {
    var b := 66 * 65536 + 66 * 256 + 66;
    var c := 67 * 65536 + 67 * 256 + 67;
    var d := 68 * 65536 + 68 * 256 + 68;
    var e := 69 * 65536 + 69 * 256 + 69;
    var g := 71 * 65536 + 71 * 256 + 71;
    Network([Right, Left], map[AAA := Node(b, c), b := Node(d, e), c := Node(ZZZ, g), d := Node(d, d),
                               e := Node(e, e), g := Node(g, g), ZZZ := Node(ZZZ, ZZZ)])
  }

  /** On the first example, part a answers 2. */
  lemma ExampleAReachesIn2()
    ensures Pos(ExampleA(), AAA, 2) == ZZZ
    ensures forall k: nat | k < 2 :: Pos(ExampleA(), AAA, k) != ZZZ
  {
    var net := ExampleA();
    assert Pos(net, AAA, 1) == 67 * 65536 + 67 * 256 + 67;
  }
}
