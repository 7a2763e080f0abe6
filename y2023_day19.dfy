/**
 * Year 2023, day 19: parts with four ratings run through named workflows.
 * A workflow is a list of threshold tests, each naming a destination, and
 * a fallback; a part moves to the destination of the first test it passes.
 * Part a follows single parts from `in` until `A` (accepted) or `R`
 * (rejected); part b pushes whole boxes of rating combinations through the
 * workflows, splitting them at the thresholds, and adds up the sizes of
 * the accepted boxes.
 */
module Y2023Day19 {
  import opened Common

  datatype Category = ExtremelyCoolLooking | Musical | Aerodynamic | Shiny

  datatype Part = Part(x: nat, m: nat, a: nat, s: nat)

  function Rating(p: Part, c: Category): nat
  {
    match c
    case ExtremelyCoolLooking => p.x
    case Musical => p.m
    case Aerodynamic => p.a
    case Shiny => p.s
  }

  datatype Op = Less | Greater

  /** `ConditionOperator::check`. */
  predicate OpCheck(op: Op, a: int, b: int)
  {
    match op
    case Less => a < b
    case Greater => a > b
  }

  datatype Condition = Condition(category: Category, op: Op, v: nat)

  /** `Condition::check`: the operator applied to the tested rating and the threshold. */
  predicate Check(con: Condition, p: Part)
  {
    OpCheck(con.op, Rating(p, con.category), con.v)
  }

  type Test = (Condition, string)

  datatype Workflow = Workflow(tests: seq<Test>, otherwise: string)

  /** `d` is one of the names a workflow can send to. */
  predicate IsDest(w: Workflow, d: string)
  {
    d == w.otherwise || exists k | 0 <= k < |w.tests| :: w.tests[k].1 == d
  }

  // ---------------------------------------------------------------------
  // Single parts

  /** The loop of `apply_to_part`: the destination of the first passing test, else `otherwise`. */
  function ApplyTests(tests: seq<Test>, otherwise: string, p: Part): (r: string)
    ensures r == otherwise || exists k | 0 <= k < |tests| :: tests[k].1 == r
  {
    if tests == [] then otherwise
    else if Check(tests[0].0, p) then tests[0].1
    else
      var r := ApplyTests(tests[1..], otherwise, p);
      assert r != otherwise ==> exists k | 0 <= k < |tests| :: tests[k].1 == r by {
        if r != otherwise {
          var k :| 0 <= k < |tests[1..]| && tests[1..][k].1 == r;
          assert tests[k + 1].1 == r;
        }
      }
      r
  }

  function ApplyToPart(w: Workflow, p: Part): (r: string)
    ensures IsDest(w, r)
  {
    ApplyTests(w.tests, w.otherwise, p)
  }

  /** The first passing test decides; when no test passes the part goes to `otherwise`. */
  lemma {:induction false} ApplyTestsFirst(tests: seq<Test>, otherwise: string, p: Part, k: nat)
    requires k <= |tests|
    requires forall j | 0 <= j < k :: !Check(tests[j].0, p)
    requires k < |tests| ==> Check(tests[k].0, p)
    ensures ApplyTests(tests, otherwise, p) == if k < |tests| then tests[k].1 else otherwise
  {
    if k > 0 {
      assert !Check(tests[0].0, p);
      ApplyTestsFirst(tests[1..], otherwise, p, k - 1);
    }
  }

  /**
   * The workflows have no cycle: every destination that is itself a
   * workflow ranks below the workflow sending to it.  The source loops
   * forever on a cycle.
   */
  ghost predicate Ranked(flows: map<string, Workflow>, rank: map<string, nat>)
  {
    forall n, d | n in flows && d in flows && IsDest(flows[n], d) :: n in rank && d in rank && rank[d] < rank[n]
  }

  function Measure(flows: map<string, Workflow>, rank: map<string, nat>, n: string): nat
  {
    if n !in flows then 0 else if n in rank then rank[n] + 1 else 1
  }

  /** A step to a destination goes down the ranking. */
  lemma RankedStep(flows: map<string, Workflow>, rank: map<string, nat>, cur: string, next: string)
    requires Ranked(flows, rank) && cur in flows && IsDest(flows[cur], next)
    ensures Measure(flows, rank, next) < Measure(flows, rank, cur)
  {
    if next in flows {
      assert cur in rank && next in rank && rank[next] < rank[cur];
    }
  }

  /**
   * Where a part ends when it starts at workflow `cur`: `A` or `R`, or
   * `None` when it reaches a name that is no workflow (the source panics
   * on the missing key).
   */
  function Follow(flows: map<string, Workflow>, rank: map<string, nat>, cur: string, p: Part): Option<string>
    requires Ranked(flows, rank)
    decreases Measure(flows, rank, cur)
  {
    if cur == "R" || cur == "A" then Some(cur)
    else if cur !in flows then None
    else
      var next := ApplyToPart(flows[cur], p);
      RankedStep(flows, rank, cur, next);
      Follow(flows, rank, next, p)
  }

  /** A part that is not lost ends accepted or rejected. */
  lemma {:induction false} FollowVerdict(flows: map<string, Workflow>, rank: map<string, nat>, cur: string, p: Part)
    requires Ranked(flows, rank)
    ensures Follow(flows, rank, cur, p).Some? ==> Follow(flows, rank, cur, p).value in {"A", "R"}
    decreases Measure(flows, rank, cur)
  {
    if cur != "R" && cur != "A" && cur in flows {
      var next := ApplyToPart(flows[cur], p);
      RankedStep(flows, rank, cur, next);
      FollowVerdict(flows, rank, next, p);
    }
  }

  /** The `while` loop in `part_a`'s filter: whether a part starting at `in` is accepted. */
  method Accepts(flows: map<string, Workflow>, rank: map<string, nat>, p: Part) returns (r: Option<bool>)
    requires Ranked(flows, rank)
    ensures Follow(flows, rank, "in", p).None? ==> r.None?
    ensures Follow(flows, rank, "in", p).Some? ==> r == Some(Follow(flows, rank, "in", p).value == "A")
  {
    var current := "in";
    while current != "R" && current != "A"
      invariant Follow(flows, rank, current, p) == Follow(flows, rank, "in", p)
      decreases Measure(flows, rank, current)
    {
      if current !in flows {
        return None;
      }
      var next := ApplyToPart(flows[current], p);
      RankedStep(flows, rank, current, next);
      current := next;
    }
    return Some(current == "A");
  }

  function Total(p: Part): nat
  {
    p.x + p.m + p.a + p.s
  }

  /** The sum of the four ratings over the accepted parts, `None` when a part is lost. */
  function AcceptedRatings(flows: map<string, Workflow>, rank: map<string, nat>, parts: seq<Part>): Option<nat>
    requires Ranked(flows, rank)
  {
    if parts == [] then Some(0)
    else
      var p := parts[|parts| - 1];
      match (AcceptedRatings(flows, rank, parts[..|parts| - 1]), Follow(flows, rank, "in", p))
      case (Some(sum), Some(d)) => Some(sum + if d == "A" then Total(p) else 0)
      case _ => None
  }

  /** The accepted ratings of two lists of parts add up. */
  lemma {:induction false} AcceptedRatingsAppend(flows: map<string, Workflow>, rank: map<string, nat>, ps: seq<Part>, qs: seq<Part>)
    requires Ranked(flows, rank)
    ensures AcceptedRatings(flows, rank, ps + qs).Some?
      <==> AcceptedRatings(flows, rank, ps).Some? && AcceptedRatings(flows, rank, qs).Some?
    ensures AcceptedRatings(flows, rank, ps + qs).Some? ==>
      AcceptedRatings(flows, rank, ps + qs).value
        == AcceptedRatings(flows, rank, ps).value + AcceptedRatings(flows, rank, qs).value
    decreases |qs|
  {
    if qs == [] {
      assert ps + qs == ps;
    } else {
      var qs' := qs[..|qs| - 1];
      assert (ps + qs)[..|ps + qs| - 1] == ps + qs';
      AcceptedRatingsAppend(flows, rank, ps, qs');
    }
  }

  /** A lost part loses the whole sum. */
  lemma LostPrefix(flows: map<string, Workflow>, rank: map<string, nat>, parts: seq<Part>, i: nat)
    requires Ranked(flows, rank) && i <= |parts| && AcceptedRatings(flows, rank, parts[..i]).None?
    ensures AcceptedRatings(flows, rank, parts).None?
  {
    AcceptedRatingsAppend(flows, rank, parts[..i], parts[i..]);
    assert parts[..i] + parts[i..] == parts;
  }

  /** `part_a`: the ratings of the accepted parts added up. */
  method PartA(flows: map<string, Workflow>, rank: map<string, nat>, parts: seq<Part>) returns (sum: Option<nat>)
    requires Ranked(flows, rank)
    ensures sum == AcceptedRatings(flows, rank, parts)
  {
    var total := 0;
    for i := 0 to |parts|
      invariant AcceptedRatings(flows, rank, parts[..i]) == Some(total)
    {
      var accepted := Accepts(flows, rank, parts[i]);
      assert parts[..i + 1][..i] == parts[..i];
      if accepted.None? {
        LostPrefix(flows, rank, parts, i + 1);
        return None;
      }
      if accepted.value {
        total := total + Total(parts[i]);
      }
    }
    assert parts[..|parts|] == parts;
    return Some(total);
  }

  // ---------------------------------------------------------------------
  // Boxes of parts

  /** A `RangeInclusive`: `start..=end`, empty when `end < start`. */
  datatype Range = Range(start: int, end: int)

  predicate InRange(r: Range, v: int)
  {
    r.start <= v <= r.end
  }

  /** `RangeInclusive::count`. */
  function Count(r: Range): (n: nat)
    ensures forall v :: InRange(r, v) ==> n > 0
  {
    if r.end < r.start then 0 else r.end - r.start + 1
  }

  datatype Box = Box(x: Range, m: Range, a: Range, s: Range)

  function Get(b: Box, c: Category): Range
  {
    match c
    case ExtremelyCoolLooking => b.x
    case Musical => b.m
    case Aerodynamic => b.a
    case Shiny => b.s
  }

  function With(b: Box, c: Category, r: Range): (b': Box)
    ensures Get(b', c) == r
    ensures forall d :: d != c ==> Get(b', d) == Get(b, d)
  {
    match c
    case ExtremelyCoolLooking => b.(x := r)
    case Musical => b.(m := r)
    case Aerodynamic => b.(a := r)
    case Shiny => b.(s := r)
  }

  predicate InBox(p: Part, b: Box)
  {
    forall c :: InRange(Get(b, c), Rating(p, c))
  }

  /** The number of parts in a box, as `part_b` computes it. */
  function Volume(b: Box): nat
  {
    Count(b.x) * Count(b.m) * Count(b.a) * Count(b.s)
  }

  function LowerOffset(op: Op): int
  {
    if op == Less then 1 else 0
  }

  function UpperOffset(op: Op): int
  {
    if op == Less then 0 else 1
  }

  /** The test at the box's corner of starts (`lower_check`): only the tested rating matters. */
  predicate StartCheck(con: Condition, b: Box)
  {
    OpCheck(con.op, Get(b, con.category).start, con.v)
  }

  /** The test at the box's corner of ends (`upper_check`). */
  predicate EndCheck(con: Condition, b: Box)
  {
    OpCheck(con.op, Get(b, con.category).end, con.v)
  }

  /** The sub-box with the tested rating at most the threshold (less one for `<`), clamped to the box. */
  function Lower(b: Box, con: Condition): Box
  {
    var r := Get(b, con.category);
    With(b, con.category, Range(r.start, Min(con.v - LowerOffset(con.op), r.end)))
  }

  /** The sub-box with the tested rating at least the threshold (plus one for `>`), clamped to the box. */
  function Upper(b: Box, con: Condition): Box
  {
    var r := Get(b, con.category);
    With(b, con.category, Range(Max(con.v + UpperOffset(con.op), r.start), r.end))
  }

  function RaiseStart(r: Range, start: int): Range
  {
    Range(Max(r.start, start), r.end)
  }

  /**
   * The upper sub-box as the source builds it: every one of the four
   * starts is raised to at least the start of the box's first rating.
   */
  function UpperAsWritten(b: Box, con: Condition): Box
  {
    var u := With(b, con.category, Range(con.v + UpperOffset(con.op), Get(b, con.category).end));
    Box(RaiseStart(u.x, b.x.start), RaiseStart(u.m, b.x.start), RaiseStart(u.a, b.x.start), RaiseStart(u.s, b.x.start))
  }

  /** The list `apply_to_intervals` returns, as the source builds it. */
  function IntervalsAsWritten(tests: seq<Test>, otherwise: string, b: Box): (r: seq<(Box, string)>)
    ensures |r| >= 1
  {
    if tests == [] then [(b, otherwise)]
    else
      var con, w := tests[0].0, tests[0].1;
      if StartCheck(con, b) && EndCheck(con, b) then [(Lower(b, con), w), (b, otherwise)]
      else if StartCheck(con, b) then [(Lower(b, con), w)] + IntervalsAsWritten(tests[1..], otherwise, UpperAsWritten(b, con))
      else if EndCheck(con, b) then [(UpperAsWritten(b, con), w)] + IntervalsAsWritten(tests[1..], otherwise, Lower(b, con))
      else IntervalsAsWritten(tests[1..], otherwise, b)
  }

  /** `apply_to_intervals`: the box is cut test by test; the remainder goes to `otherwise`. */
  method ApplyToIntervals(w: Workflow, box: Box) returns (res: seq<(Box, string)>)
    ensures res == IntervalsAsWritten(w.tests, w.otherwise, box)
  {
    var tests, otherwise := w.tests, w.otherwise;
    res := [];
    var cur := box;
    var i := 0;
    while i < |tests|
      invariant 0 <= i <= |tests|
      invariant res + IntervalsAsWritten(tests[i..], otherwise, cur) == IntervalsAsWritten(tests, otherwise, box)
    {
      var con, dest := tests[i].0, tests[i].1;
      var lowerCheck := OpCheck(con.op, Get(cur, con.category).start, con.v);
      var upperCheck := OpCheck(con.op, Get(cur, con.category).end, con.v);
      var lower, upper := Lower(cur, con), UpperAsWritten(cur, con);
      assert tests[i..][1..] == tests[i + 1..];
      if lowerCheck && upperCheck {
        AppendAssoc(res, [(lower, dest)], [(cur, otherwise)]);
        res := res + [(lower, dest)];
        break;
      } else if lowerCheck {
        AppendAssoc(res, [(lower, dest)], IntervalsAsWritten(tests[i + 1..], otherwise, upper));
        res := res + [(lower, dest)];
        cur := upper;
      } else if upperCheck {
        AppendAssoc(res, [(upper, dest)], IntervalsAsWritten(tests[i + 1..], otherwise, lower));
        res := res + [(upper, dest)];
        cur := lower;
      }
      i := i + 1;
    }
    res := res + [(cur, otherwise)];
  }

  /**
   * `apply_to_intervals` with each upper start clamped to its own rating's
   * start, and a test passing at both corners sending the whole box to its
   * destination with nothing left for `otherwise`.
   */
  function Intervals(tests: seq<Test>, otherwise: string, b: Box): (r: seq<(Box, string)>)
    ensures forall k | 0 <= k < |r| :: r[k].1 == otherwise || exists j | 0 <= j < |tests| :: tests[j].1 == r[k].1
  {
    if tests == [] then [(b, otherwise)]
    else
      var con, w := tests[0].0, tests[0].1;
      var rest :=
        if StartCheck(con, b) && EndCheck(con, b) then []
        else if StartCheck(con, b) then Intervals(tests[1..], otherwise, Upper(b, con))
        else if EndCheck(con, b) then Intervals(tests[1..], otherwise, Lower(b, con))
        else Intervals(tests[1..], otherwise, b);
      var first := if StartCheck(con, b) && EndCheck(con, b) then [(b, w)]
        else if StartCheck(con, b) then [(Lower(b, con), w)]
        else if EndCheck(con, b) then [(Upper(b, con), w)]
        else [];
      assert forall k | 0 <= k < |rest| :: rest[k].1 == otherwise || exists j | 0 <= j < |tests| :: tests[j].1 == rest[k].1 by {
        forall k | 0 <= k < |rest| && rest[k].1 != otherwise
          ensures exists j | 0 <= j < |tests| :: tests[j].1 == rest[k].1
        {
          var j :| 0 <= j < |tests[1..]| && tests[1..][j].1 == rest[k].1;
          assert tests[j + 1].1 == rest[k].1;
        }
      }
      first + rest
  }

  /** How many listed boxes hold the part. */
  function Hits(es: seq<(Box, string)>, p: Part): nat
  {
    if es == [] then 0 else (if InBox(p, es[0].0) then 1 else 0) + Hits(es[1..], p)
  }

  /** The destination of the first listed box holding the part. */
  function Route(es: seq<(Box, string)>, p: Part): Option<string>
  {
    if es == [] then None else if InBox(p, es[0].0) then Some(es[0].1) else Route(es[1..], p)
  }

  lemma HitsAppend(es: seq<(Box, string)>, fs: seq<(Box, string)>, p: Part)
    ensures Hits(es + fs, p) == Hits(es, p) + Hits(fs, p)
    ensures Route(es + fs, p) == if Route(es, p).Some? then Route(es, p) else Route(fs, p)
  {
    if es == [] {
      assert es + fs == fs;
    } else {
      assert (es + fs)[1..] == es[1..] + fs;
      HitsAppend(es[1..], fs, p);
    }
  }

  /** Inside the box, the lower sub-box holds the parts at or below the cut and the upper one those above it. */
  lemma SplitMembers(b: Box, con: Condition, p: Part)
    ensures InBox(p, Lower(b, con)) <==> InBox(p, b) && Rating(p, con.category) <= con.v - LowerOffset(con.op)
    ensures InBox(p, Upper(b, con)) <==> InBox(p, b) && Rating(p, con.category) >= con.v + UpperOffset(con.op)
  {
    var c := con.category;
    if InBox(p, b) {
      assert InRange(Get(b, c), Rating(p, c));
    }
    if InBox(p, Lower(b, con)) {
      assert InRange(Get(Lower(b, con), c), Rating(p, c));
      forall d ensures InRange(Get(b, d), Rating(p, d)) {
        assert InRange(Get(Lower(b, con), d), Rating(p, d));
      }
    }
    if InBox(p, Upper(b, con)) {
      assert InRange(Get(Upper(b, con), c), Rating(p, c));
      forall d ensures InRange(Get(b, d), Rating(p, d)) {
        assert InRange(Get(Upper(b, con), d), Rating(p, d));
      }
    }
  }

  /** Inside the box, the parts passing the test are exactly those of the sub-box sent on. */
  lemma CheckSplit(b: Box, con: Condition, p: Part)
    requires InBox(p, b)
    ensures con.op == Less ==> (Check(con, p) <==> InBox(p, Lower(b, con)))
    ensures con.op == Greater ==> (Check(con, p) <==> InBox(p, Upper(b, con)))
    ensures !(InBox(p, Lower(b, con)) && InBox(p, Upper(b, con)))
    ensures InBox(p, Lower(b, con)) || InBox(p, Upper(b, con))
  {
    SplitMembers(b, con, p);
  }

  /** A test passing at both corners passes for every part of the box; one passing at neither, for none. */
  lemma CornersDecide(b: Box, con: Condition, p: Part)
    requires InBox(p, b)
    ensures StartCheck(con, b) && EndCheck(con, b) ==> Check(con, p)
    ensures !StartCheck(con, b) && !EndCheck(con, b) ==> !Check(con, p)
    ensures StartCheck(con, b) && !EndCheck(con, b) ==> con.op == Less
    ensures !StartCheck(con, b) && EndCheck(con, b) ==> con.op == Greater
  {
    assert InRange(Get(b, con.category), Rating(p, con.category));
  }

  /**
   * The corrected split is a partition that agrees with the single-part
   * rule: every part of the box lies in exactly one listed box, and that
   * box is sent where `apply_to_part` sends the part; no part outside the
   * box is listed.
   */
  lemma {:induction false} IntervalsPartition(tests: seq<Test>, otherwise: string, b: Box, p: Part)
    ensures InBox(p, b) ==> (Hits(Intervals(tests, otherwise, b), p) == 1
      && Route(Intervals(tests, otherwise, b), p) == Some(ApplyTests(tests, otherwise, p)))
    ensures !InBox(p, b) ==> Hits(Intervals(tests, otherwise, b), p) == 0
  {
    if tests != [] {
      var con, w := tests[0].0, tests[0].1;
      var lower, upper := Lower(b, con), Upper(b, con);
      SplitMembers(b, con, p);
      if InBox(p, b) {
        CheckSplit(b, con, p);
        CornersDecide(b, con, p);
      }
      var rest :=
        if StartCheck(con, b) && EndCheck(con, b) then []
        else if StartCheck(con, b) then Intervals(tests[1..], otherwise, upper)
        else if EndCheck(con, b) then Intervals(tests[1..], otherwise, lower)
        else Intervals(tests[1..], otherwise, b);
      var first := if StartCheck(con, b) && EndCheck(con, b) then [(b, w)]
        else if StartCheck(con, b) then [(lower, w)]
        else if EndCheck(con, b) then [(upper, w)]
        else [];
      assert Intervals(tests, otherwise, b) == first + rest;
      HitsAppend(first, rest, p);
      if StartCheck(con, b) && EndCheck(con, b) {
      } else if StartCheck(con, b) {
        IntervalsPartition(tests[1..], otherwise, upper, p);
      } else if EndCheck(con, b) {
        IntervalsPartition(tests[1..], otherwise, lower, p);
      } else {
        IntervalsPartition(tests[1..], otherwise, b, p);
      }
    }
  }

  // ---------------------------------------------------------------------
  // Sizes

  function SumVolumes(es: seq<(Box, string)>): nat
  {
    if es == [] then 0 else Volume(es[0].0) + SumVolumes(es[1..])
  }

  lemma SumVolumesAppend(es: seq<(Box, string)>, fs: seq<(Box, string)>)
    ensures SumVolumes(es + fs) == SumVolumes(es) + SumVolumes(fs)
  {
    if es == [] {
      assert es + fs == fs;
    } else {
      assert (es + fs)[1..] == es[1..] + fs;
      SumVolumesAppend(es[1..], fs);
    }
  }

  /** The size of the box, one rating's count times the product of the other three. */
  function Others(b: Box, c: Category): nat
  {
    match c
    case ExtremelyCoolLooking => Count(b.m) * Count(b.a) * Count(b.s)
    case Musical => Count(b.x) * Count(b.a) * Count(b.s)
    case Aerodynamic => Count(b.x) * Count(b.m) * Count(b.s)
    case Shiny => Count(b.x) * Count(b.m) * Count(b.a)
  }

  lemma VolumeFactor(b: Box, c: Category)
    ensures Volume(b) == Count(Get(b, c)) * Others(b, c)
    ensures forall r :: Others(With(b, c, r), c) == Others(b, c)
  {
    var x, m, a, s := Count(b.x), Count(b.m), Count(b.a), Count(b.s);
    assert Volume(b) == x * m * a * s;
    Rearrange(x, m, a, s);
    match c
    case ExtremelyCoolLooking => assert Others(b, c) == m * a * s;
    case Musical => assert Others(b, c) == x * a * s;
    case Aerodynamic => assert Others(b, c) == x * m * s;
    case Shiny => assert Others(b, c) == x * m * a;
  }

  lemma Rearrange(x: nat, m: nat, a: nat, s: nat)
    ensures x * m * a * s == m * (x * a * s) == a * (x * m * s) == x * (m * a * s)
  {
    assert x * m == m * x;
    assert m * x * a == m * (x * a);
    assert m * (x * a) * s == m * (x * a * s);
    assert x * m * a == x * a * m;
    assert x * a * m * s == x * a * (m * s);
    assert x * a * (m * s) == a * x * (m * s);
    assert a * x * (m * s) == a * (x * m * s);
    assert x * m * a * s == x * (m * a * s);
  }

  /** Cutting a range at any point splits its count. */
  lemma CountSplit(r: Range, t: int)
    ensures Count(Range(r.start, Min(t, r.end))) + Count(Range(Max(t + 1, r.start), r.end)) == Count(r)
  {
  }

  /** The two sub-boxes of a test together are exactly as large as the box. */
  lemma SplitVolume(b: Box, con: Condition)
    ensures Volume(Lower(b, con)) + Volume(Upper(b, con)) == Volume(b)
  {
    var c := con.category;
    var r := Get(b, c);
    var lr := Range(r.start, Min(con.v - LowerOffset(con.op), r.end));
    var ur := Range(Max(con.v + UpperOffset(con.op), r.start), r.end);
    CountSplit(r, con.v - LowerOffset(con.op));
    VolumeFactor(b, c);
    VolumeFactor(Lower(b, con), c);
    VolumeFactor(Upper(b, con), c);
    var o := Others(b, c);
    assert Count(lr) * o + Count(ur) * o == (Count(lr) + Count(ur)) * o;
  }

  /** The corrected split loses and duplicates nothing: the listed sizes add up to the box. */
  lemma {:induction false} IntervalsVolume(tests: seq<Test>, otherwise: string, b: Box)
    ensures SumVolumes(Intervals(tests, otherwise, b)) == Volume(b)
  {
    if tests != [] {
      var con, w := tests[0].0, tests[0].1;
      var lower, upper := Lower(b, con), Upper(b, con);
      SplitVolume(b, con);
      var rest :=
        if StartCheck(con, b) && EndCheck(con, b) then []
        else if StartCheck(con, b) then Intervals(tests[1..], otherwise, upper)
        else if EndCheck(con, b) then Intervals(tests[1..], otherwise, lower)
        else Intervals(tests[1..], otherwise, b);
      var first := if StartCheck(con, b) && EndCheck(con, b) then [(b, w)]
        else if StartCheck(con, b) then [(lower, w)]
        else if EndCheck(con, b) then [(upper, w)]
        else [];
      assert Intervals(tests, otherwise, b) == first + rest;
      SumVolumesAppend(first, rest);
      if StartCheck(con, b) && EndCheck(con, b) {
      } else if StartCheck(con, b) {
        IntervalsVolume(tests[1..], otherwise, upper);
      } else if EndCheck(con, b) {
        IntervalsVolume(tests[1..], otherwise, lower);
      } else {
        IntervalsVolume(tests[1..], otherwise, b);
      }
    }
  }

  // ---------------------------------------------------------------------
  // What the source's split gets wrong

  /**
   * With the box's first rating already cut to 2001..=4000, a test
   * `m>1000` sends `m` 2001..=4000 on instead of 1001..=4000: the part
   * x=2001, m=1500 is in the box but in none of the listed boxes, and the
   * listed sizes fall short of the box.
   */
  lemma ClampLosesParts()
    ensures var b := Box(Range(2001, 4000), Range(1, 4000), Range(1, 4000), Range(1, 4000));
      var es := IntervalsAsWritten([(Condition(Musical, Greater, 1000), "A")], "R", b);
      var p := Part(2001, 1500, 1, 1);
      InBox(p, b) && Hits(es, p) == 0 && SumVolumes(es) < Volume(b)
  {
    var b := Box(Range(2001, 4000), Range(1, 4000), Range(1, 4000), Range(1, 4000));
    var tests := [(Condition(Musical, Greater, 1000), "A")];
    var p := Part(2001, 1500, 1, 1);
    assert InRange(Get(b, Musical), Rating(p, Musical));
    assert InRange(Get(b, ExtremelyCoolLooking), Rating(p, ExtremelyCoolLooking));
    var up := Box(Range(2001, 4000), Range(2001, 4000), Range(2001, 4000), Range(2001, 4000));
    var lo := Box(Range(2001, 4000), Range(1, 1000), Range(1, 4000), Range(1, 4000));
    assert UpperAsWritten(b, tests[0].0) == up;
    assert Lower(b, tests[0].0) == lo;
    var es := IntervalsAsWritten(tests, "R", b);
    assert IntervalsAsWritten(tests[1..], "R", lo) == [(lo, "R")];
    assert es == [(up, "A"), (lo, "R")];
    assert !InRange(Get(up, Musical), Rating(p, Musical));
    assert !InRange(Get(lo, Musical), Rating(p, Musical));
    assert es[1..] == [(lo, "R")] && es[1..][1..] == [];
    assert !InBox(p, up) && !InBox(p, lo);
    assert Hits(es[1..], p) == 0;
    assert SumVolumes(es[1..]) == Volume(lo);
    assert Volume(up) == 2000 * 2000 * 2000 * 2000;
    assert Volume(lo) == 2000 * 1000 * 4000 * 4000;
    assert Volume(b) == 2000 * 4000 * 4000 * 4000;
  }

  /**
   * A test `x<4001` passes at both corners of the full box: the whole box
   * is listed for the test's destination and then again for `otherwise`,
   * so every part is counted twice when both are `A`.
   */
  lemma BothEndsListedTwice()
    ensures var b := Box(Range(1, 4000), Range(1, 4000), Range(1, 4000), Range(1, 4000));
      var es := IntervalsAsWritten([(Condition(ExtremelyCoolLooking, Less, 4001), "A")], "A", b);
      var p := Part(1, 1, 1, 1);
      InBox(p, b) && Hits(es, p) == 2 && SumVolumes(es) == 2 * Volume(b)
  {
    var b := Box(Range(1, 4000), Range(1, 4000), Range(1, 4000), Range(1, 4000));
    var con := Condition(ExtremelyCoolLooking, Less, 4001);
    var p := Part(1, 1, 1, 1);
    assert Lower(b, con) == b;
    var es := IntervalsAsWritten([(con, "A")], "A", b);
    assert es == [(b, "A"), (b, "A")];
    assert es[1..] == [(b, "A")] && es[1..][1..] == [];
    assert InBox(p, b);
    assert Hits(es[1..], p) == 1;
    assert SumVolumes(es[1..]) == Volume(b);
    assert InRange(Get(b, Musical), Rating(p, Musical));
    assert InRange(Get(b, ExtremelyCoolLooking), Rating(p, ExtremelyCoolLooking));
    assert InRange(Get(b, Aerodynamic), Rating(p, Aerodynamic));
    assert InRange(Get(b, Shiny), Rating(p, Shiny));
  }

  // ---------------------------------------------------------------------
  // Part b

  /**
   * The number of accepted combinations in box `b` sent to workflow
   * `name`; `None` when a box reaches a name that is no workflow.
   */
  function AcceptedVolume(flows: map<string, Workflow>, rank: map<string, nat>, name: string, b: Box): Option<nat>
    requires Ranked(flows, rank)
    decreases Measure(flows, rank, name), 1
  {
    if name == "A" then Some(Volume(b))
    else if name == "R" then Some(0)
    else if name !in flows then None
    else AcceptedEntries(flows, rank, name, Intervals(flows[name].tests, flows[name].otherwise, b))
  }

  /** The accepted combinations of the boxes a workflow lists. */
  function AcceptedEntries(flows: map<string, Workflow>, rank: map<string, nat>, parent: string, es: seq<(Box, string)>): Option<nat>
    requires Ranked(flows, rank) && parent in flows
    requires forall k | 0 <= k < |es| :: IsDest(flows[parent], es[k].1)
    decreases Measure(flows, rank, parent), 0, |es|
  {
    if es == [] then Some(0)
    else
      RankedStep(flows, rank, parent, es[0].1);
      match (AcceptedVolume(flows, rank, es[0].1, es[0].0), AcceptedEntries(flows, rank, parent, es[1..]))
      case (Some(u), Some(v)) => Some(u + v)
      case _ => None
  }

  /** No box counts more combinations as accepted than it holds. */
  lemma {:induction false} AcceptedWithin(flows: map<string, Workflow>, rank: map<string, nat>, name: string, b: Box)
    requires Ranked(flows, rank)
    ensures AcceptedVolume(flows, rank, name, b).Some? ==> AcceptedVolume(flows, rank, name, b).value <= Volume(b)
    decreases Measure(flows, rank, name), 1
  {
    if name != "A" && name != "R" && name in flows {
      var es := Intervals(flows[name].tests, flows[name].otherwise, b);
      IntervalsVolume(flows[name].tests, flows[name].otherwise, b);
      EntriesWithin(flows, rank, name, es);
    }
  }

  lemma {:induction false} EntriesWithin(flows: map<string, Workflow>, rank: map<string, nat>, parent: string, es: seq<(Box, string)>)
    requires Ranked(flows, rank) && parent in flows
    requires forall k | 0 <= k < |es| :: IsDest(flows[parent], es[k].1)
    ensures AcceptedEntries(flows, rank, parent, es).Some? ==> AcceptedEntries(flows, rank, parent, es).value <= SumVolumes(es)
    decreases Measure(flows, rank, parent), 0, |es|
  {
    if es != [] {
      RankedStep(flows, rank, parent, es[0].1);
      AcceptedWithin(flows, rank, es[0].1, es[0].0);
      EntriesWithin(flows, rank, parent, es[1..]);
    }
  }

  const FullBox := Box(Range(1, 4000), Range(1, 4000), Range(1, 4000), Range(1, 4000))

  /** `part_b`: the accepted combinations among ratings 1..=4000, starting at `in`. */
  function PartB(flows: map<string, Workflow>, rank: map<string, nat>): (r: Option<nat>)
    requires Ranked(flows, rank)
    ensures r.Some? ==> r.value <= 4000 * 4000 * 4000 * 4000
  {
    AcceptedWithin(flows, rank, "in", FullBox);
    AcceptedVolume(flows, rank, "in", FullBox)
  }

  // ---------------------------------------------------------------------
  // Part b counts the accepted combinations

  /** The sum of `f` over the integers `lo..=hi`. */
  ghost function Sum(lo: int, hi: int, f: int -> nat): nat
    decreases hi - lo
  {
    if hi < lo then 0 else f(lo) + Sum(lo + 1, hi, f)
  }

  /** Cutting `lo..=hi` between `t` and `t + 1` splits the sum. */
  lemma {:induction false} SumSplit(lo: int, hi: int, t: int, f: int -> nat)
    ensures Sum(lo, hi, f) == Sum(lo, Min(t, hi), f) + Sum(Max(t + 1, lo), hi, f)
    decreases hi - lo
  {
    if lo <= hi && lo <= t {
      SumSplit(lo + 1, hi, t, f);
      assert Max(t + 1, lo + 1) == Max(t + 1, lo);
    }
  }

  /** Summing pointwise sums adds the sums. */
  lemma {:induction false} SumAdd(lo: int, hi: int, f: int -> nat, g: int -> nat, h: int -> nat)
    requires forall v | lo <= v <= hi :: h(v) == f(v) + g(v)
    ensures Sum(lo, hi, h) == Sum(lo, hi, f) + Sum(lo, hi, g)
    decreases hi - lo
  {
    if lo <= hi {
      SumAdd(lo + 1, hi, f, g, h);
    }
  }

  /** Functions that agree on the range have the same sum. */
  lemma {:induction false} SumSame(lo: int, hi: int, f: int -> nat, g: int -> nat)
    requires forall v | lo <= v <= hi :: f(v) == g(v)
    ensures Sum(lo, hi, f) == Sum(lo, hi, g)
    decreases hi - lo
  {
    if lo <= hi {
      SumSame(lo + 1, hi, f, g);
    }
  }

  /** A constant summed over a range is the constant times the range's count. */
  lemma {:induction false} SumConst(lo: int, hi: int, f: int -> nat, c: nat)
    requires forall v | lo <= v <= hi :: f(v) == c
    ensures Sum(lo, hi, f) == Count(Range(lo, hi)) * c
    decreases hi - lo
  {
    if lo <= hi {
      SumConst(lo + 1, hi, f, c);
      assert Count(Range(lo, hi)) == Count(Range(lo + 1, hi)) + 1;
      assert (Count(Range(lo + 1, hi)) + 1) * c == Count(Range(lo + 1, hi)) * c + c;
    }
  }

  /** 1 when the part rated (x, m, a, s) ends accepted when it starts at workflow `name`. */
  ghost function Accepted(flows: map<string, Workflow>, rank: map<string, nat>, name: string, x: int, m: int, a: int, s: int): nat
  {
    if Ranked(flows, rank) && x >= 0 && m >= 0 && a >= 0 && s >= 0
       && Follow(flows, rank, name, Part(x, m, a, s)) == Some("A")
    then 1 else 0
  }

  ghost function CombinationsS(flows: map<string, Workflow>, rank: map<string, nat>, name: string, x: int, m: int, a: int, s: Range): nat
  {
    Sum(s.start, s.end, v => Accepted(flows, rank, name, x, m, a, v))
  }

  ghost function CombinationsA(flows: map<string, Workflow>, rank: map<string, nat>, name: string, x: int, m: int, a: Range, s: Range): nat
  {
    Sum(a.start, a.end, v => CombinationsS(flows, rank, name, x, m, v, s))
  }

  ghost function CombinationsM(flows: map<string, Workflow>, rank: map<string, nat>, name: string, x: int, m: Range, a: Range, s: Range): nat
  {
    Sum(m.start, m.end, v => CombinationsA(flows, rank, name, x, v, a, s))
  }

  /**
   * The number of rating combinations in box `b` whose part, starting at
   * workflow `name`, ends accepted: a sum over every combination, one
   * part at a time, independent of how `part_b` splits boxes.
   */
  ghost function Combinations(flows: map<string, Workflow>, rank: map<string, nat>, name: string, b: Box): nat
  {
    Sum(b.x.start, b.x.end, v => CombinationsM(flows, rank, name, v, b.m, b.a, b.s))
  }

  function LowerRange(r: Range, t: int): Range
  {
    Range(r.start, Min(t, r.end))
  }

  function UpperRange(r: Range, t: int): Range
  {
    Range(Max(t + 1, r.start), r.end)
  }

  lemma SplitS(flows: map<string, Workflow>, rank: map<string, nat>, name: string, x: int, m: int, a: int, s: Range, t: int)
    ensures CombinationsS(flows, rank, name, x, m, a, s)
         == CombinationsS(flows, rank, name, x, m, a, LowerRange(s, t)) + CombinationsS(flows, rank, name, x, m, a, UpperRange(s, t))
  {
    SumSplit(s.start, s.end, t, v => Accepted(flows, rank, name, x, m, a, v));
  }

  lemma SplitAS(flows: map<string, Workflow>, rank: map<string, nat>, name: string, x: int, m: int, a: Range, s: Range, t: int)
    ensures CombinationsA(flows, rank, name, x, m, a, s)
         == CombinationsA(flows, rank, name, x, m, a, LowerRange(s, t)) + CombinationsA(flows, rank, name, x, m, a, UpperRange(s, t))
  {
    forall v | a.start <= v <= a.end
      ensures CombinationsS(flows, rank, name, x, m, v, s)
           == CombinationsS(flows, rank, name, x, m, v, LowerRange(s, t)) + CombinationsS(flows, rank, name, x, m, v, UpperRange(s, t))
    {
      SplitS(flows, rank, name, x, m, v, s, t);
    }
    SumAdd(a.start, a.end, v => CombinationsS(flows, rank, name, x, m, v, LowerRange(s, t)),
           v => CombinationsS(flows, rank, name, x, m, v, UpperRange(s, t)), v => CombinationsS(flows, rank, name, x, m, v, s));
  }

  lemma SplitA(flows: map<string, Workflow>, rank: map<string, nat>, name: string, x: int, m: int, a: Range, s: Range, t: int)
    ensures CombinationsA(flows, rank, name, x, m, a, s)
         == CombinationsA(flows, rank, name, x, m, LowerRange(a, t), s) + CombinationsA(flows, rank, name, x, m, UpperRange(a, t), s)
  {
    SumSplit(a.start, a.end, t, v => CombinationsS(flows, rank, name, x, m, v, s));
  }

  lemma SplitMS(flows: map<string, Workflow>, rank: map<string, nat>, name: string, x: int, m: Range, a: Range, s: Range, t: int)
    ensures CombinationsM(flows, rank, name, x, m, a, s)
         == CombinationsM(flows, rank, name, x, m, a, LowerRange(s, t)) + CombinationsM(flows, rank, name, x, m, a, UpperRange(s, t))
  {
    forall v | m.start <= v <= m.end
      ensures CombinationsA(flows, rank, name, x, v, a, s)
           == CombinationsA(flows, rank, name, x, v, a, LowerRange(s, t)) + CombinationsA(flows, rank, name, x, v, a, UpperRange(s, t))
    {
      SplitAS(flows, rank, name, x, v, a, s, t);
    }
    SumAdd(m.start, m.end, v => CombinationsA(flows, rank, name, x, v, a, LowerRange(s, t)),
           v => CombinationsA(flows, rank, name, x, v, a, UpperRange(s, t)), v => CombinationsA(flows, rank, name, x, v, a, s));
  }

  lemma SplitMA(flows: map<string, Workflow>, rank: map<string, nat>, name: string, x: int, m: Range, a: Range, s: Range, t: int)
    ensures CombinationsM(flows, rank, name, x, m, a, s)
         == CombinationsM(flows, rank, name, x, m, LowerRange(a, t), s) + CombinationsM(flows, rank, name, x, m, UpperRange(a, t), s)
  {
    forall v | m.start <= v <= m.end
      ensures CombinationsA(flows, rank, name, x, v, a, s)
           == CombinationsA(flows, rank, name, x, v, LowerRange(a, t), s) + CombinationsA(flows, rank, name, x, v, UpperRange(a, t), s)
    {
      SplitA(flows, rank, name, x, v, a, s, t);
    }
    SumAdd(m.start, m.end, v => CombinationsA(flows, rank, name, x, v, LowerRange(a, t), s),
           v => CombinationsA(flows, rank, name, x, v, UpperRange(a, t), s), v => CombinationsA(flows, rank, name, x, v, a, s));
  }

  lemma SplitM(flows: map<string, Workflow>, rank: map<string, nat>, name: string, x: int, m: Range, a: Range, s: Range, t: int)
    ensures CombinationsM(flows, rank, name, x, m, a, s)
         == CombinationsM(flows, rank, name, x, LowerRange(m, t), a, s) + CombinationsM(flows, rank, name, x, UpperRange(m, t), a, s)
  {
    SumSplit(m.start, m.end, t, v => CombinationsA(flows, rank, name, x, v, a, s));
  }

  /** Cutting the box in one rating between `t` and `t + 1` splits the accepted combinations. */
  lemma CombinationsSplit(flows: map<string, Workflow>, rank: map<string, nat>, name: string, b: Box, c: Category, t: int)
    ensures Combinations(flows, rank, name, b)
         == Combinations(flows, rank, name, With(b, c, LowerRange(Get(b, c), t)))
          + Combinations(flows, rank, name, With(b, c, UpperRange(Get(b, c), t)))
  {
    var lo := With(b, c, LowerRange(Get(b, c), t));
    var up := With(b, c, UpperRange(Get(b, c), t));
    var f := v => CombinationsM(flows, rank, name, v, b.m, b.a, b.s);
    var g := v => CombinationsM(flows, rank, name, v, lo.m, lo.a, lo.s);
    var h := v => CombinationsM(flows, rank, name, v, up.m, up.a, up.s);
    match c
    case ExtremelyCoolLooking =>
      SumSplit(b.x.start, b.x.end, t, f);
      SumSame(lo.x.start, lo.x.end, f, g);
      SumSame(up.x.start, up.x.end, f, h);
    case Musical =>
      forall v | b.x.start <= v <= b.x.end
        ensures f(v) == g(v) + h(v)
      {
        SplitM(flows, rank, name, v, b.m, b.a, b.s, t);
      }
      SumAdd(b.x.start, b.x.end, g, h, f);
    case Aerodynamic =>
      forall v | b.x.start <= v <= b.x.end
        ensures f(v) == g(v) + h(v)
      {
        SplitMA(flows, rank, name, v, b.m, b.a, b.s, t);
      }
      SumAdd(b.x.start, b.x.end, g, h, f);
    case Shiny =>
      forall v | b.x.start <= v <= b.x.end
        ensures f(v) == g(v) + h(v)
      {
        SplitMS(flows, rank, name, v, b.m, b.a, b.s, t);
      }
      SumAdd(b.x.start, b.x.end, g, h, f);
  }

  /** A test's two sub-boxes split the accepted combinations of the box. */
  lemma SplitCombinations(flows: map<string, Workflow>, rank: map<string, nat>, name: string, b: Box, con: Condition)
    ensures Combinations(flows, rank, name, b)
         == Combinations(flows, rank, name, Lower(b, con)) + Combinations(flows, rank, name, Upper(b, con))
  {
    var t := con.v - LowerOffset(con.op);
    assert con.v + UpperOffset(con.op) == t + 1;
    CombinationsSplit(flows, rank, name, b, con.category, t);
  }

  /** The accepted combinations of the listed boxes, each counted from workflow `name`. */
  ghost function SumCombinations(flows: map<string, Workflow>, rank: map<string, nat>, name: string, es: seq<(Box, string)>): nat
  {
    if es == [] then 0 else Combinations(flows, rank, name, es[0].0) + SumCombinations(flows, rank, name, es[1..])
  }

  lemma {:induction false} SumCombinationsAppend(flows: map<string, Workflow>, rank: map<string, nat>, name: string,
                                                 es: seq<(Box, string)>, fs: seq<(Box, string)>)
    ensures SumCombinations(flows, rank, name, es + fs) == SumCombinations(flows, rank, name, es) + SumCombinations(flows, rank, name, fs)
  {
    if es == [] {
      assert es + fs == fs;
    } else {
      assert (es + fs)[1..] == es[1..] + fs;
      SumCombinationsAppend(flows, rank, name, es[1..], fs);
    }
  }

  /** The boxes a workflow lists split the box's accepted combinations, counted from any workflow. */
  lemma {:induction false} IntervalsCombinations(flows: map<string, Workflow>, rank: map<string, nat>, name: string,
                                                 tests: seq<Test>, otherwise: string, b: Box)
    ensures SumCombinations(flows, rank, name, Intervals(tests, otherwise, b)) == Combinations(flows, rank, name, b)
  {
    if tests != [] {
      var con, w := tests[0].0, tests[0].1;
      var lower, upper := Lower(b, con), Upper(b, con);
      SplitCombinations(flows, rank, name, b, con);
      var rest :=
        if StartCheck(con, b) && EndCheck(con, b) then []
        else if StartCheck(con, b) then Intervals(tests[1..], otherwise, upper)
        else if EndCheck(con, b) then Intervals(tests[1..], otherwise, lower)
        else Intervals(tests[1..], otherwise, b);
      var first := if StartCheck(con, b) && EndCheck(con, b) then [(b, w)]
        else if StartCheck(con, b) then [(lower, w)]
        else if EndCheck(con, b) then [(upper, w)]
        else [];
      assert Intervals(tests, otherwise, b) == first + rest;
      SumCombinationsAppend(flows, rank, name, first, rest);
      if StartCheck(con, b) && EndCheck(con, b) {
      } else if StartCheck(con, b) {
        IntervalsCombinations(flows, rank, name, tests[1..], otherwise, upper);
      } else if EndCheck(con, b) {
        IntervalsCombinations(flows, rank, name, tests[1..], otherwise, lower);
      } else {
        IntervalsCombinations(flows, rank, name, tests[1..], otherwise, b);
      }
    }
  }

  /** Every rating range of the box starts at 0 or above, as ratings do. */
  predicate NonNegative(b: Box)
  {
    b.x.start >= 0 && b.m.start >= 0 && b.a.start >= 0 && b.s.start >= 0
  }

  /** Cutting never lowers a start, so every listed box of a non-negative box is non-negative. */
  lemma {:induction false} IntervalsNonNegative(tests: seq<Test>, otherwise: string, b: Box)
    requires NonNegative(b)
    ensures forall k | 0 <= k < |Intervals(tests, otherwise, b)| :: NonNegative(Intervals(tests, otherwise, b)[k].0)
  {
    if tests != [] {
      var con := tests[0].0;
      assert NonNegative(Lower(b, con)) && NonNegative(Upper(b, con));
      IntervalsNonNegative(tests[1..], otherwise, Lower(b, con));
      IntervalsNonNegative(tests[1..], otherwise, Upper(b, con));
      IntervalsNonNegative(tests[1..], otherwise, b);
    }
  }

  lemma AllAcceptedS(flows: map<string, Workflow>, rank: map<string, nat>, x: int, m: int, a: int, s: Range)
    requires Ranked(flows, rank) && x >= 0 && m >= 0 && a >= 0 && s.start >= 0
    ensures CombinationsS(flows, rank, "A", x, m, a, s) == Count(s)
  {
    forall v | s.start <= v <= s.end
      ensures Accepted(flows, rank, "A", x, m, a, v) == 1
    {
      assert Follow(flows, rank, "A", Part(x, m, a, v)) == Some("A");
    }
    SumConst(s.start, s.end, v => Accepted(flows, rank, "A", x, m, a, v), 1);
  }

  lemma AllAcceptedA(flows: map<string, Workflow>, rank: map<string, nat>, x: int, m: int, a: Range, s: Range)
    requires Ranked(flows, rank) && x >= 0 && m >= 0 && a.start >= 0 && s.start >= 0
    ensures CombinationsA(flows, rank, "A", x, m, a, s) == Count(a) * Count(s)
  {
    forall v | a.start <= v <= a.end
      ensures CombinationsS(flows, rank, "A", x, m, v, s) == Count(s)
    {
      AllAcceptedS(flows, rank, x, m, v, s);
    }
    SumConst(a.start, a.end, v => CombinationsS(flows, rank, "A", x, m, v, s), Count(s));
  }

  lemma AllAcceptedM(flows: map<string, Workflow>, rank: map<string, nat>, x: int, m: Range, a: Range, s: Range)
    requires Ranked(flows, rank) && x >= 0 && m.start >= 0 && a.start >= 0 && s.start >= 0
    ensures CombinationsM(flows, rank, "A", x, m, a, s) == Count(m) * (Count(a) * Count(s))
  {
    forall v | m.start <= v <= m.end
      ensures CombinationsA(flows, rank, "A", x, v, a, s) == Count(a) * Count(s)
    {
      AllAcceptedA(flows, rank, x, v, a, s);
    }
    SumConst(m.start, m.end, v => CombinationsA(flows, rank, "A", x, v, a, s), Count(a) * Count(s));
  }

  /** Every combination of a non-negative box sent to `A` is accepted: the count is the box's size. */
  lemma AllAccepted(flows: map<string, Workflow>, rank: map<string, nat>, b: Box)
    requires Ranked(flows, rank) && NonNegative(b)
    ensures Combinations(flows, rank, "A", b) == Volume(b)
  {
    var c := Count(b.m) * (Count(b.a) * Count(b.s));
    forall v | b.x.start <= v <= b.x.end
      ensures CombinationsM(flows, rank, "A", v, b.m, b.a, b.s) == c
    {
      AllAcceptedM(flows, rank, v, b.m, b.a, b.s);
    }
    SumConst(b.x.start, b.x.end, v => CombinationsM(flows, rank, "A", v, b.m, b.a, b.s), c);
    Associate(Count(b.x), Count(b.m), Count(b.a), Count(b.s));
  }

  lemma Associate(x: nat, m: nat, a: nat, s: nat)
    ensures x * (m * (a * s)) == x * m * a * s
  {
    assert m * (a * s) == m * a * s;
    assert x * (m * a * s) == x * (m * a) * s;
    assert x * (m * a) == x * m * a;
  }

  /** No combination sent to `R` is accepted. */
  lemma NoneAccepted(flows: map<string, Workflow>, rank: map<string, nat>, b: Box)
    ensures Combinations(flows, rank, "R", b) == 0
  {
    forall x, m, a
      ensures CombinationsS(flows, rank, "R", x, m, a, b.s) == 0
    {
      SumConst(b.s.start, b.s.end, v => Accepted(flows, rank, "R", x, m, a, v), 0);
    }
    forall x, m
      ensures CombinationsA(flows, rank, "R", x, m, b.a, b.s) == 0
    {
      SumConst(b.a.start, b.a.end, v => CombinationsS(flows, rank, "R", x, m, v, b.s), 0);
    }
    forall x
      ensures CombinationsM(flows, rank, "R", x, b.m, b.a, b.s) == 0
    {
      SumConst(b.m.start, b.m.end, v => CombinationsA(flows, rank, "R", x, v, b.a, b.s), 0);
    }
    SumConst(b.x.start, b.x.end, v => CombinationsM(flows, rank, "R", v, b.m, b.a, b.s), 0);
  }

  /** A part whose ratings lie in the box's ranges lies in the box. */
  lemma InBoxOf(b: Box, x: nat, m: nat, a: nat, s: nat)
    requires InRange(b.x, x) && InRange(b.m, m) && InRange(b.a, a) && InRange(b.s, s)
    ensures InBox(Part(x, m, a, s), b)
  {
    var p := Part(x, m, a, s);
    forall c ensures InRange(Get(b, c), Rating(p, c)) {
      match c
      case ExtremelyCoolLooking =>
      case Musical =>
      case Aerodynamic =>
      case Shiny =>
    }
  }

  /** Workflows that send every part of the box to the same end accept the same combinations of it, level by level. */
  lemma AgreeS(flows: map<string, Workflow>, rank: map<string, nat>, n1: string, n2: string, b: Box, x: int, m: int, a: int)
    requires Ranked(flows, rank)
    requires forall p: Part | InBox(p, b) :: Follow(flows, rank, n1, p) == Follow(flows, rank, n2, p)
    requires InRange(b.x, x) && InRange(b.m, m) && InRange(b.a, a)
    ensures CombinationsS(flows, rank, n1, x, m, a, b.s) == CombinationsS(flows, rank, n2, x, m, a, b.s)
  {
    forall v | b.s.start <= v <= b.s.end
      ensures Accepted(flows, rank, n1, x, m, a, v) == Accepted(flows, rank, n2, x, m, a, v)
    {
      if x >= 0 && m >= 0 && a >= 0 && v >= 0 {
        InBoxOf(b, x, m, a, v);
      }
    }
    SumSame(b.s.start, b.s.end, v => Accepted(flows, rank, n1, x, m, a, v), v => Accepted(flows, rank, n2, x, m, a, v));
  }

  lemma AgreeA(flows: map<string, Workflow>, rank: map<string, nat>, n1: string, n2: string, b: Box, x: int, m: int)
    requires Ranked(flows, rank)
    requires forall p: Part | InBox(p, b) :: Follow(flows, rank, n1, p) == Follow(flows, rank, n2, p)
    requires InRange(b.x, x) && InRange(b.m, m)
    ensures CombinationsA(flows, rank, n1, x, m, b.a, b.s) == CombinationsA(flows, rank, n2, x, m, b.a, b.s)
  {
    forall v | b.a.start <= v <= b.a.end
      ensures CombinationsS(flows, rank, n1, x, m, v, b.s) == CombinationsS(flows, rank, n2, x, m, v, b.s)
    {
      AgreeS(flows, rank, n1, n2, b, x, m, v);
    }
    SumSame(b.a.start, b.a.end, v => CombinationsS(flows, rank, n1, x, m, v, b.s), v => CombinationsS(flows, rank, n2, x, m, v, b.s));
  }

  lemma AgreeM(flows: map<string, Workflow>, rank: map<string, nat>, n1: string, n2: string, b: Box, x: int)
    requires Ranked(flows, rank)
    requires forall p: Part | InBox(p, b) :: Follow(flows, rank, n1, p) == Follow(flows, rank, n2, p)
    requires InRange(b.x, x)
    ensures CombinationsM(flows, rank, n1, x, b.m, b.a, b.s) == CombinationsM(flows, rank, n2, x, b.m, b.a, b.s)
  {
    forall v | b.m.start <= v <= b.m.end
      ensures CombinationsA(flows, rank, n1, x, v, b.a, b.s) == CombinationsA(flows, rank, n2, x, v, b.a, b.s)
    {
      AgreeA(flows, rank, n1, n2, b, x, v);
    }
    SumSame(b.m.start, b.m.end, v => CombinationsA(flows, rank, n1, x, v, b.a, b.s), v => CombinationsA(flows, rank, n2, x, v, b.a, b.s));
  }

  /** Starting points that send every part of the box to the same end accept the same number of its combinations. */
  lemma Agree(flows: map<string, Workflow>, rank: map<string, nat>, n1: string, n2: string, b: Box)
    requires Ranked(flows, rank)
    requires forall p: Part | InBox(p, b) :: Follow(flows, rank, n1, p) == Follow(flows, rank, n2, p)
    ensures Combinations(flows, rank, n1, b) == Combinations(flows, rank, n2, b)
  {
    forall v | b.x.start <= v <= b.x.end
      ensures CombinationsM(flows, rank, n1, v, b.m, b.a, b.s) == CombinationsM(flows, rank, n2, v, b.m, b.a, b.s)
    {
      AgreeM(flows, rank, n1, n2, b, v);
    }
    SumSame(b.x.start, b.x.end, v => CombinationsM(flows, rank, n1, v, b.m, b.a, b.s), v => CombinationsM(flows, rank, n2, v, b.m, b.a, b.s));
  }

  /** A part in a listed box is counted by the list, and when it is counted once, the list routes it to that box's destination. */
  lemma {:induction false} HitsRoute(es: seq<(Box, string)>, k: nat, p: Part)
    requires k < |es| && InBox(p, es[k].0)
    ensures Hits(es, p) >= 1
    ensures Hits(es, p) == 1 ==> Route(es, p) == Some(es[k].1)
  {
    if k > 0 {
      HitsRoute(es[1..], k - 1, p);
    }
  }

  /** Every part of a box a workflow lists lies in the workflow's box and is sent by the workflow to that box's destination. */
  lemma Send(tests: seq<Test>, otherwise: string, b: Box, k: nat, p: Part)
    requires k < |Intervals(tests, otherwise, b)| && InBox(p, Intervals(tests, otherwise, b)[k].0)
    ensures InBox(p, b)
    ensures ApplyTests(tests, otherwise, p) == Intervals(tests, otherwise, b)[k].1
  {
    IntervalsPartition(tests, otherwise, b, p);
    HitsRoute(Intervals(tests, otherwise, b), k, p);
  }

  /**
   * `part_b`'s count for a non-negative box sent to workflow `name` is the
   * number of the box's combinations that end accepted when followed one
   * part at a time from `name`.
   */
  lemma {:induction false} VolumeCounts(flows: map<string, Workflow>, rank: map<string, nat>, name: string, b: Box)
    requires Ranked(flows, rank) && NonNegative(b)
    ensures AcceptedVolume(flows, rank, name, b).Some? ==> AcceptedVolume(flows, rank, name, b).value == Combinations(flows, rank, name, b)
    decreases Measure(flows, rank, name), 1
  {
    if name == "A" {
      AllAccepted(flows, rank, b);
    } else if name == "R" {
      NoneAccepted(flows, rank, b);
    } else if name in flows {
      var w := flows[name];
      var es := Intervals(w.tests, w.otherwise, b);
      IntervalsNonNegative(w.tests, w.otherwise, b);
      IntervalsCombinations(flows, rank, name, w.tests, w.otherwise, b);
      forall k, p | 0 <= k < |es| && InBox(p, es[k].0)
        ensures ApplyToPart(w, p) == es[k].1
      {
        Send(w.tests, w.otherwise, b, k, p);
      }
      EntriesCount(flows, rank, name, es);
    }
  }

  /** The count of a workflow's listed boxes is the number of their combinations that workflow accepts. */
  lemma {:induction false} EntriesCount(flows: map<string, Workflow>, rank: map<string, nat>, parent: string, es: seq<(Box, string)>)
    requires Ranked(flows, rank) && parent in flows && parent != "A" && parent != "R"
    requires forall k | 0 <= k < |es| :: IsDest(flows[parent], es[k].1) && NonNegative(es[k].0)
    requires forall k, p | 0 <= k < |es| && InBox(p, es[k].0) :: ApplyToPart(flows[parent], p) == es[k].1
    ensures AcceptedEntries(flows, rank, parent, es).Some? ==> AcceptedEntries(flows, rank, parent, es).value == SumCombinations(flows, rank, parent, es)
    decreases Measure(flows, rank, parent), 0, |es|
  {
    if es != [] {
      var b, d := es[0].0, es[0].1;
      RankedStep(flows, rank, parent, d);
      VolumeCounts(flows, rank, d, b);
      forall p: Part | InBox(p, b)
        ensures Follow(flows, rank, d, p) == Follow(flows, rank, parent, p)
      {
        assert ApplyToPart(flows[parent], p) == d;
      }
      Agree(flows, rank, d, parent, b);
      var rest := es[1..];
      assert forall k | 0 <= k < |rest| :: rest[k] == es[k + 1];
      EntriesCount(flows, rank, parent, rest);
    }
  }

  /** `part_b`, when it finishes, counts exactly the rating combinations in 1..=4000 that end accepted starting at `in`. */
  lemma PartBCounts(flows: map<string, Workflow>, rank: map<string, nat>)
    requires Ranked(flows, rank)
    ensures PartB(flows, rank).Some? ==> PartB(flows, rank).value == Combinations(flows, rank, "in", FullBox)
  {
    VolumeCounts(flows, rank, "in", FullBox);
  }
}
