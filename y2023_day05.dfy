/**
 * Year 2023, day 5: almanac maps.  A map is a list of entries, each a
 * destination range and a source range of the same length; a number inside a
 * source range moves by the same offset into the destination range, any
 * other number stays.  Part a pushes single seeds through all maps, part b
 * whole ranges of seeds, splitting them at the source ranges.
 */
module Y2023Day05 {
  import opened Common

  const U64_MAX: nat := 0xffff_ffff_ffff_ffff

  /** A half-open range `start..end`; it is empty when `end <= start`. */
  datatype Range = Range(start: nat, end: nat)

  predicate In(r: Range, y: nat)
  {
    r.start <= y < r.end
  }

  /** `y` lies in one of the ranges. */
  ghost predicate InAny(rs: seq<Range>, y: nat)
  {
    exists k | 0 <= k < |rs| :: In(rs[k], y)
  }

  /** One line of a map: `(dest, src)` as `parse_range` builds it. */
  datatype Entry = Entry(dest: Range, src: Range)

  /** The entry as parsed from `a b c`: `a..a+c` and `b..b+c`, inside the `u64` range. */
  predicate EntryOk(e: Entry)
  {
    e.src.start <= e.src.end <= U64_MAX && e.dest.start <= e.dest.end <= U64_MAX
    && e.dest.end - e.dest.start == e.src.end - e.src.start
  }

  predicate MapOk(m: seq<Entry>)
  {
    forall k | 0 <= k < |m| :: EntryOk(m[k])
  }

  /** No number lies in two source ranges of the map. */
  ghost predicate Disjoint(m: seq<Entry>)
  {
    forall k, l, y | 0 <= k < l < |m| && In(m[k].src, y) :: !In(m[l].src, y)
  }

  // ---------------------------------------------------------------------
  // `apply`

  /** `Map::apply`: through the first entry whose source contains `x`, or unchanged. */
  function Apply(m: seq<Entry>, x: nat): nat
  {
    if m == [] then x
    else if In(m[0].src, x) then m[0].dest.start + (x - m[0].src.start)
    else Apply(m[1..], x)
  }

  /** The first entry containing `x` decides. */
  lemma {:induction false} ApplyFirstHit(m: seq<Entry>, k: nat, x: nat)
    requires k < |m| && In(m[k].src, x)
    requires forall l | 0 <= l < k :: !In(m[l].src, x)
    ensures Apply(m, x) == m[k].dest.start + (x - m[k].src.start)
  {
    if k > 0 {
      ApplyFirstHit(m[1..], k - 1, x);
    }
  }

  /** A number in no source range is left unchanged. */
  lemma {:induction false} ApplyMiss(m: seq<Entry>, x: nat)
    requires forall l | 0 <= l < |m| :: !In(m[l].src, x)
    ensures Apply(m, x) == x
  {
    if m != [] {
      ApplyMiss(m[1..], x);
    }
  }

  /** A number inside a source range lands inside that entry's destination range. */
  lemma ApplyInDest(m: seq<Entry>, k: nat, x: nat)
    requires MapOk(m) && Disjoint(m)
    requires k < |m| && In(m[k].src, x)
    ensures In(m[k].dest, Apply(m, x))
  {
    ApplyFirstHit(m, k, x);
  }

  // ---------------------------------------------------------------------
  // Sorting the cut ranges by their start (`sort_by`, stable)

  function InsertByStart(c: Range, s: seq<Range>): seq<Range>
  {
    if s == [] || c.start < s[0].start then [c] + s else [s[0]] + InsertByStart(c, s[1..])
  }

  function SortByStart(s: seq<Range>): seq<Range>
  {
    if s == [] then [] else InsertByStart(s[|s| - 1], SortByStart(s[..|s| - 1]))
  }

  lemma {:induction false} InsertMembers(c: Range, s: seq<Range>)
    ensures forall r :: r in InsertByStart(c, s) <==> r == c || r in s
  {
    if s != [] && c.start >= s[0].start {
      InsertMembers(c, s[1..]);
      assert s == [s[0]] + s[1..];
    }
  }

  /** Sorting keeps exactly the ranges it is given. */
  lemma {:induction false} SortMembers(s: seq<Range>)
    ensures forall r :: r in SortByStart(s) <==> r in s
  {
    if s != [] {
      SortMembers(s[..|s| - 1]);
      InsertMembers(s[|s| - 1], SortByStart(s[..|s| - 1]));
      assert s == s[..|s| - 1] + [s[|s| - 1]];
    }
  }

  predicate NonEmpty(r: Range)
  {
    r.start < r.end
  }

  /** Two ranges without a common number. */
  predicate Apart(a: Range, b: Range)
  {
    a.end <= b.start || b.end <= a.start
  }

  /** Each range ends before the next one starts: sorted and disjoint. */
  predicate Chain(s: seq<Range>)
  {
    forall i, j | 0 <= i < j < |s| :: s[i].end <= s[j].start
  }

  lemma {:induction false} InsertChain(c: Range, s: seq<Range>)
    requires Chain(s) && NonEmpty(c)
    requires forall r | r in s :: NonEmpty(r) && Apart(c, r)
    ensures Chain(InsertByStart(c, s))
  {
    if s == [] || c.start < s[0].start {
      var t := [c] + s;
      forall i, j | 0 <= i < j < |t|
        ensures t[i].end <= t[j].start
      {
        if i == 0 {
          assert s[j - 1] in s && s[0] in s;
          if j - 1 > 0 {
            assert s[0].end <= s[j - 1].start;
          }
        } else {
          assert t[i] == s[i - 1] && t[j] == s[j - 1];
        }
      }
    } else {
      var rest := InsertByStart(c, s[1..]);
      InsertChain(c, s[1..]);
      InsertMembers(c, s[1..]);
      assert s[0] in s;
      var t := [s[0]] + rest;
      forall i, j | 0 <= i < j < |t|
        ensures t[i].end <= t[j].start
      {
        if i == 0 {
          assert rest[j - 1] in rest;
          if rest[j - 1] != c {
            var k :| 0 <= k < |s[1..]| && s[1..][k] == rest[j - 1];
            assert s[k + 1] == rest[j - 1];
          }
        } else {
          assert t[i] == rest[i - 1] && t[j] == rest[j - 1];
        }
      }
    }
  }

  /** Sorting pairwise apart non-empty ranges by start chains them. */
  lemma {:induction false} SortChain(s: seq<Range>)
    requires forall i | 0 <= i < |s| :: NonEmpty(s[i])
    requires forall i, j | 0 <= i < j < |s| :: Apart(s[i], s[j])
    ensures Chain(SortByStart(s))
  {
    if s != [] {
      var init, c := s[..|s| - 1], s[|s| - 1];
      SortChain(init);
      SortMembers(init);
      forall r | r in SortByStart(init)
        ensures NonEmpty(r) && Apart(c, r)
      {
        var k :| 0 <= k < |init| && init[k] == r;
        assert s[k] == r;
      }
      InsertChain(c, SortByStart(init));
    }
  }

  // ---------------------------------------------------------------------
  // The uncovered parts

  /** A number inside one of the cut ranges. */
  ghost predicate Covered(cuts: seq<Range>, y: nat)
  {
    exists k | 0 <= k < |cuts| :: In(cuts[k], y)
  }

  /**
   * The second loop of `apply_range`: from `last` on, the gap before each
   * cut, stopping once `last` passes the end or a cut starts at or past it.
   */
  function Gaps(cuts: seq<Range>, last: nat, end: nat): seq<Range>
  {
    if cuts == [] || last >= end then []
    else if cuts[0].start >= end then [Range(last, end)]
    else (if last < cuts[0].start then [Range(last, cuts[0].start)] else []) + Gaps(cuts[1..], cuts[0].end, end)
  }

  /** Every gap is non-empty and ends by `end`, whatever the cuts. */
  lemma {:induction false} GapsNonEmpty(cuts: seq<Range>, last: nat, end: nat)
    ensures forall k | 0 <= k < |Gaps(cuts, last, end)| :: NonEmpty(Gaps(cuts, last, end)[k]) && Gaps(cuts, last, end)[k].end <= end
  {
    if cuts != [] && last < end && cuts[0].start < end {
      GapsNonEmpty(cuts[1..], cuts[0].end, end);
    }
  }

  lemma CoveredCons(cuts: seq<Range>, y: nat)
    requires |cuts| > 0
    ensures Covered(cuts, y) <==> In(cuts[0], y) || Covered(cuts[1..], y)
  {
    if Covered(cuts, y) {
      var k :| 0 <= k < |cuts| && In(cuts[k], y);
      if k > 0 {
        assert cuts[1..][k - 1] == cuts[k];
      }
    }
    if Covered(cuts[1..], y) {
      var k :| 0 <= k < |cuts[1..]| && In(cuts[1..][k], y);
      assert cuts[k + 1] == cuts[1..][k];
    }
  }

  lemma InAnyAppend(a: seq<Range>, b: seq<Range>, y: nat)
    ensures InAny(a + b, y) <==> InAny(a, y) || InAny(b, y)
  {
    if InAny(a + b, y) {
      var k :| 0 <= k < |a + b| && In((a + b)[k], y);
      if k >= |a| {
        assert b[k - |a|] == (a + b)[k];
      } else {
        assert a[k] == (a + b)[k];
      }
    }
    if InAny(b, y) {
      var k :| 0 <= k < |b| && In(b[k], y);
      assert (a + b)[|a| + k] == b[k];
    }
    if InAny(a, y) {
      var k :| 0 <= k < |a| && In(a[k], y);
      assert (a + b)[k] == a[k];
    }
  }

  /** Chained proper cuts cover nothing below the first one's start. */
  lemma NotCoveredBelow(cuts: seq<Range>, y: nat)
    requires |cuts| > 0 && Chain(cuts) && y < cuts[0].start
    requires forall k | 0 <= k < |cuts| :: cuts[k].start <= cuts[k].end
    ensures !Covered(cuts, y)
  {
    forall k | 0 < k < |cuts|
      ensures cuts[0].end <= cuts[k].start
    {
    }
  }

  lemma ChainTail(cuts: seq<Range>)
    requires |cuts| > 0 && Chain(cuts)
    ensures Chain(cuts[1..])
  {
    var rest := cuts[1..];
    forall i, j | 0 <= i < j < |rest|
      ensures rest[i].end <= rest[j].start
    {
      assert rest[i] == cuts[i + 1] && rest[j] == cuts[j + 1];
    }
  }

  /**
   * For chained cuts that start at or after `last` and end with a cut
   * starting at or past `end` (the `u64::MAX` sentinel), the gaps hold
   * exactly the numbers of `[last, end)` that no cut covers.
   */
  lemma {:induction false} GapsPoints(cuts: seq<Range>, last: nat, end: nat, y: nat)
    requires |cuts| > 0 && Chain(cuts) && last <= cuts[0].start && cuts[|cuts| - 1].start >= end
    requires forall k | 0 <= k < |cuts| :: cuts[k].start <= cuts[k].end
    ensures InAny(Gaps(cuts, last, end), y) <==> last <= y < end && !Covered(cuts, y)
  {
    var c := cuts[0];
    if last >= end {
    } else if c.start >= end {
      var g := [Range(last, end)];
      assert Gaps(cuts, last, end) == g;
      assert InAny(g, y) <==> last <= y < end by {
        if last <= y < end {
          assert In(g[0], y);
        }
      }
      if y < end {
        NotCoveredBelow(cuts, y);
      }
    } else {
      var rest := cuts[1..];
      assert |rest| > 0 && rest[|rest| - 1] == cuts[|cuts| - 1];
      ChainTail(cuts);
      assert c.end <= rest[0].start;
      GapsPoints(rest, c.end, end, y);
      var first := if last < c.start then [Range(last, c.start)] else [];
      assert Gaps(cuts, last, end) == first + Gaps(rest, c.end, end);
      CoveredCons(cuts, y);
      InAnyAppend(first, Gaps(rest, c.end, end), y);
      assert InAny(first, y) <==> last <= y < c.start by {
        if last <= y < c.start {
          assert In(first[0], y);
        }
      }
      if y < c.start {
        NotCoveredBelow(rest, y);
      }
    }
  }

  // ---------------------------------------------------------------------
  // `apply_range`

  /** A range of `u64` bounds, as `apply_range` receives it. */
  predicate U64Range(x: Range)
  {
    x.start <= U64_MAX && x.end <= U64_MAX
  }

  function Overlap(x: Range, s: Range): Range
  {
    Range(Max(x.start, s.start), Min(x.end, s.end))
  }

  /**
   * The piece of entry `e` that `x` meets, as the first loop pushes it: the
   * overlap as source and its shifted image as destination; `None` when the
   * overlap is empty.
   */
  function Hit(e: Entry, x: Range): Option<Entry>
  {
    var o := Overlap(x, e.src);
    if o.start < o.end then
      var start := e.dest.start + (o.start - e.src.start);
      Some(Entry(Range(start, start + (o.end - o.start)), o))
    else None
  }

  /** The pieces of all entries, in the order of the map. */
  function Hits(m: seq<Entry>, x: Range): seq<Entry>
  {
    if m == [] then []
    else
      var h := Hit(m[|m| - 1], x);
      Hits(m[..|m| - 1], x) + (if h.Some? then [h.value] else [])
  }

  function Dests(h: seq<Entry>): (r: seq<Range>)
    ensures |r| == |h| && forall k | 0 <= k < |h| :: r[k] == h[k].dest
  {
    seq(|h|, k requires 0 <= k < |h| => h[k].dest)
  }

  function Srcs(h: seq<Entry>): (r: seq<Range>)
    ensures |r| == |h| && forall k | 0 <= k < |h| :: r[k] == h[k].src
  {
    seq(|h|, k requires 0 <= k < |h| => h[k].src)
  }

  /** One more entry adds its piece, if any, at the end of both lists. */
  lemma HitsSnoc(m: seq<Entry>, k: nat, x: Range)
    requires k < |m|
    ensures var h := Hit(m[k], x);
            var more := if h.Some? then [h.value] else [];
            Hits(m[..k + 1], x) == Hits(m[..k], x) + more
            && Dests(Hits(m[..k + 1], x)) == Dests(Hits(m[..k], x)) + Dests(more)
            && Srcs(Hits(m[..k + 1], x)) == Srcs(Hits(m[..k], x)) + Srcs(more)
  {
    assert m[..k + 1][..k] == m[..k];
  }

  /** One round of the second loop. */
  lemma GapsStep(cuts: seq<Range>, i: nat, last: nat, end: nat)
    requires i < |cuts| && last < end && cuts[i].start < end
    ensures Gaps(cuts[i..], last, end)
            == (if last < cuts[i].start then [Range(last, cuts[i].start)] else []) + Gaps(cuts[i + 1..], cuts[i].end, end)
  {
    assert cuts[i..][1..] == cuts[i + 1..];
  }

  /** The `u64::MAX..u64::MAX` cut that ends the second loop. */
  const SENTINEL: Range := Range(U64_MAX, U64_MAX)

  /** What `apply_range` returns: the images of the pieces, then the gaps between the sorted pieces. */
  function RangeImage(m: seq<Entry>, x: Range): seq<Range>
  {
    var h := Hits(m, x);
    Dests(h) + Gaps(SortByStart(Srcs(h)) + [SENTINEL], x.start, x.end)
  }

  /**
   * `Map::apply_range`: the first loop pushes every non-empty overlap's image
   * to `res` and the overlap to `cut_input`; the second walks the sorted cuts
   * and pushes the gaps.
   */
  method ApplyRange(m: seq<Entry>, x: Range) returns (res: seq<Range>)
    ensures res == RangeImage(m, x)
  {
    res := [];
    var cutInput: seq<Range> := [];
    for k := 0 to |m|
      invariant res == Dests(Hits(m[..k], x)) && cutInput == Srcs(Hits(m[..k], x))
    {
      var dest, src := m[k].dest, m[k].src;
      var left := Max(x.start, src.start);
      var right := Min(x.end, src.end);
      assert m[..k + 1][..k] == m[..k];
      if left < right {
        var offset := left - src.start;
        var length := right - left;
        var start := dest.start + offset;
        HitsSnoc(m, k, x);
        res := res + [Range(start, start + length)];
        cutInput := cutInput + [Range(left, right)];
      }
    }
    assert m[..|m|] == m;
    var gaps := FillGaps(SortByStart(cutInput) + [SENTINEL], x);
    res := res + gaps;
  }

  /** The second loop of `apply_range`, over the sorted cuts and the sentinel. */
  method FillGaps(cuts: seq<Range>, x: Range) returns (gaps: seq<Range>)
    ensures gaps == Gaps(cuts, x.start, x.end)
  {
    gaps := [];
    var lastX: nat := x.start;
    var i := 0;
    while i < |cuts|
      invariant 0 <= i <= |cuts|
      invariant gaps + Gaps(cuts[i..], lastX, x.end) == Gaps(cuts, x.start, x.end)
    {
      var cut := cuts[i];
      if lastX >= x.end {
        assert Gaps(cuts[i..], lastX, x.end) == [];
        break;
      }
      if cut.start >= x.end {
        assert Gaps(cuts[i..], lastX, x.end) == [Range(lastX, x.end)];
        gaps := gaps + [Range(lastX, x.end)];
        break;
      }
      GapsStep(cuts, i, lastX, x.end);
      if lastX < cut.start {
        gaps := gaps + [Range(lastX, cut.start)];
      }
      lastX := cut.end;
      i := i + 1;
    }
  }

  // ---------------------------------------------------------------------
  // What `apply_range` computes, number by number

  /** With disjoint sources, the entry containing `y` decides. */
  lemma ApplyDisjoint(m: seq<Entry>, k: nat, y: nat)
    requires Disjoint(m) && k < |m| && In(m[k].src, y)
    ensures Apply(m, y) == m[k].dest.start + (y - m[k].src.start)
  {
    ApplyFirstHit(m, k, y);
  }

  /** A piece's source is the overlap, and both its ranges are non-empty. */
  lemma HitInside(e: Entry, x: Range, y: nat)
    requires Hit(e, x).Some?
    ensures In(Hit(e, x).value.src, y) <==> In(x, y) && In(e.src, y)
    ensures NonEmpty(Hit(e, x).value.src) && NonEmpty(Hit(e, x).value.dest)
    ensures Hit(e, x).value.src.start >= x.start && Hit(e, x).value.src.end <= x.end
  {
  }

  /** A number of the overlap moves into the piece's destination, by the entry's offset. */
  lemma HitImage(e: Entry, x: Range, y: nat)
    requires Hit(e, x).Some? && In(Hit(e, x).value.src, y)
    ensures In(Hit(e, x).value.dest, e.dest.start + (y - e.src.start))
  {
  }

  /** Every number of a piece's destination is the image of a number of its source. */
  lemma HitPreimage(e: Entry, x: Range, z: nat)
    requires Hit(e, x).Some? && In(Hit(e, x).value.dest, z)
    ensures var h := Hit(e, x).value;
            var y := h.src.start + (z - h.dest.start);
            In(h.src, y) && e.dest.start + (y - e.src.start) == z
  {
  }

  /** Every piece comes from an entry of the map. */
  lemma {:induction false} HitsFrom(m: seq<Entry>, x: Range, i: nat)
    requires i < |Hits(m, x)|
    ensures exists k | 0 <= k < |m| :: Hit(m[k], x) == Some(Hits(m, x)[i])
  {
    var init := m[..|m| - 1];
    if i < |Hits(init, x)| {
      HitsFrom(init, x, i);
      var k :| 0 <= k < |init| && Hit(init[k], x) == Some(Hits(init, x)[i]);
      assert m[k] == init[k];
    } else {
      assert Hit(m[|m| - 1], x) == Some(Hits(m, x)[i]);
    }
  }

  /** Every entry that meets `x` has its piece. */
  lemma {:induction false} HitsHas(m: seq<Entry>, x: Range, k: nat)
    requires k < |m| && Hit(m[k], x).Some?
    ensures exists i | 0 <= i < |Hits(m, x)| :: Hits(m, x)[i] == Hit(m[k], x).value
  {
    var init := m[..|m| - 1];
    if k < |m| - 1 {
      HitsHas(init, x, k);
      assert init[k] == m[k];
      var i :| 0 <= i < |Hits(init, x)| && Hits(init, x)[i] == Hit(init[k], x).value;
      assert Hits(m, x)[i] == Hits(init, x)[i];
    } else {
      assert Hits(m, x)[|Hits(init, x)|] == Hit(m[k], x).value;
    }
  }

  /** Two non-empty ranges are apart or share the larger start. */
  lemma CommonPoint(a: Range, b: Range)
    requires NonEmpty(a) && NonEmpty(b)
    ensures Apart(a, b) || (In(a, Max(a.start, b.start)) && In(b, Max(a.start, b.start)))
  {
  }

  /** With disjoint sources, the pieces are non-empty and pairwise apart. */
  lemma {:induction false} HitsApart(m: seq<Entry>, x: Range)
    requires Disjoint(m)
    ensures forall i | 0 <= i < |Srcs(Hits(m, x))| :: NonEmpty(Srcs(Hits(m, x))[i])
    ensures forall i, j | 0 <= i < j < |Srcs(Hits(m, x))| :: Apart(Srcs(Hits(m, x))[i], Srcs(Hits(m, x))[j])
  {
    var c := Srcs(Hits(m, x));
    if m != [] {
      var init := m[..|m| - 1];
      assert Disjoint(init);
      HitsApart(init, x);
      var c0 := Srcs(Hits(init, x));
      forall i | 0 <= i < |c|
        ensures NonEmpty(c[i])
      {
        HitsFrom(m, x, i);
        var k :| 0 <= k < |m| && Hit(m[k], x) == Some(Hits(m, x)[i]);
        HitInside(m[k], x, 0);
      }
      forall i, j | 0 <= i < j < |c|
        ensures Apart(c[i], c[j])
      {
        if j < |c0| {
          assert c[i] == c0[i] && c[j] == c0[j];
        } else {
          var n := |m| - 1;
          HitsFrom(init, x, i);
          var k :| 0 <= k < |init| && Hit(init[k], x) == Some(Hits(init, x)[i]);
          assert init[k] == m[k];
          assert Hit(m[n], x) == Some(Hits(m, x)[j]);
          assert c[i] == Hits(init, x)[i].src;
          var p := Max(c[i].start, c[j].start);
          HitInside(m[k], x, p);
          HitInside(m[n], x, p);
          CommonPoint(c[i], c[j]);
          assert In(m[k].src, p) ==> !In(m[n].src, p);
        }
      }
    }
  }

  /** The cuts of `apply_range` cover exactly the numbers of `x` inside some source range. */
  lemma CutsCovered(m: seq<Entry>, x: Range, y: nat)
    ensures Covered(SortByStart(Srcs(Hits(m, x))) + [SENTINEL], y)
            <==> In(x, y) && exists k | 0 <= k < |m| :: In(m[k].src, y)
  {
    var c := Srcs(Hits(m, x));
    var cuts := SortByStart(c) + [SENTINEL];
    SortMembers(c);
    if Covered(cuts, y) {
      var i :| 0 <= i < |cuts| && In(cuts[i], y);
      assert i < |cuts| - 1;
      assert cuts[i] in c;
      var j :| 0 <= j < |c| && c[j] == cuts[i];
      HitsFrom(m, x, j);
      var k :| 0 <= k < |m| && Hit(m[k], x) == Some(Hits(m, x)[j]);
      HitInside(m[k], x, y);
    }
    if In(x, y) && exists k | 0 <= k < |m| :: In(m[k].src, y) {
      var k :| 0 <= k < |m| && In(m[k].src, y);
      assert In(Overlap(x, m[k].src), y);
      HitsHas(m, x, k);
      var j :| 0 <= j < |Hits(m, x)| && Hits(m, x)[j] == Hit(m[k], x).value;
      HitInside(m[k], x, y);
      assert c[j] in SortByStart(c);
      var i :| 0 <= i < |SortByStart(c)| && SortByStart(c)[i] == c[j];
      assert In(cuts[i], y);
    }
  }

  /** A chain stays a chain with a range after all its ends. */
  lemma ChainSnoc(s: seq<Range>, r: Range)
    requires Chain(s) && forall k | 0 <= k < |s| :: s[k].end <= r.start
    ensures Chain(s + [r])
  {
  }

  /** With disjoint sources, the sorted cuts and the sentinel meet what the gap walk needs. */
  lemma CutsChain(m: seq<Entry>, x: Range)
    requires Disjoint(m) && U64Range(x)
    ensures var cuts := SortByStart(Srcs(Hits(m, x))) + [SENTINEL];
            Chain(cuts) && x.start <= cuts[0].start && cuts[|cuts| - 1].start >= x.end
            && forall k | 0 <= k < |cuts| :: cuts[k].start <= cuts[k].end
  {
    var c := Srcs(Hits(m, x));
    var sorted := SortByStart(c);
    HitsApart(m, x);
    SortChain(c);
    SortMembers(c);
    forall k | 0 <= k < |sorted|
      ensures x.start <= sorted[k].start < sorted[k].end <= x.end
    {
      assert sorted[k] in c;
      var j :| 0 <= j < |c| && c[j] == sorted[k];
      HitsFrom(m, x, j);
      var e :| 0 <= e < |m| && Hit(m[e], x) == Some(Hits(m, x)[j]);
      HitInside(m[e], x, 0);
    }
    ChainSnoc(sorted, SENTINEL);
  }

  /** With disjoint sources, the image of every number of `x` is in the output of `apply_range`. */
  lemma RangeImageCovers(m: seq<Entry>, x: Range, y: nat)
    requires Disjoint(m) && U64Range(x) && In(x, y)
    ensures InAny(RangeImage(m, x), Apply(m, y))
  {
    var h := Hits(m, x);
    var cuts := SortByStart(Srcs(h)) + [SENTINEL];
    var gaps := Gaps(cuts, x.start, x.end);
    InAnyAppend(Dests(h), gaps, Apply(m, y));
    if exists k | 0 <= k < |m| :: In(m[k].src, y) {
      var k :| 0 <= k < |m| && In(m[k].src, y);
      assert In(Overlap(x, m[k].src), y);
      HitsHas(m, x, k);
      var i :| 0 <= i < |h| && h[i] == Hit(m[k], x).value;
      HitInside(m[k], x, y);
      HitImage(m[k], x, y);
      ApplyDisjoint(m, k, y);
      assert In(Dests(h)[i], Apply(m, y));
    } else {
      ApplyMiss(m, y);
      CutsCovered(m, x, y);
      CutsChain(m, x);
      GapsPoints(cuts, x.start, x.end, y);
    }
  }

  /** With disjoint sources, every number that `apply_range` outputs is the image of a number of `x`. */
  lemma RangeImageExact(m: seq<Entry>, x: Range, z: nat)
    requires Disjoint(m) && U64Range(x) && InAny(RangeImage(m, x), z)
    ensures exists y :: In(x, y) && Apply(m, y) == z
  {
    var h := Hits(m, x);
    var cuts := SortByStart(Srcs(h)) + [SENTINEL];
    var gaps := Gaps(cuts, x.start, x.end);
    InAnyAppend(Dests(h), gaps, z);
    if InAny(Dests(h), z) {
      var i :| 0 <= i < |h| && In(Dests(h)[i], z);
      HitsFrom(m, x, i);
      var k :| 0 <= k < |m| && Hit(m[k], x) == Some(h[i]);
      HitPreimage(m[k], x, z);
      var y := h[i].src.start + (z - h[i].dest.start);
      HitInside(m[k], x, y);
      ApplyDisjoint(m, k, y);
    } else {
      CutsChain(m, x);
      GapsPoints(cuts, x.start, x.end, z);
      CutsCovered(m, x, z);
      ApplyMiss(m, z);
    }
  }

  /** With well-formed entries, every output range of `apply_range` is non-empty and has `u64` bounds. */
  lemma RangeImageProper(m: seq<Entry>, x: Range)
    requires MapOk(m) && U64Range(x)
    ensures forall k | 0 <= k < |RangeImage(m, x)| :: NonEmpty(RangeImage(m, x)[k]) && U64Range(RangeImage(m, x)[k])
  {
    var h := Hits(m, x);
    var cuts := SortByStart(Srcs(h)) + [SENTINEL];
    var gaps := Gaps(cuts, x.start, x.end);
    GapsNonEmpty(cuts, x.start, x.end);
    forall i | 0 <= i < |h|
      ensures NonEmpty(h[i].dest) && U64Range(h[i].dest)
    {
      HitsFrom(m, x, i);
      var k :| 0 <= k < |m| && Hit(m[k], x) == Some(h[i]);
      HitInside(m[k], x, 0);
      assert EntryOk(m[k]);
    }
    assert RangeImage(m, x) == Dests(h) + gaps;
  }

  /** `Map::apply` as the source writes it: a scan that returns at the first source range containing `x`. */
  method MapApply(m: seq<Entry>, x: nat) returns (r: nat)
    ensures r == Apply(m, x)
  {
    for k := 0 to |m|
      invariant Apply(m, x) == Apply(m[k..], x)
    {
      assert m[k..][1..] == m[k + 1..];
      if In(m[k].src, x) {
        return m[k].dest.start + (x - m[k].src.start);
      }
    }
    r := x;
  }

  // ---------------------------------------------------------------------
  // The whole almanac

  /** A seed's location: the maps applied in order. */
  function ApplyAll(maps: seq<seq<Entry>>, y: nat): nat
  {
    if maps == [] then y else ApplyAll(maps[1..], Apply(maps[0], y))
  }

  /** Every range of `rs` through `apply_range`, the outputs flattened in order. */
  function Step(m: seq<Entry>, rs: seq<Range>): seq<Range>
  {
    if rs == [] then [] else Step(m, rs[..|rs| - 1]) + RangeImage(m, rs[|rs| - 1])
  }

  /** `part_b`'s fold: the seed ranges through every map in turn. */
  function Fold(maps: seq<seq<Entry>>, rs: seq<Range>): seq<Range>
  {
    if maps == [] then rs else Fold(maps[1..], Step(maps[0], rs))
  }

  predicate AllU64(rs: seq<Range>)
  {
    forall k | 0 <= k < |rs| :: U64Range(rs[k])
  }

  predicate AllNonEmpty(rs: seq<Range>)
  {
    forall k | 0 <= k < |rs| :: NonEmpty(rs[k])
  }

  /** Every map of the almanac has well-formed entries with disjoint sources. */
  ghost predicate AlmanacOk(maps: seq<seq<Entry>>)
  {
    forall i | 0 <= i < |maps| :: MapOk(maps[i]) && Disjoint(maps[i])
  }

  /** With well-formed entries, a step keeps every range non-empty and inside `u64`. */
  lemma {:induction false} StepProper(m: seq<Entry>, rs: seq<Range>)
    requires MapOk(m) && AllU64(rs)
    ensures AllU64(Step(m, rs)) && AllNonEmpty(Step(m, rs))
  {
    if rs != [] {
      StepProper(m, rs[..|rs| - 1]);
      RangeImageProper(m, rs[|rs| - 1]);
    }
  }

  /** With disjoint sources, a step outputs exactly the images of the numbers its input covers. */
  lemma {:induction false} StepPoints(m: seq<Entry>, rs: seq<Range>, z: nat)
    requires Disjoint(m) && AllU64(rs)
    ensures InAny(Step(m, rs), z) <==> exists y :: InAny(rs, y) && Apply(m, y) == z
  {
    if rs != [] {
      var init, x := rs[..|rs| - 1], rs[|rs| - 1];
      StepPoints(m, init, z);
      InAnyAppend(Step(m, init), RangeImage(m, x), z);
      if InAny(Step(m, rs), z) {
        if InAny(RangeImage(m, x), z) {
          RangeImageExact(m, x, z);
          var y :| In(x, y) && Apply(m, y) == z;
          InAnyAppend(init, [x], y);
          assert rs == init + [x];
        } else {
          var y :| InAny(init, y) && Apply(m, y) == z;
          InAnyAppend(init, [x], y);
          assert rs == init + [x];
        }
      }
      if exists y :: InAny(rs, y) && Apply(m, y) == z {
        var y :| InAny(rs, y) && Apply(m, y) == z;
        InAnyAppend(init, [x], y);
        assert rs == init + [x];
        if In(x, y) {
          RangeImageCovers(m, x, y);
        }
      }
    }
  }

  /** Through a well-formed almanac, the fold outputs exactly the locations of the numbers its input covers. */
  lemma {:induction false} FoldPoints(maps: seq<seq<Entry>>, rs: seq<Range>, z: nat)
    requires AlmanacOk(maps) && AllU64(rs)
    ensures InAny(Fold(maps, rs), z) <==> exists y :: InAny(rs, y) && ApplyAll(maps, y) == z
    decreases |maps|
  {
    if maps != [] {
      var m, rest := maps[0], maps[1..];
      var next := Step(m, rs);
      assert AlmanacOk(rest) by {
        assert forall i | 0 <= i < |rest| :: rest[i] == maps[i + 1];
      }
      assert MapOk(m) && Disjoint(m);
      StepProper(m, rs);
      FoldPoints(rest, next, z);
      if InAny(Fold(maps, rs), z) {
        var w :| InAny(next, w) && ApplyAll(rest, w) == z;
        StepPoints(m, rs, w);
        var y :| InAny(rs, y) && Apply(m, y) == w;
        assert ApplyAll(maps, y) == z;
      }
      if exists y :: InAny(rs, y) && ApplyAll(maps, y) == z {
        var y :| InAny(rs, y) && ApplyAll(maps, y) == z;
        StepPoints(m, rs, Apply(m, y));
      }
    }
  }

  /** With non-empty maps, the fold keeps every range non-empty and inside `u64`. */
  lemma {:induction false} FoldProper(maps: seq<seq<Entry>>, rs: seq<Range>)
    requires AlmanacOk(maps) && AllU64(rs) && |maps| > 0
    ensures AllU64(Fold(maps, rs)) && AllNonEmpty(Fold(maps, rs))
    decreases |maps|
  {
    var rest := maps[1..];
    assert AlmanacOk(rest) by {
      assert forall i | 0 <= i < |rest| :: rest[i] == maps[i + 1];
    }
    StepProper(maps[0], rs);
    if |rest| > 0 {
      FoldProper(rest, Step(maps[0], rs));
    }
  }

  /** `tuples()` over the seed numbers: `start..start + length` per pair, an odd last number dropped. */
  function SeedRanges(seeds: seq<nat>): (r: seq<Range>)
    ensures |r| == |seeds| / 2
    decreases |seeds|
  {
    if |seeds| < 2 then [] else [Range(seeds[0], seeds[0] + seeds[1])] + SeedRanges(seeds[2..])
  }

  /** The `k`-th pair of seed numbers describes a range holding `y`. */
  predicate PairHolds(seeds: seq<nat>, k: nat, y: nat)
  {
    2 * k + 1 < |seeds| && seeds[2 * k] <= y < seeds[2 * k] + seeds[2 * k + 1]
  }

  lemma PairShift(seeds: seq<nat>, k: nat, y: nat)
    requires |seeds| >= 2
    ensures PairHolds(seeds[2..], k, y) <==> PairHolds(seeds, k + 1, y)
  {
  }

  /** The seed ranges cover a number iff some pair's range holds it. */
  lemma {:induction false} SeedRangesPoints(seeds: seq<nat>, y: nat)
    ensures InAny(SeedRanges(seeds), y) <==> exists k: nat :: PairHolds(seeds, k, y)
    decreases |seeds|
  {
    if |seeds| >= 2 {
      var head, rest := Range(seeds[0], seeds[0] + seeds[1]), seeds[2..];
      SeedRangesPoints(rest, y);
      assert SeedRanges(seeds) == [head] + SeedRanges(rest);
      InAnyAppend([head], SeedRanges(rest), y);
      if InAny([head], y) {
        assert PairHolds(seeds, 0, y);
      } else if InAny(SeedRanges(rest), y) {
        var k: nat :| PairHolds(rest, k, y);
        PairShift(seeds, k, y);
      }
      if exists k: nat :: PairHolds(seeds, k, y) {
        var k: nat :| PairHolds(seeds, k, y);
        if k > 0 {
          PairShift(seeds, k - 1, y);
        } else {
          assert In([head][0], y);
        }
      }
    } else {
      assert forall k: nat :: !PairHolds(seeds, k, y);
    }
  }

  /** The least start of a non-empty list of ranges. */
  function MinStart(rs: seq<Range>): (r: nat)
    requires |rs| > 0
    ensures forall k | 0 <= k < |rs| :: r <= rs[k].start
    ensures exists k | 0 <= k < |rs| :: r == rs[k].start
  {
    if |rs| == 1 then rs[0].start
    else
      var rest := MinStart(rs[..|rs| - 1]);
      if rs[|rs| - 1].start < rest then rs[|rs| - 1].start else rest
  }

  /** `part_a`: the least location of the seeds; `min().unwrap()` panics without seeds (`None`). */
  method PartA(seeds: seq<nat>, maps: seq<seq<Entry>>) returns (closest: Option<nat>)
    ensures closest.Some? <==> |seeds| > 0
    ensures closest.Some? ==> (forall k | 0 <= k < |seeds| :: closest.value <= ApplyAll(maps, seeds[k]))
                              && exists k | 0 <= k < |seeds| :: closest.value == ApplyAll(maps, seeds[k])
  {
    closest := None;
    for i := 0 to |seeds|
      invariant closest.Some? <==> i > 0
      invariant closest.Some? ==> (forall k | 0 <= k < i :: closest.value <= ApplyAll(maps, seeds[k]))
                                  && exists k | 0 <= k < i :: closest.value == ApplyAll(maps, seeds[k])
    {
      var x: nat := seeds[i];
      for j := 0 to |maps|
        invariant ApplyAll(maps[j..], x) == ApplyAll(maps, seeds[i])
      {
        assert maps[j..][1..] == maps[j + 1..];
        x := MapApply(maps[j], x);
      }
      assert maps[|maps|..] == [];
      if closest == None || x < closest.value {
        closest := Some(x);
      }
    }
  }

  /** `part_b`: the seed ranges folded through the maps, then the least start; `None` where `unwrap` panics. */
  method PartB(seeds: seq<nat>, maps: seq<seq<Entry>>) returns (closest: Option<nat>)
    ensures var f := Fold(maps, SeedRanges(seeds));
            (closest.Some? <==> |f| > 0) && (closest.Some? ==> closest.value == MinStart(f))
  {
    var acc := SeedRanges(seeds);
    for j := 0 to |maps|
      invariant Fold(maps[j..], acc) == Fold(maps, SeedRanges(seeds))
    {
      assert maps[j..][1..] == maps[j + 1..];
      acc := ApplyRanges(maps[j], acc);
    }
    assert maps[|maps|..] == [];
    if |acc| == 0 {
      return None;
    }
    var least := LeastStart(acc);
    closest := Some(least);
  }

  /** `acc.iter().map(|x| map.apply_range(x)).flatten()`: one step of the fold. */
  method ApplyRanges(m: seq<Entry>, rs: seq<Range>) returns (next: seq<Range>)
    ensures next == Step(m, rs)
  {
    next := [];
    for i := 0 to |rs|
      invariant next == Step(m, rs[..i])
    {
      assert rs[..i + 1][..i] == rs[..i];
      var pieces := ApplyRange(m, rs[i]);
      next := next + pieces;
    }
    assert rs[..|rs|] == rs;
  }

  /** `.map(|x| x.start).min()` on a non-empty list. */
  method LeastStart(rs: seq<Range>) returns (least: nat)
    requires |rs| > 0
    ensures (forall k | 0 <= k < |rs| :: least <= rs[k].start) && exists k | 0 <= k < |rs| :: least == rs[k].start
  {
    least := rs[0].start;
    for i := 1 to |rs|
      invariant least == MinStart(rs[..i])
    {
      assert rs[..i + 1][..i] == rs[..i];
      if rs[i].start < least {
        least := rs[i].start;
      }
    }
    assert rs[..|rs|] == rs;
  }

  /**
   * The point of part b: for a well-formed almanac and seed ranges inside
   * `u64`, the least start after the fold is the least location of any seed
   * number the pairs describe.
   */
  lemma LowestLocation(seeds: seq<nat>, maps: seq<seq<Entry>>)
    requires AlmanacOk(maps) && |maps| > 0 && AllU64(SeedRanges(seeds))
    requires |Fold(maps, SeedRanges(seeds))| > 0
    ensures var low := MinStart(Fold(maps, SeedRanges(seeds)));
            (exists y :: InAny(SeedRanges(seeds), y) && ApplyAll(maps, y) == low)
            && forall y | InAny(SeedRanges(seeds), y) :: low <= ApplyAll(maps, y)
  {
    var rs := SeedRanges(seeds);
    var f := Fold(maps, rs);
    var low := MinStart(f);
    FoldProper(maps, rs);
    var k :| 0 <= k < |f| && low == f[k].start;
    assert In(f[k], low);
    FoldPoints(maps, rs, low);
    forall y | InAny(rs, y)
      ensures low <= ApplyAll(maps, y)
    {
      FoldPoints(maps, rs, ApplyAll(maps, y));
    }
  }
}
