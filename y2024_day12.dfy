/**
 * Year 2024, day 12: a garden of plots, each growing one plant.  A region is a
 * set of same-plant plots joined by orthogonal steps.  The regions are found by
 * labelling every plot with an id and lowering ids across same-plant neighbours
 * until nothing changes; this module holds the garden, its regions and the
 * labellings.
 */
module Y2024Day12Garden {
  /** `u32::MAX`: the label of the padding around the garden. */
  const U32_MAX: nat := 0xFFFF_FFFF

  /** The garden, one row of plants per line; plots are (row, column) pairs. */
  type Garden = seq<seq<char>>

  /** A rectangular garden with at least one row, whose ids fit `u32`. */
  predicate Plots(g: Garden)
  {
    |g| > 0 && (forall x | 0 <= x < |g| :: |g[x]| == |g[0]|) && |g| * |g[0]| <= U32_MAX
  }

  predicate InGarden(g: Garden, c: (int, int))
  {
    0 <= c.0 < |g| && 0 <= c.1 < |g[c.0]|
  }

  predicate Adjacent(c: (int, int), d: (int, int))
  {
    (c.0 == d.0 && (c.1 == d.1 + 1 || d.1 == c.1 + 1)) || (c.1 == d.1 && (c.0 == d.0 + 1 || d.0 == c.0 + 1))
  }

  /** Two orthogonally adjacent plots growing the same plant. */
  predicate Linked(g: Garden, c: (int, int), d: (int, int))
  {
    InGarden(g, c) && InGarden(g, d) && Adjacent(c, d) && g[c.0][c.1] == g[d.0][d.1]
  }

  /** A sequence of plots, each linked to the next. */
  ghost predicate Path(g: Garden, p: seq<(int, int)>)
  {
    |p| > 0 && InGarden(g, p[0]) && forall i | 0 <= i < |p| - 1 :: Linked(g, p[i], p[i + 1])
  }

  /** `c` and `d` lie in the same region. */
  ghost predicate Region(g: Garden, c: (int, int), d: (int, int))
  {
    exists p | Path(g, p) :: p[0] == c && p[|p| - 1] == d
  }

  lemma RegionRefl(g: Garden, c: (int, int))
    requires InGarden(g, c)
    ensures Region(g, c, c)
  {
    assert Path(g, [c]);
  }

  /** A region extends over a link at its end. */
  lemma RegionStep(g: Garden, c: (int, int), d: (int, int), e: (int, int))
    requires Region(g, c, d) && Linked(g, d, e)
    ensures Region(g, c, e)
  {
    var p :| Path(g, p) && p[0] == c && p[|p| - 1] == d;
    var q := p + [e];
    assert Path(g, q) by {
      forall i | 0 <= i < |q| - 1
        ensures Linked(g, q[i], q[i + 1])
      {
        if i < |p| - 1 {
          assert q[i] == p[i] && q[i + 1] == p[i + 1];
        }
      }
    }
    assert q[0] == c && q[|q| - 1] == e;
  }

  /** A region extends over a link at its start. */
  lemma RegionPrepend(g: Garden, e: (int, int), c: (int, int), d: (int, int))
    requires Linked(g, e, c) && Region(g, c, d)
    ensures Region(g, e, d)
  {
    var p :| Path(g, p) && p[0] == c && p[|p| - 1] == d;
    var q := [e] + p;
    assert Path(g, q) by {
      forall i | 0 <= i < |q| - 1
        ensures Linked(g, q[i], q[i + 1])
      {
        if i > 0 {
          assert q[i] == p[i - 1] && q[i + 1] == p[i];
        }
      }
    }
    assert q[0] == e && q[|q| - 1] == d;
  }

  lemma {:induction false} PathBack(g: Garden, p: seq<(int, int)>)
    requires Path(g, p)
    ensures Region(g, p[|p| - 1], p[0])
    decreases |p|
  {
    if |p| == 1 {
      RegionRefl(g, p[0]);
    } else {
      var q := p[..|p| - 1];
      assert Path(g, q) by {
        forall i | 0 <= i < |q| - 1
          ensures Linked(g, q[i], q[i + 1])
        {
          assert q[i] == p[i] && q[i + 1] == p[i + 1];
        }
      }
      PathBack(g, q);
      assert Linked(g, p[|p| - 2], p[|p| - 1]);
      RegionPrepend(g, p[|p| - 1], p[|p| - 2], p[0]);
    }
  }

  /** Regions are symmetric. */
  lemma RegionSym(g: Garden, c: (int, int), d: (int, int))
    requires Region(g, c, d)
    ensures Region(g, d, c)
  {
    var p :| Path(g, p) && p[0] == c && p[|p| - 1] == d;
    PathBack(g, p);
  }

  lemma {:induction false} PathOn(g: Garden, c: (int, int), p: seq<(int, int)>)
    requires Path(g, p) && Region(g, c, p[0])
    ensures Region(g, c, p[|p| - 1])
    decreases |p|
  {
    if |p| > 1 {
      var q := p[..|p| - 1];
      assert Path(g, q) by {
        forall i | 0 <= i < |q| - 1
          ensures Linked(g, q[i], q[i + 1])
        {
          assert q[i] == p[i] && q[i + 1] == p[i + 1];
        }
      }
      PathOn(g, c, q);
      assert Linked(g, p[|p| - 2], p[|p| - 1]);
      RegionStep(g, c, p[|p| - 2], p[|p| - 1]);
    }
  }

  /** Regions are transitive. */
  lemma RegionTrans(g: Garden, c: (int, int), d: (int, int), e: (int, int))
    requires Region(g, c, d) && Region(g, d, e)
    ensures Region(g, c, e)
  {
    var p :| Path(g, p) && p[0] == d && p[|p| - 1] == e;
    PathOn(g, c, p);
  }
}

/**
 * Year 2024, day 12: labellings of the garden.  Every plot carries an id; the
 * ids start distinct and are lowered across same-plant neighbours until no plot
 * can be lowered, at which point they name the regions.
 */
module Y2024Day12Regions {
  import opened Y2024Day12Garden

  // ---------------------------------------------------------------------------
  // Labels

  /** The labels: the garden padded with a one-cell border, plot (x, y) at
      (x + 1, y + 1). */
  type Labels = seq<seq<nat>>

  predicate Framed(g: Garden, cc: Labels)
  {
    Plots(g) && |cc| == |g| + 2 && forall i | 0 <= i < |cc| :: |cc[i]| == |g[0]| + 2
  }

  function Id(g: Garden, cc: Labels, c: (int, int)): nat
    requires Framed(g, cc) && InGarden(g, c)
  {
    cc[c.0 + 1][c.1 + 1]
  }

  predicate OnBorder(cc: Labels, i: int, j: int)
    requires 0 <= i < |cc|
  {
    i == 0 || i == |cc| - 1 || j == 0 || j == |cc[i]| - 1
  }

  /** The padding holds `u32::MAX`. */
  predicate Border(cc: Labels)
  {
    forall i, j | 0 <= i < |cc| && 0 <= j < |cc[i]| && OnBorder(cc, i, j) :: cc[i][j] == U32_MAX
  }

  /** The starting id of plot `c` in a garden `w` plots wide: its row-major index. */
  function InitId(w: nat, c: (int, int)): int
  {
    c.0 * w + c.1
  }

  function RowMajor(x: nat, y: nat, w: nat): nat
  {
    x * w + y
  }

  /** The starting id as the source computes it: rows step by the number of rows. */
  function InitIdAsWritten(rows: nat, c: (int, int)): int
  {
    c.0 * rows + c.1
  }

  /** With rows stepping by the row count, a garden two rows high and three plots
      wide gives plots (0, 2) and (1, 0) the same id, and a garden three rows high
      and one plot wide gives plot (2, 0) the id 6, outside the ids 0..3 the price
      loop visits. */
  lemma AsWrittenIdsClash()
    ensures InGarden([['A', 'B', 'C'], ['D', 'E', 'F']], (0, 2)) && InGarden([['A', 'B', 'C'], ['D', 'E', 'F']], (1, 0))
    ensures InitIdAsWritten(2, (0, 2)) == InitIdAsWritten(2, (1, 0))
    ensures InGarden([['A'], ['B'], ['C']], (2, 0)) && InitIdAsWritten(3, (2, 0)) >= 3 * 1
  {
  }

  /** On a square garden, the only shape where rows step by the row width anyway,
      the ids as written are the row-major ids. */
  lemma AsWrittenSquare(g: Garden, c: (int, int))
    requires Plots(g) && |g| == |g[0]|
    ensures InitIdAsWritten(|g|, c) == InitId(|g[0]|, c)
  {
  }

  /** Row-major ids are distinct across the garden and below its plot count. */
  lemma InitIdUnique(g: Garden, c: (int, int), d: (int, int))
    requires Plots(g) && InGarden(g, c) && InGarden(g, d)
    ensures 0 <= InitId(|g[0]|, c) < |g| * |g[0]|
    ensures InitId(|g[0]|, c) == InitId(|g[0]|, d) ==> c == d
  {
    var w := |g[0]|;
    RowBelow(c.0, c.1, w, |g|);
    if c.0 < d.0 {
      RowBelow(c.0, c.1, w, d.0);
    } else if d.0 < c.0 {
      RowBelow(d.0, d.1, w, c.0);
    }
  }

  /** A plot's row-major index is below the first index of any later row. */
  lemma RowBelow(x: nat, y: nat, w: nat, x': nat)
    requires y < w && x < x'
    ensures x * w + y < x' * w
  {
    MulMonoLe(x + 1, x', w);
    assert (x + 1) * w == x * w + w;
  }

  lemma MulMonoLe(a: int, b: int, w: nat)
    requires a <= b
    ensures a * w <= b * w
  {
  }

  /** The labels before the first pass: the padding and each plot's row-major id. */
  function Initial(g: Garden): (cc: Labels)
    requires Plots(g)
    ensures Framed(g, cc) && Border(cc)
    ensures forall c | InGarden(g, c) :: Id(g, cc, c) == InitId(|g[0]|, c)
  {
    seq(|g| + 2, i requires 0 <= i < |g| + 2 => InitialRow(i, |g|, |g[0]|))
  }

  /** Row `i` of the initial labels of a garden of `rows` rows, `w` plots wide. */
  function InitialRow(i: nat, rows: nat, w: nat): (r: seq<nat>)
    requires i < rows + 2
    ensures |r| == w + 2 && r[0] == U32_MAX && r[w + 1] == U32_MAX
    ensures i == 0 || i == rows + 1 ==> forall j | 0 <= j < w + 2 :: r[j] == U32_MAX
    ensures 0 < i <= rows ==> forall j | 1 <= j <= w :: r[j] == RowMajor(i - 1, j - 1, w)
  {
    seq(w + 2, j requires 0 <= j < w + 2 =>
      if i == 0 || i == rows + 1 || j == 0 || j == w + 1 then U32_MAX
      else RowMajor(i - 1, j - 1, w))
  }

  /** The label of `c` is the starting id of a plot in its region. */
  ghost predicate Rooted(g: Garden, cc: Labels, c: (int, int))
    requires Framed(g, cc) && InGarden(g, c)
  {
    exists o | InGarden(g, o) && Region(g, o, c) :: Id(g, cc, c) == InitId(|g[0]|, o)
  }

  /** Every plot's label is the starting id of a plot in its region. */
  ghost predicate Sound(g: Garden, cc: Labels)
  {
    Framed(g, cc) && Border(cc) && forall c {:trigger Rooted(g, cc, c)} | InGarden(g, c) :: Rooted(g, cc, c)
  }

  lemma InitialSound(g: Garden)
    requires Plots(g)
    ensures Sound(g, Initial(g))
  {
    forall c | InGarden(g, c)
      ensures Rooted(g, Initial(g), c)
    {
      RegionRefl(g, c);
    }
  }

  /** No same-plant neighbour of `c` has a smaller label. */
  ghost predicate Settled(g: Garden, cc: Labels, c: (int, int))
    requires Framed(g, cc) && InGarden(g, c)
  {
    forall d | Linked(g, c, d) :: Id(g, cc, c) <= Id(g, cc, d)
  }

  /** The first `k` plots of row `x` are settled. */
  ghost predicate RowSettled(g: Garden, cc: Labels, x: int, k: int)
    requires Framed(g, cc) && 0 <= x < |g|
  {
    forall y | 0 <= y < k && y < |g[0]| :: Settled(g, cc, (x, y))
  }

  /** The first `k` rows are settled. */
  ghost predicate RowsSettled(g: Garden, cc: Labels, k: int)
    requires Framed(g, cc)
  {
    forall x | 0 <= x < k && x < |g| :: RowSettled(g, cc, x, |g[0]|)
  }

  /** No plot can take a smaller label from a neighbour. */
  ghost predicate Fixpoint(g: Garden, cc: Labels)
    requires Framed(g, cc)
  {
    RowsSettled(g, cc, |g|)
  }

  lemma FixpointSettled(g: Garden, cc: Labels, c: (int, int))
    requires Framed(g, cc) && Fixpoint(g, cc) && InGarden(g, c)
    ensures Settled(g, cc, c)
  {
    assert RowSettled(g, cc, c.0, |g[0]|);
  }

  /** At a fixpoint the labels are constant along every path. */
  lemma {:induction false} FixpointAlong(g: Garden, cc: Labels, p: seq<(int, int)>)
    requires Framed(g, cc) && Fixpoint(g, cc) && Path(g, p)
    ensures InGarden(g, p[|p| - 1]) && Id(g, cc, p[0]) == Id(g, cc, p[|p| - 1])
    decreases |p|
  {
    if |p| > 1 {
      var q := p[..|p| - 1];
      assert Path(g, q) by {
        forall i | 0 <= i < |q| - 1
          ensures Linked(g, q[i], q[i + 1])
        {
          assert q[i] == p[i] && q[i + 1] == p[i + 1];
        }
      }
      FixpointAlong(g, cc, q);
      var a, b := p[|p| - 2], p[|p| - 1];
      assert Linked(g, a, b) && Linked(g, b, a);
      FixpointSettled(g, cc, a);
      FixpointSettled(g, cc, b);
    }
  }

  /** Plots with the same sound label lie in the same region, and a sound label is
      below the number of plots. */
  lemma SameLabelSameRegion(g: Garden, cc: Labels, c: (int, int), d: (int, int))
    requires Sound(g, cc) && InGarden(g, c) && InGarden(g, d)
    ensures Id(g, cc, c) < |g| * |g[0]|
    ensures Id(g, cc, c) == Id(g, cc, d) ==> Region(g, c, d)
  {
    assert Rooted(g, cc, c) && Rooted(g, cc, d);
    var o :| InGarden(g, o) && Region(g, o, c) && Id(g, cc, c) == InitId(|g[0]|, o);
    var o' :| InGarden(g, o') && Region(g, o', d) && Id(g, cc, d) == InitId(|g[0]|, o');
    InitIdUnique(g, o, o');
    if Id(g, cc, c) == Id(g, cc, d) {
      RegionSym(g, o, c);
      RegionTrans(g, c, o, d);
    }
  }

  /** At a fixpoint plots of one region carry the same label. */
  lemma SameRegionSameLabel(g: Garden, cc: Labels, c: (int, int), d: (int, int))
    requires Framed(g, cc) && Fixpoint(g, cc) && InGarden(g, c) && InGarden(g, d) && Region(g, c, d)
    ensures Id(g, cc, c) == Id(g, cc, d)
  {
    var p :| Path(g, p) && p[0] == c && p[|p| - 1] == d;
    FixpointAlong(g, cc, p);
  }

  /** The label `c` gets when lowered to `v`. */
  function Relabel(g: Garden, cc: Labels, c: (int, int), v: nat): (r: Labels)
    requires Framed(g, cc) && InGarden(g, c)
    ensures Framed(g, r) && Id(g, r, c) == v
    ensures forall d | InGarden(g, d) && d != c :: Id(g, r, d) == Id(g, cc, d)
    ensures Border(cc) ==> Border(r)
  {
    var row: seq<nat> := cc[c.0 + 1][c.1 + 1 := v];
    cc[c.0 + 1 := row]
  }

  /** Taking the label of a same-plant neighbour keeps the labels sound. */
  lemma RelabelSound(g: Garden, cc: Labels, c: (int, int), d: (int, int))
    requires Sound(g, cc) && Linked(g, d, c)
    ensures Sound(g, Relabel(g, cc, c, Id(g, cc, d)))
  {
    var r := Relabel(g, cc, c, Id(g, cc, d));
    assert Rooted(g, cc, d);
    var o :| InGarden(g, o) && Region(g, o, d) && Id(g, cc, d) == InitId(|g[0]|, o);
    RegionStep(g, o, d, c);
    assert Rooted(g, r, c);
    forall e | InGarden(g, e)
      ensures Rooted(g, r, e)
    {
      if e != c {
        assert Rooted(g, cc, e);
        assert Id(g, r, e) == Id(g, cc, e);
      }
    }
  }

  // ---------------------------------------------------------------------------
  // Termination

  /** The pairs (cell, value) with value below the cell's label; lowering a label
      removes pairs and adds none. */
  ghost function Potential(cc: Labels): set<(int, int, int)>
  {
    set i, j, v | 0 <= i < |cc| && 0 <= j < |cc[i]| && 0 <= v < cc[i][j] :: (i, j, v)
  }

  lemma PotentialIff(cc: Labels)
    ensures forall e: (int, int, int) :: e in Potential(cc) <==> 0 <= e.0 < |cc| && 0 <= e.1 < |cc[e.0]| && 0 <= e.2 < cc[e.0][e.1]
  {
  }

  /** Lowering one label shrinks the potential. */
  lemma RelabelShrinks(g: Garden, cc: Labels, c: (int, int), v: nat)
    requires Framed(g, cc) && InGarden(g, c) && v < Id(g, cc, c)
    ensures Potential(Relabel(g, cc, c, v)) < Potential(cc)
  {
    var r := Relabel(g, cc, c, v);
    PotentialIff(cc);
    PotentialIff(r);
    assert (c.0 + 1, c.1 + 1, v) in Potential(cc) - Potential(r);
  }

  lemma ProperSubsetCard<T>(A: set<T>, B: set<T>)
    requires A < B
    ensures |A| < |B|
  {
    assert B == A + (B - A);
    assert B - A != {};
  }
}

/**
 * Year 2024, day 12: `get_components`, the fixpoint loop over the labels.
 */
module Y2024Day12Components {
  import opened Y2024Day12Garden
  import opened Y2024Day12Regions

  /** One plot's update: the first same-plant neighbour, in the order up, left,
      right, down, whose label is smaller gives the plot its label.  The labels stay
      sound; a change shrinks the potential, and no change means the plot is
      settled. */
  method RelaxPlot(g: Garden, cc: Labels, c: (int, int)) returns (cc': Labels, lowered: bool)
    requires Sound(g, cc) && InGarden(g, c)
    ensures Sound(g, cc')
    ensures lowered ==> Potential(cc') < Potential(cc)
    ensures lowered ==> exists d | Linked(g, c, d) && Id(g, cc, d) < Id(g, cc, c) :: cc' == Relabel(g, cc, c, Id(g, cc, d))
    ensures !lowered ==> cc' == cc && Settled(g, cc, c)
  {
    var (x, y) := c;
    var d: (int, int);
    if x > 0 && g[x - 1][y] == g[x][y] && cc[x][y + 1] < cc[x + 1][y + 1] {
      d := (x - 1, y);
    } else if y > 0 && g[x][y - 1] == g[x][y] && cc[x + 1][y] < cc[x + 1][y + 1] {
      d := (x, y - 1);
    } else if y < |g[0]| - 1 && g[x][y + 1] == g[x][y] && cc[x + 1][y + 2] < cc[x + 1][y + 1] {
      d := (x, y + 1);
    } else if x < |g| - 1 && g[x + 1][y] == g[x][y] && cc[x + 2][y + 1] < cc[x + 1][y + 1] {
      d := (x + 1, y);
    } else {
      return cc, false;
    }
    assert Linked(g, c, d) && Linked(g, d, c) && Id(g, cc, d) < Id(g, cc, c);
    cc' := Relabel(g, cc, c, Id(g, cc, d));
    lowered := true;
    RelabelSound(g, cc, c, d);
    RelabelShrinks(g, cc, c, Id(g, cc, d));
  }

  /** The plots of row `x`, left to right. */
  method RelaxRow(g: Garden, cc: Labels, x: nat) returns (cc': Labels, changed: bool)
    requires Sound(g, cc) && x < |g|
    ensures Sound(g, cc')
    ensures Potential(cc') <= Potential(cc)
    ensures changed ==> Potential(cc') < Potential(cc)
    ensures !changed ==> cc' == cc && RowSettled(g, cc, x, |g[0]|)
  {
    cc', changed := cc, false;
    for y := 0 to |g[0]|
      invariant Sound(g, cc')
      invariant Potential(cc') <= Potential(cc)
      invariant changed ==> Potential(cc') < Potential(cc)
      invariant !changed ==> cc' == cc && RowSettled(g, cc, x, y)
    {
      var lowered;
      cc', lowered := RelaxPlot(g, cc', (x, y));
      changed := changed || lowered;
    }
  }

  /** One pass over every row, top to bottom; a pass that changes nothing leaves a
      fixpoint. */
  method Pass(g: Garden, cc: Labels) returns (cc': Labels, changed: bool)
    requires Sound(g, cc)
    ensures Sound(g, cc')
    ensures changed ==> Potential(cc') < Potential(cc)
    ensures !changed ==> cc' == cc && Fixpoint(g, cc)
  {
    cc', changed := cc, false;
    for x := 0 to |g|
      invariant Sound(g, cc')
      invariant Potential(cc') <= Potential(cc)
      invariant changed ==> Potential(cc') < Potential(cc)
      invariant !changed ==> cc' == cc && RowsSettled(g, cc, x)
    {
      var c;
      cc', c := RelaxRow(g, cc', x);
      changed := changed || c;
    }
  }

  /** `get_components`: the padded labels after passes until one changes nothing.
      Two plots carry the same label exactly when they lie in the same region, each
      label is below the number of plots, and the padding holds `u32::MAX`. */
  method Components(g: Garden) returns (cc: Labels)
    requires Plots(g)
    ensures Framed(g, cc) && Border(cc)
    ensures forall c | InGarden(g, c) :: Id(g, cc, c) < |g| * |g[0]|
    ensures forall c, d | InGarden(g, c) && InGarden(g, d) :: Id(g, cc, c) == Id(g, cc, d) <==> Region(g, c, d)
  {
    cc := Initial(g);
    InitialSound(g);
    var changed := true;
    while changed
      invariant Sound(g, cc)
      invariant !changed ==> Fixpoint(g, cc)
      decreases |Potential(cc)| + (if changed then 1 else 0)
    {
      ghost var P := Potential(cc);
      cc, changed := Pass(g, cc);
      if changed {
        ProperSubsetCard(Potential(cc), P);
      }
    }
    forall c, d | InGarden(g, c) && InGarden(g, d)
      ensures Id(g, cc, c) < |g| * |g[0]|
      ensures Id(g, cc, c) == Id(g, cc, d) <==> Region(g, c, d)
    {
      SameLabelSameRegion(g, cc, c, d);
      if Region(g, c, d) {
        SameRegionSameLabel(g, cc, c, d);
      }
    }
  }
}

/**
 * Year 2024, day 12: what the fence counters count.  A label grid is any
 * rectangle of ids; the region of id `t` is fenced wherever one of its cells
 * meets a cell of another id, and the bulk discount counts straight runs of
 * such fence as one side.
 */
module Y2024Day12Fences {
  // ---------------------------------------------------------------------------
  // Double sums

  /** f(x, 0) + … + f(x, m - 1). */
  function RowSum(f: (int, int) -> nat, x: int, m: nat): nat
  {
    if m == 0 then 0 else RowSum(f, x, m - 1) + f(x, m - 1)
  }

  /** The sum of f over [0, n) × [0, m), row by row. */
  function Sum2(f: (int, int) -> nat, n: nat, m: nat): nat
  {
    if n == 0 then 0 else Sum2(f, n - 1, m) + RowSum(f, n - 1, m)
  }

  lemma {:induction false} RowSumLe(f: (int, int) -> nat, g: (int, int) -> nat, x: int, m: nat)
    requires forall y | 0 <= y < m :: f(x, y) <= g(x, y)
    ensures RowSum(f, x, m) <= RowSum(g, x, m)
  {
    if m > 0 {
      RowSumLe(f, g, x, m - 1);
    }
  }

  /** Sums are monotone in the summand. */
  lemma {:induction false} Sum2Le(f: (int, int) -> nat, g: (int, int) -> nat, n: nat, m: nat)
    requires forall x, y | 0 <= x < n && 0 <= y < m :: f(x, y) <= g(x, y)
    ensures Sum2(f, n, m) <= Sum2(g, n, m)
  {
    if n > 0 {
      Sum2Le(f, g, n - 1, m);
      RowSumLe(f, g, n - 1, m);
    }
  }

  lemma {:induction false} RowSumAdd(f: (int, int) -> nat, g: (int, int) -> nat, h: (int, int) -> nat, x: int, m: nat)
    requires forall y | 0 <= y < m :: h(x, y) == f(x, y) + g(x, y)
    ensures RowSum(h, x, m) == RowSum(f, x, m) + RowSum(g, x, m)
  {
    if m > 0 {
      RowSumAdd(f, g, h, x, m - 1);
    }
  }

  /** `h` is the pointwise sum of `f` and `g` on [0, n) × [0, m). */
  predicate PointwiseSum(f: (int, int) -> nat, g: (int, int) -> nat, h: (int, int) -> nat, n: nat, m: nat)
  {
    forall x, y | 0 <= x < n && 0 <= y < m :: h(x, y) == f(x, y) + g(x, y)
  }

  lemma {:induction false} Sum2Add(f: (int, int) -> nat, g: (int, int) -> nat, h: (int, int) -> nat, n: nat, m: nat)
    requires PointwiseSum(f, g, h, n, m)
    ensures Sum2(h, n, m) == Sum2(f, n, m) + Sum2(g, n, m)
  {
    if n > 0 {
      Sum2Add(f, g, h, n - 1, m);
      RowSumAdd(f, g, h, n - 1, m);
    }
  }

  lemma {:induction false} RowSumZero(f: (int, int) -> nat, x: int, m: nat)
    requires forall y | 0 <= y < m :: f(x, y) == 0
    ensures RowSum(f, x, m) == 0
  {
    if m > 0 {
      RowSumZero(f, x, m - 1);
    }
  }

  lemma {:induction false} RowSumShift(f: (int, int) -> nat, g: (int, int) -> nat, x: int, x': int, m: nat)
    requires forall y | 0 <= y < m :: g(x, y) == f(x', y)
    ensures RowSum(g, x, m) == RowSum(f, x', m)
  {
    if m > 0 {
      RowSumShift(f, g, x, x', m - 1);
    }
  }

  /** Dropping a first row of zeros: the sum of g(x, y) = f(x + 1, y) over n - 1
      rows is the sum of f over n rows. */
  lemma {:induction false} Sum2Shift(f: (int, int) -> nat, g: (int, int) -> nat, n: nat, m: nat)
    requires n > 0
    requires forall y | 0 <= y < m :: f(0, y) == 0
    requires forall x, y | 0 <= x < n - 1 && 0 <= y < m :: g(x, y) == f(x + 1, y)
    ensures Sum2(g, n - 1, m) == Sum2(f, n, m)
  {
    if n == 1 {
      RowSumZero(f, 0, m);
    } else {
      Sum2Shift(f, g, n - 1, m);
      RowSumShift(f, g, n - 2, n - 1, m);
    }
  }

  /** The sum of column `y` over the first `n` rows. */
  function ColSum(f: (int, int) -> nat, y: int, n: nat): nat
  {
    if n == 0 then 0 else ColSum(f, y, n - 1) + f(n - 1, y)
  }

  lemma {:induction false} Sum2LastCol(f: (int, int) -> nat, n: nat, m: nat)
    requires m > 0
    ensures Sum2(f, n, m) == Sum2(f, n, m - 1) + ColSum(f, m - 1, n)
  {
    if n > 0 {
      Sum2LastCol(f, n - 1, m);
    }
  }

  lemma {:induction false} ColRow(f: (int, int) -> nat, g: (int, int) -> nat, y: int, n: nat)
    requires forall x | 0 <= x < n :: g(y, x) == f(x, y)
    ensures ColSum(f, y, n) == RowSum(g, y, n)
  {
    if n > 0 {
      ColRow(f, g, y, n - 1);
    }
  }

  lemma {:induction false} Sum2NoColumns(f: (int, int) -> nat, n: nat)
    ensures Sum2(f, n, 0) == 0
  {
    if n > 0 {
      Sum2NoColumns(f, n - 1);
    }
  }

  /** Summing the transposed summand over the transposed rectangle gives the
      same total. */
  lemma {:induction false} Sum2Swap(f: (int, int) -> nat, g: (int, int) -> nat, n: nat, m: nat)
    requires forall x, y | 0 <= x < n && 0 <= y < m :: g(y, x) == f(x, y)
    ensures Sum2(g, m, n) == Sum2(f, n, m)
  {
    if m > 0 {
      Sum2Swap(f, g, n, m - 1);
      Sum2LastCol(f, n, m);
      ColRow(f, g, m - 1, n);
      assert Sum2(g, m, n) == Sum2(g, m - 1, n) + RowSum(g, m - 1, n);
    } else {
      Sum2NoColumns(f, n);
    }
  }

  // ---------------------------------------------------------------------------
  // Label grids

  type Labels = seq<seq<nat>>

  function Width(cc: Labels): nat
  {
    if |cc| == 0 then 0 else |cc[0]|
  }

  predicate Rect(cc: Labels)
  {
    forall x | 0 <= x < |cc| :: |cc[x]| == Width(cc)
  }

  predicate InGrid(cc: Labels, x: int, y: int)
  {
    0 <= x < |cc| && 0 <= y < |cc[x]|
  }

  /** No cell of id `t` lies on the outer rows or columns, so every one has four
      neighbours. */
  predicate Clear(cc: Labels, t: nat)
  {
    Rect(cc) && forall x, y | 0 <= x < |cc| && 0 <= y < |cc[x]| && cc[x][y] == t :: 0 < x < |cc| - 1 && 0 < y < Width(cc) - 1
  }

  function Indicator(b: bool): nat
  {
    if b then 1 else 0
  }

  /** A cell of id `t` whose upper neighbour has another id. */
  function Up(cc: Labels, t: nat, x: int, y: int): nat
  {
    Indicator(0 < x < |cc| && 0 <= y < |cc[x]| && y < |cc[x - 1]| && cc[x][y] == t && cc[x - 1][y] != t)
  }

  function Down(cc: Labels, t: nat, x: int, y: int): nat
  {
    Indicator(0 <= x < |cc| - 1 && 0 <= y < |cc[x]| && y < |cc[x + 1]| && cc[x][y] == t && cc[x + 1][y] != t)
  }

  function Left(cc: Labels, t: nat, x: int, y: int): nat
  {
    Indicator(0 <= x < |cc| && 0 < y < |cc[x]| && cc[x][y] == t && cc[x][y - 1] != t)
  }

  function Right(cc: Labels, t: nat, x: int, y: int): nat
  {
    Indicator(0 <= x < |cc| && 0 <= y < |cc[x]| - 1 && cc[x][y] == t && cc[x][y + 1] != t)
  }

  /** The fence around cell (x, y) of id `t`: one unit per neighbour with another id. */
  function FenceAt(cc: Labels, t: nat, x: int, y: int): nat
  {
    Up(cc, t, x, y) + Down(cc, t, x, y) + Left(cc, t, x, y) + Right(cc, t, x, y)
  }

  function AreaAt(cc: Labels, t: nat, x: int, y: int): nat
  {
    Indicator(InGrid(cc, x, y) && cc[x][y] == t)
  }

  function FenceF(cc: Labels, t: nat): (int, int) -> nat
  {
    (x, y) => FenceAt(cc, t, x, y)
  }

  function AreaF(cc: Labels, t: nat): (int, int) -> nat
  {
    (x, y) => AreaAt(cc, t, x, y)
  }

  /** The fence length of region `t`. */
  function Fence(cc: Labels, t: nat): nat
  {
    Sum2(FenceF(cc, t), |cc|, Width(cc))
  }

  /** The number of cells of region `t`. */
  function Area(cc: Labels, t: nat): nat
  {
    Sum2(AreaF(cc, t), |cc|, Width(cc))
  }

  /** Every cell has at most four units of fence: a region's fence is at most four
      times its area. */
  lemma FenceAtMostFourTimesArea(cc: Labels, t: nat)
    ensures Fence(cc, t) <= 4 * Area(cc, t)
  {
    var four: (int, int) -> nat := (x, y) => 4 * AreaAt(cc, t, x, y);
    var n, m := |cc|, Width(cc);
    Sum2Le(FenceF(cc, t), four, n, m);
    Sum2Scale(AreaF(cc, t), four, n, m);
  }

  lemma {:induction false} Sum2Scale(f: (int, int) -> nat, g: (int, int) -> nat, n: nat, m: nat)
    requires forall x, y | 0 <= x < n && 0 <= y < m :: g(x, y) == 4 * f(x, y)
    ensures Sum2(g, n, m) == 4 * Sum2(f, n, m)
  {
    if n > 0 {
      Sum2Scale(f, g, n - 1, m);
      RowScale(f, g, n - 1, m);
    }
  }

  lemma {:induction false} RowScale(f: (int, int) -> nat, g: (int, int) -> nat, x: int, m: nat)
    requires forall y | 0 <= y < m :: g(x, y) == 4 * f(x, y)
    ensures RowSum(g, x, m) == 4 * RowSum(f, x, m)
  {
    if m > 0 {
      RowScale(f, g, x, m - 1);
    }
  }

  // ---------------------------------------------------------------------------
  // Fence between rows, and sides

  /** Between rows x and x + 1 at column y the ids differ and the upper one is `t`:
      a unit of fence below region `t`. */
  predicate BelowT(cc: Labels, t: nat, x: int, y: int)
  {
    0 <= x < |cc| - 1 && 0 <= y < |cc[x]| && y < |cc[x + 1]| && cc[x][y] != cc[x + 1][y] && cc[x][y] == t
  }

  /** … and the lower one is `t`: a unit of fence above region `t`. */
  predicate AboveT(cc: Labels, t: nat, x: int, y: int)
  {
    0 <= x < |cc| - 1 && 0 <= y < |cc[x]| && y < |cc[x + 1]| && cc[x][y] != cc[x + 1][y] && cc[x + 1][y] == t
  }

  /** The fence of region `t` between rows x and x + 1 at column y. */
  function EdgeAt(cc: Labels, t: nat, x: int, y: int): nat
  {
    Indicator(BelowT(cc, t, x, y)) + Indicator(AboveT(cc, t, x, y))
  }

  /** A side starts here: fence between the rows whose left neighbour, on the same
      side of the same region, is not fence. */
  function SideAt(cc: Labels, t: nat, x: int, y: int): nat
  {
    Indicator(BelowT(cc, t, x, y) && !(y > 0 && BelowT(cc, t, x, y - 1)))
    + Indicator(AboveT(cc, t, x, y) && !(y > 0 && AboveT(cc, t, x, y - 1)))
  }

  function EdgeF(cc: Labels, t: nat): (int, int) -> nat
  {
    (x, y) => EdgeAt(cc, t, x, y)
  }

  function SideF(cc: Labels, t: nat): (int, int) -> nat
  {
    (x, y) => SideAt(cc, t, x, y)
  }

  /** The units of fence of region `t` between consecutive rows. */
  function Edges(cc: Labels, t: nat): nat
    requires |cc| > 0
  {
    Sum2(EdgeF(cc, t), |cc| - 1, Width(cc))
  }

  /** The sides of region `t` between consecutive rows: straight runs of fence
      along one side of the region, each counted once. */
  function Sides(cc: Labels, t: nat): nat
    requires |cc| > 0
  {
    Sum2(SideF(cc, t), |cc| - 1, Width(cc))
  }

  /** Every side starts at a unit of fence: there are at most as many sides as
      units of fence. */
  lemma SidesAtMostEdges(cc: Labels, t: nat)
    requires |cc| > 0
    ensures Sides(cc, t) <= Edges(cc, t)
  {
    Sum2Le(SideF(cc, t), EdgeF(cc, t), |cc| - 1, Width(cc));
  }

  /** `tc` holds the columns of `cc` as its rows. */
  predicate Transposed(cc: Labels, tc: Labels)
  {
    Rect(cc) && |tc| == Width(cc) && Rect(tc) && (|tc| > 0 ==> Width(tc) == |cc|)
    && forall y, x | 0 <= y < |tc| && 0 <= x < |cc| :: tc[y][x] == cc[x][y]
  }

  /** `transpose`: rows become columns. */
  function Transpose(cc: Labels): (r: Labels)
    requires |cc| > 0 && Rect(cc)
    ensures Transposed(cc, r)
  {
    seq(|cc[0]|, y requires 0 <= y < |cc[0]| => seq(|cc|, x requires 0 <= x < |cc| => cc[x][y]))
  }

  /** Transposing twice gives the labels back. */
  lemma TransposeTwice(cc: Labels)
    requires |cc| > 0 && Width(cc) > 0 && Rect(cc)
    ensures Transpose(Transpose(cc)) == cc
  {
    var r := Transpose(Transpose(cc));
    assert |r| == |cc|;
    forall x | 0 <= x < |cc|
      ensures r[x] == cc[x]
    {
      assert |r[x]| == |cc[x]|;
    }
  }

  function UpF(cc: Labels, t: nat): (int, int) -> nat
  {
    (x, y) => Up(cc, t, x, y)
  }

  function DownF(cc: Labels, t: nat): (int, int) -> nat
  {
    (x, y) => Down(cc, t, x, y)
  }

  function LeftF(cc: Labels, t: nat): (int, int) -> nat
  {
    (x, y) => Left(cc, t, x, y)
  }

  function RightF(cc: Labels, t: nat): (int, int) -> nat
  {
    (x, y) => Right(cc, t, x, y)
  }

  function UpDownF(cc: Labels, t: nat): (int, int) -> nat
  {
    (x, y) => Up(cc, t, x, y) + Down(cc, t, x, y)
  }

  function UpDownLeftF(cc: Labels, t: nat): (int, int) -> nat
  {
    (x, y) => Up(cc, t, x, y) + Down(cc, t, x, y) + Left(cc, t, x, y)
  }

  lemma UpDownSum(cc: Labels, t: nat)
    ensures Sum2(UpDownF(cc, t), |cc|, Width(cc)) == Sum2(UpF(cc, t), |cc|, Width(cc)) + Sum2(DownF(cc, t), |cc|, Width(cc))
  {
    Sum2Add(UpF(cc, t), DownF(cc, t), UpDownF(cc, t), |cc|, Width(cc));
  }

  lemma UpDownLeftSum(cc: Labels, t: nat)
    ensures Sum2(UpDownLeftF(cc, t), |cc|, Width(cc)) == Sum2(UpDownF(cc, t), |cc|, Width(cc)) + Sum2(LeftF(cc, t), |cc|, Width(cc))
  {
    Sum2Add(UpDownF(cc, t), LeftF(cc, t), UpDownLeftF(cc, t), |cc|, Width(cc));
  }

  lemma FenceRightSum(cc: Labels, t: nat)
    ensures Fence(cc, t) == Sum2(UpDownLeftF(cc, t), |cc|, Width(cc)) + Sum2(RightF(cc, t), |cc|, Width(cc))
  {
    Sum2Add(UpDownLeftF(cc, t), RightF(cc, t), FenceF(cc, t), |cc|, Width(cc));
  }

  /** The fence splits into its up, down, left and right units. */
  lemma FenceParts(cc: Labels, t: nat)
    ensures Fence(cc, t) == Sum2(UpF(cc, t), |cc|, Width(cc)) + Sum2(DownF(cc, t), |cc|, Width(cc))
                            + Sum2(LeftF(cc, t), |cc|, Width(cc)) + Sum2(RightF(cc, t), |cc|, Width(cc))
  {
    UpDownSum(cc, t);
    UpDownLeftSum(cc, t);
    FenceRightSum(cc, t);
  }

  lemma EdgeAtVertical(cc: Labels, t: nat, x: int, y: int)
    requires Rect(cc) && 0 <= x < |cc| - 1 && 0 <= y < Width(cc)
    ensures EdgeAt(cc, t, x, y) == Down(cc, t, x, y) + Up(cc, t, x + 1, y)
  {
    assert |cc[x]| == |cc[x + 1]| == Width(cc);
  }

  /** Up units one row further down. */
  function UpNextF(cc: Labels, t: nat): (int, int) -> nat
  {
    (x, y) => Up(cc, t, x + 1, y)
  }

  /** Right units, indexed (column, row). */
  function RightTF(cc: Labels, t: nat): (int, int) -> nat
  {
    (y, x) => Right(cc, t, x, y)
  }

  /** Left units, indexed (column, row). */
  function LeftTF(cc: Labels, t: nat): (int, int) -> nat
  {
    (y, x) => Left(cc, t, x, y)
  }

  /** Left units one column further right, indexed (column, row). */
  function LeftNextTF(cc: Labels, t: nat): (int, int) -> nat
  {
    (y, x) => Left(cc, t, x, y + 1)
  }

  lemma EdgePointsVertical(cc: Labels, t: nat)
    requires |cc| > 0 && Rect(cc)
    ensures PointwiseSum(DownF(cc, t), UpNextF(cc, t), EdgeF(cc, t), |cc| - 1, Width(cc))
  {
    forall x, y | 0 <= x < |cc| - 1 && 0 <= y < Width(cc)
      ensures EdgeF(cc, t)(x, y) == DownF(cc, t)(x, y) + UpNextF(cc, t)(x, y)
    {
      EdgeAtVertical(cc, t, x, y);
    }
  }

  /** Edges of a grid of `n + 1` rows of width `m`, given pointwise as two parts. */
  lemma EdgesSplit(cc: Labels, t: nat, f: (int, int) -> nat, g: (int, int) -> nat, n: nat, m: nat)
    requires |cc| == n + 1 && Width(cc) == m && PointwiseSum(f, g, EdgeF(cc, t), n, m)
    ensures Edges(cc, t) == Sum2(f, n, m) + Sum2(g, n, m)
  {
    Sum2Add(f, g, EdgeF(cc, t), n, m);
  }

  lemma DownLastRow(cc: Labels, t: nat)
    requires |cc| > 0
    ensures Sum2(DownF(cc, t), |cc|, Width(cc)) == Sum2(DownF(cc, t), |cc| - 1, Width(cc))
  {
    var last := |cc| - 1;
    forall y | 0 <= y < Width(cc)
      ensures Down(cc, t, last, y) == 0
    {
    }
    RowSumZero(DownF(cc, t), |cc| - 1, Width(cc));
  }

  lemma UpFirstRow(cc: Labels, t: nat)
    requires |cc| > 0
    ensures Sum2(UpNextF(cc, t), |cc| - 1, Width(cc)) == Sum2(UpF(cc, t), |cc|, Width(cc))
  {
    forall y | 0 <= y < Width(cc)
      ensures Up(cc, t, 0, y) == 0
    {
    }
    forall x, y | 0 <= x < |cc| - 1 && 0 <= y < Width(cc)
      ensures UpNextF(cc, t)(x, y) == UpF(cc, t)(x + 1, y)
    {
    }
    Sum2Shift(UpF(cc, t), UpNextF(cc, t), |cc|, Width(cc));
  }

  /** The fence between rows is the up and down units of the fence. */
  lemma EdgesVertical(cc: Labels, t: nat)
    requires |cc| > 0 && Rect(cc)
    ensures Edges(cc, t) == Sum2(UpF(cc, t), |cc|, Width(cc)) + Sum2(DownF(cc, t), |cc|, Width(cc))
  {
    EdgePointsVertical(cc, t);
    EdgesSplit(cc, t, DownF(cc, t), UpNextF(cc, t), |cc| - 1, Width(cc));
    DownLastRow(cc, t);
    UpFirstRow(cc, t);
  }

  lemma EdgeAtHorizontal(cc: Labels, tc: Labels, t: nat, y: int, x: int)
    requires |cc| > 0 && Transposed(cc, tc) && 0 <= y < Width(cc) - 1 && 0 <= x < |cc|
    ensures EdgeAt(tc, t, y, x) == Right(cc, t, x, y) + Left(cc, t, x, y + 1)
    ensures EdgeF(tc, t)(y, x) == RightTF(cc, t)(y, x) + LeftNextTF(cc, t)(y, x)
  {
    assert tc[y][x] == cc[x][y] && tc[y + 1][x] == cc[x][y + 1];
    assert |cc[x]| == Width(cc);
  }

  lemma EdgePointsHorizontal(cc: Labels, tc: Labels, t: nat)
    requires |cc| > 0 && Width(cc) > 0 && Transposed(cc, tc)
    ensures PointwiseSum(RightTF(cc, t), LeftNextTF(cc, t), EdgeF(tc, t), Width(cc) - 1, |cc|)
  {
    forall y, x | 0 <= y < Width(cc) - 1 && 0 <= x < |cc|
      ensures EdgeF(tc, t)(y, x) == RightTF(cc, t)(y, x) + LeftNextTF(cc, t)(y, x)
    {
      EdgeAtHorizontal(cc, tc, t, y, x);
    }
  }

  lemma RightLastColumn(cc: Labels, t: nat)
    requires |cc| > 0 && Width(cc) > 0 && Rect(cc)
    ensures Sum2(RightTF(cc, t), Width(cc) - 1, |cc|) == Sum2(RightF(cc, t), |cc|, Width(cc))
  {
    var n, m := |cc|, Width(cc);
    var last := m - 1;
    forall x | 0 <= x < n
      ensures Right(cc, t, x, last) == 0
    {
      assert |cc[x]| == m;
    }
    RowSumZero(RightTF(cc, t), m - 1, n);
    forall x, y | 0 <= x < n && 0 <= y < m
      ensures RightTF(cc, t)(y, x) == RightF(cc, t)(x, y)
    {
    }
    Sum2Swap(RightF(cc, t), RightTF(cc, t), n, m);
  }

  lemma LeftFirstColumn(cc: Labels, t: nat)
    requires |cc| > 0 && Width(cc) > 0
    ensures Sum2(LeftNextTF(cc, t), Width(cc) - 1, |cc|) == Sum2(LeftF(cc, t), |cc|, Width(cc))
  {
    var n, m := |cc|, Width(cc);
    forall x | 0 <= x < n
      ensures Left(cc, t, x, 0) == 0
    {
    }
    forall y, x | 0 <= y < m - 1 && 0 <= x < n
      ensures LeftNextTF(cc, t)(y, x) == LeftTF(cc, t)(y + 1, x)
    {
    }
    Sum2Shift(LeftTF(cc, t), LeftNextTF(cc, t), m, n);
    forall x, y | 0 <= x < n && 0 <= y < m
      ensures LeftTF(cc, t)(y, x) == LeftF(cc, t)(x, y)
    {
    }
    Sum2Swap(LeftF(cc, t), LeftTF(cc, t), n, m);
  }

  /** The fence between the columns is the left and right units of the fence. */
  lemma EdgesHorizontal(cc: Labels, t: nat)
    requires |cc| > 0 && Width(cc) > 0 && Rect(cc)
    ensures Edges(Transpose(cc), t) == Sum2(LeftF(cc, t), |cc|, Width(cc)) + Sum2(RightF(cc, t), |cc|, Width(cc))
  {
    var tc := Transpose(cc);
    EdgePointsHorizontal(cc, tc, t);
    EdgesSplit(tc, t, RightTF(cc, t), LeftNextTF(cc, t), Width(cc) - 1, |cc|);
    RightLastColumn(cc, t);
    LeftFirstColumn(cc, t);
  }

  /** Region `t`'s fence is its fence between rows plus its fence between columns
      (the rows of the transpose). */
  lemma FenceSplit(cc: Labels, t: nat)
    requires |cc| > 0 && Width(cc) > 0 && Rect(cc)
    ensures Fence(cc, t) == Edges(cc, t) + Edges(Transpose(cc), t)
  {
    FenceParts(cc, t);
    EdgesVertical(cc, t);
    EdgesHorizontal(cc, t);
  }

  /** The bulk discount: sides counted along the rows and along the columns never
      exceed the region's fence. */
  lemma SidesAtMostFence(cc: Labels, t: nat)
    requires |cc| > 0 && Width(cc) > 0 && Rect(cc)
    ensures Sides(cc, t) + Sides(Transpose(cc), t) <= Fence(cc, t)
  {
    FenceSplit(cc, t);
    SidesAtMostEdges(cc, t);
    SidesAtMostEdges(Transpose(cc), t);
  }
}

/**
 * The prices of parts A and B: per id, the fence and area are counted by walking
 * the padded labels, and the bulk-discount sides by walking the boundaries
 * between consecutive rows of the labels and of their transpose.
 */
module Y2024Day12 {
  import opened Y2024Day12Fences
  import G = Y2024Day12Garden
  import R = Y2024Day12Regions
  import C = Y2024Day12Components

  /** The fence and area of row `x` of the labels. */
  method FenceAreaRow(cc: Labels, t: nat, x: nat) returns (fence: nat, area: nat)
    requires Clear(cc, t) && x < |cc|
    ensures fence == RowSum(FenceF(cc, t), x, Width(cc))
    ensures area == RowSum(AreaF(cc, t), x, Width(cc))
  {
    fence, area := 0, 0;
    var y := 0;
    while y < |cc[x]|
      invariant |cc[x]| == Width(cc) && y <= |cc[x]|
      invariant fence == RowSum(FenceF(cc, t), x, y)
      invariant area == RowSum(AreaF(cc, t), x, y)
    {
      var c := cc[x][y];
      if c == t {
        assert |cc[x - 1]| == |cc[x + 1]| == Width(cc);
        area := area + 1;
        if cc[x - 1][y] != c {
          fence := fence + 1;
        }
        if cc[x + 1][y] != c {
          fence := fence + 1;
        }
        if cc[x][y - 1] != c {
          fence := fence + 1;
        }
        if cc[x][y + 1] != c {
          fence := fence + 1;
        }
      }
      y := y + 1;
    }
  }

  /** `get_fence_area`: the fence length and the area of the cells labelled `t`,
      none of which lies on the outer rows or columns. */
  method FenceArea(cc: Labels, t: nat) returns (fence: nat, area: nat)
    requires Clear(cc, t)
    ensures fence == Fence(cc, t) && area == Area(cc, t)
  {
    fence, area := 0, 0;
    var x := 0;
    while x < |cc|
      invariant x <= |cc|
      invariant fence == Sum2(FenceF(cc, t), x, Width(cc))
      invariant area == Sum2(AreaF(cc, t), x, Width(cc))
    {
      var f, a := FenceAreaRow(cc, t, x);
      fence, area := fence + f, area + a;
      x := x + 1;
    }
  }

  /** The sides starting on the boundary between rows `x` and `x + 1`. */
  method DiscountRow(cc: Labels, t: nat, x: nat) returns (sides: nat)
    requires Rect(cc) && x + 1 < |cc|
    ensures sides == RowSum(SideF(cc, t), x, Width(cc))
  {
    sides := 0;
    var prevU, prevD := false, false;
    var y := 0;
    while y < |cc[x]|
      invariant |cc[x]| == |cc[x + 1]| == Width(cc) && y <= |cc[x]|
      invariant sides == RowSum(SideF(cc, t), x, y)
      invariant prevU == (y > 0 && BelowT(cc, t, x, y - 1))
      invariant prevD == (y > 0 && AboveT(cc, t, x, y - 1))
    {
      var a, b := cc[x][y], cc[x + 1][y];
      if a != b {
        if a == t {
          if !prevU {
            sides := sides + 1;
            prevU := true;
          }
        } else {
          prevU := false;
        }
        if b == t {
          if !prevD {
            sides := sides + 1;
            prevD := true;
          }
        } else {
          prevD := false;
        }
      } else {
        prevU, prevD := false, false;
      }
      y := y + 1;
    }
  }

  /** `get_discount_fence_price`: the number of sides of region `t` along the
      boundaries between consecutive rows. */
  method DiscountSides(cc: Labels, t: nat) returns (sides: nat)
    requires |cc| > 0 && Rect(cc)
    ensures sides == Sides(cc, t)
  {
    sides := 0;
    var x := 0;
    while x < |cc| - 1
      invariant x <= |cc| - 1
      invariant sides == Sum2(SideF(cc, t), x, Width(cc))
    {
      var s := DiscountRow(cc, t, x);
      sides := sides + s;
      x := x + 1;
    }
  }

  /** The part A price of ids below `k`: fence times area, per id. */
  function PriceA(cc: Labels, k: nat): nat
  {
    if k == 0 then 0 else PriceA(cc, k - 1) + Fence(cc, k - 1) * Area(cc, k - 1)
  }

  /** The bulk-discount sides of region `t`: along the rows and along the columns. */
  function Discount(cc: Labels, t: nat): nat
    requires |cc| > 0 && Width(cc) > 0 && Rect(cc)
  {
    Sides(cc, t) + Sides(Transpose(cc), t)
  }

  /** The part B price of ids below `k`: area times sides, per id. */
  function PriceB(cc: Labels, k: nat): nat
    requires |cc| > 0 && Width(cc) > 0 && Rect(cc)
  {
    if k == 0 then 0 else PriceB(cc, k - 1) + Area(cc, k - 1) * Discount(cc, k - 1)
  }

  lemma PriceStep(b: nat, a: nat, area: nat, sides: nat, fence: nat)
    requires b <= a && sides <= fence
    ensures b + area * sides <= a + fence * area
  {
    R.MulMonoLe(sides, fence, area);
  }

  /** The bulk discount never costs more than the full price. */
  lemma {:induction false} PriceBAtMostPriceA(cc: Labels, k: nat)
    requires |cc| > 0 && Width(cc) > 0 && Rect(cc)
    ensures PriceB(cc, k) <= PriceA(cc, k)
  {
    if k > 0 {
      var t := k - 1;
      PriceBAtMostPriceA(cc, t);
      assert Discount(cc, t) <= Fence(cc, t) by {
        SidesAtMostFence(cc, t);
      }
      PriceStep(PriceB(cc, t), PriceA(cc, t), Area(cc, t), Discount(cc, t), Fence(cc, t));
    }
  }

  /** Below `u32::MAX`, no id labels the padding: every such id is clear. */
  lemma ClearBelowMax(g: G.Garden, cc: Labels, t: nat)
    requires R.Framed(g, cc) && R.Border(cc) && t < G.U32_MAX
    ensures Clear(cc, t)
  {
    assert Width(cc) == |g[0]| + 2;
    forall x, y | 0 <= x < |cc| && 0 <= y < |cc[x]| && cc[x][y] == t
      ensures !R.OnBorder(cc, x, y)
    {
    }
  }

  /** `part_a`: the summed fence-times-area price of every region, over the ids
      `0 .. rows * width` the labelling uses. */
  method PartA(g: G.Garden) returns (cost: nat, ghost cc: Labels)
    requires G.Plots(g)
    ensures R.Framed(g, cc) && R.Border(cc)
    ensures forall c, d | G.InGarden(g, c) && G.InGarden(g, d) :: R.Id(g, cc, c) == R.Id(g, cc, d) <==> G.Region(g, c, d)
    ensures cost == PriceA(cc, |g| * |g[0]|)
  {
    var labels := C.Components(g);
    cc := labels;
    cost := 0;
    var n := |g| * |g[0]|;
    for t := 0 to n
      invariant cost == PriceA(labels, t)
    {
      ClearBelowMax(g, labels, t);
      var fence, area := FenceArea(labels, t);
      cost := cost + fence * area;
    }
  }

  /** `part_b`: the summed area-times-sides price of every region, sides counted
      on the labels and on their transpose. */
  method PartB(g: G.Garden) returns (cost: nat, ghost cc: Labels)
    requires G.Plots(g)
    ensures R.Framed(g, cc) && R.Border(cc) && |cc| > 0 && Width(cc) > 0 && Rect(cc)
    ensures forall c, d | G.InGarden(g, c) && G.InGarden(g, d) :: R.Id(g, cc, c) == R.Id(g, cc, d) <==> G.Region(g, c, d)
    ensures cost == PriceB(cc, |g| * |g[0]|)
  {
    var labels := C.Components(g);
    cc := labels;
    assert |labels| > 0 && Width(labels) > 0 && Rect(labels) by {
      assert forall x | 0 <= x < |labels| :: |labels[x]| == |labels[0]|;
    }
    var cct := Transpose(labels);
    cost := 0;
    var n := |g| * |g[0]|;
    for t := 0 to n
      invariant cost == PriceB(labels, t)
    {
      ClearBelowMax(g, labels, t);
      var price := DiscountPrice(labels, cct, t);
      cost := cost + price;
    }
  }

  /** One iteration of `part_b`: the area of `t` times its sides in both directions. */
  method DiscountPrice(cc: Labels, cct: Labels, t: nat) returns (price: nat)
    requires Clear(cc, t) && |cc| > 0 && Width(cc) > 0 && cct == Transpose(cc)
    ensures price == Area(cc, t) * Discount(cc, t)
  {
    var _, area := FenceArea(cc, t);
    var c := DiscountSides(cc, t);
    var d := DiscountSides(cct, t);
    price := area * (c + d);
  }
}
