/**
 * Year 2023 (second solution set), day 3: an engine schematic of digits,
 * symbols and blanks. Part a sums the numbers (maximal runs of digits in a
 * row) that touch a symbol; part b sums, over the `*` cells touching exactly
 * two numbers, the product of those two numbers.
 */
module Y2023bDay03 {
  import opened Common

  /** One cell of the schematic; `Blank` is the source's `Entry::None`. */
  datatype Entry = Blank | Symbol(sym: char) | Digit(d: nat)

  type Grid = seq<seq<Entry>>

  /** `parse` for one character: a decimal digit, `.`, or any other character. */
  function ParseEntry(ch: char): (e: Entry)
    ensures e.Digit? <==> '0' <= ch <= '9'
    ensures e.Digit? ==> e.d == ch as int - '0' as int && e.d < 10
    ensures e == Blank <==> ch == '.'
    ensures e.Symbol? ==> e.sym == ch
  {
    if '0' <= ch <= '9' then Digit(ch as int - '0' as int)
    else if ch != '.' then Symbol(ch)
    else Blank
  }

  /** The character a cell was read from. */
  function ShowEntry(e: Entry): char
  {
    match e
    case Blank => '.'
    case Symbol(ch) => ch
    case Digit(d) => if d < 10 then ('0' as int + d) as char else '?'
  }

  /** Reading a character loses nothing: it can be written back. */
  lemma ShowParse(ch: char)
    ensures ShowEntry(ParseEntry(ch)) == ch
  {
  }

  /** `parse`: every line becomes a row, every character a cell. */
  function Parse(lines: seq<string>): (g: Grid)
    ensures |g| == |lines|
    ensures forall r | 0 <= r < |lines| :: |g[r]| == |lines[r]|
    ensures forall r, c | 0 <= r < |lines| && 0 <= c < |lines[r]| :: g[r][c] == ParseEntry(lines[r][c])
    ensures forall r, c | 0 <= r < |lines| && 0 <= c < |lines[r]| :: ShowEntry(g[r][c]) == lines[r][c]
  {
    var g := seq(|lines|, r requires 0 <= r < |lines| => seq(|lines[r]|, c requires 0 <= c < |lines[r]| => ParseEntry(lines[r][c])));
    assert forall r, c | 0 <= r < |lines| && 0 <= c < |lines[r]| :: g[r][c] == ParseEntry(lines[r][c]);
    forall r, c | 0 <= r < |lines| && 0 <= c < |lines[r]|
      ensures ShowEntry(g[r][c]) == lines[r][c]
    {
      ShowParse(lines[r][c]);
    }
    g
  }

  /** `is_symbol`: a symbol at (r, c); false for positions outside the grid. */
  predicate IsSymbolAt(g: Grid, r: int, c: int)
  {
    0 <= r < |g| && 0 <= c < |g[r]| && g[r][c].Symbol?
  }

  /** A symbol in the 3x3 block around (r, c); at a digit the centre never counts. */
  predicate NearSymbol(g: Grid, r: int, c: int)
  {
    IsSymbolAt(g, r - 1, c - 1) || IsSymbolAt(g, r - 1, c) || IsSymbolAt(g, r - 1, c + 1)
    || IsSymbolAt(g, r, c - 1) || IsSymbolAt(g, r, c) || IsSymbolAt(g, r, c + 1)
    || IsSymbolAt(g, r + 1, c - 1) || IsSymbolAt(g, r + 1, c) || IsSymbolAt(g, r + 1, c + 1)
  }

  /** The start of the run of digits that ends just before column `c` (`c` itself when there is none). */
  function RunStart(row: seq<Entry>, c: nat): (s: nat)
    requires c <= |row|
    ensures s <= c
    ensures forall k | s <= k < c :: row[k].Digit?
    ensures s == 0 || !row[s - 1].Digit?
  {
    if c == 0 || !row[c - 1].Digit? then c else RunStart(row, c - 1)
  }

  /** The first column at or after `c` that is not a digit (the row length when there is none). */
  function RunEnd(row: seq<Entry>, c: nat): (e: nat)
    requires c <= |row|
    ensures c <= e <= |row|
    ensures forall k | c <= k < e :: row[k].Digit?
    ensures e == |row| || !row[e].Digit?
    decreases |row| - c
  {
    if c == |row| || !row[c].Digit? then c else RunEnd(row, c + 1)
  }

  function DigitValue(e: Entry): nat
  {
    if e.Digit? then e.d else 0
  }

  /** The decimal number the digits in columns [s, e) spell. */
  function Value(row: seq<Entry>, s: nat, e: nat): nat
    requires s <= e <= |row|
    decreases e - s
  {
    if e == s then 0 else Value(row, s, e - 1) * 10 + DigitValue(row[e - 1])
  }

  /** Some column in [s, e) of row `r` has a symbol around it. */
  predicate Touches(g: Grid, r: int, s: nat, e: nat)
    decreases e
  {
    e > s && (Touches(g, r, s, e - 1) || NearSymbol(g, r, e - 1))
  }

  lemma {:induction false} TouchesExists(g: Grid, r: int, s: nat, e: nat)
    ensures Touches(g, r, s, e) <==> exists k | s <= k < e :: NearSymbol(g, r, k)
    decreases e
  {
    if e > s {
      TouchesExists(g, r, s, e - 1);
    }
  }

  /** The contribution of the run that ends just before column `k`: its value when it touches a symbol. */
  function Pending(g: Grid, r: nat, k: nat): nat
    requires r < |g| && k <= |g[r]|
  {
    var s := RunStart(g[r], k);
    if Touches(g, r, s, k) then Value(g[r], s, k) else 0
  }

  /** The contributions of the runs of row `r` closed by a non-digit before column `c`. */
  function Closed(g: Grid, r: nat, c: nat): nat
    requires r < |g| && c <= |g[r]|
  {
    if c == 0 then 0
    else Closed(g, r, c - 1) + (if g[r][c - 1].Digit? then 0 else Pending(g, r, c - 1))
  }

  /** What row `r` adds in part a: the closed runs and the one the row end closes. */
  function RowTotal(g: Grid, r: nat): nat
    requires r < |g|
  {
    Closed(g, r, |g[r]|) + Pending(g, r, |g[r]|)
  }

  function PartASum(g: Grid, n: nat): nat
    requires n <= |g|
  {
    if n == 0 then 0 else PartASum(g, n - 1) + RowTotal(g, n - 1)
  }

  /**
   * One row of `part_a`: `current` holds the value of the run so far and
   * `next_to_symbol` whether one of its digits touches a symbol; a non-digit
   * or the row end adds the run when it does and resets both.
   */
  method ScanRow(g: Grid, r: nat, sum: nat) returns (sum': nat)
    requires r < |g|
    ensures sum' == sum + RowTotal(g, r)
  {
    var row := g[r];
    var current := 0;
    var nextToSymbol := false;
    sum' := sum;
    for c := 0 to |row|
      invariant current == Value(row, RunStart(row, c), c)
      invariant nextToSymbol == Touches(g, r, RunStart(row, c), c)
      invariant sum' == sum + Closed(g, r, c)
    {
      match row[c] {
        case Digit(d) =>
          current := current * 10 + d;
          if NearSymbol(g, r, c) {
            nextToSymbol := true;
          }
        case _ =>
          if nextToSymbol {
            sum' := sum' + current;
          }
          current := 0;
          nextToSymbol := false;
      }
    }
    if nextToSymbol {
      sum' := sum' + current;
    }
  }

  /** `part_a`: the sum over the rows. */
  method PartA(g: Grid) returns (sum: nat)
    ensures sum == PartASum(g, |g|)
  {
    sum := 0;
    for r := 0 to |g|
      invariant sum == PartASum(g, r)
    {
      sum := ScanRow(g, r, sum);
    }
  }

  /**
   * An independent reading of part a for one row: walk the row run by run
   * from column `c`, adding each maximal run of digits that touches a symbol.
   */
  function Runs(g: Grid, r: nat, c: nat): nat
    requires r < |g| && c <= |g[r]|
    decreases |g[r]| - c
  {
    if c == |g[r]| then 0
    else if !g[r][c].Digit? then Runs(g, r, c + 1)
    else
      var e := RunEnd(g[r], c);
      (if Touches(g, r, c, e) then Value(g[r], c, e) else 0) + Runs(g, r, e)
  }

  /** Inside a run the runs closed so far do not change. */
  lemma {:induction false} ClosedInRun(g: Grid, r: nat, c: nat, e: nat)
    requires r < |g| && c <= e <= |g[r]|
    requires forall k | c <= k < e :: g[r][k].Digit?
    ensures Closed(g, r, e) == Closed(g, r, c)
    decreases e
  {
    if e > c {
      ClosedInRun(g, r, c, e - 1);
    }
  }

  /** A run that begins at a boundary `c` starts at `c` wherever it is looked at from. */
  lemma {:induction false} RunStartInRun(row: seq<Entry>, c: nat, e: nat)
    requires c <= e <= |row|
    requires c == 0 || !row[c - 1].Digit?
    requires forall k | c <= k < e :: row[k].Digit?
    ensures RunStart(row, e) == c
    decreases e
  {
    if e > c {
      RunStartInRun(row, c, e - 1);
    }
  }

  lemma {:induction false} RunsFromBoundary(g: Grid, r: nat, c: nat)
    requires r < |g| && c <= |g[r]|
    requires c == 0 || !g[r][c - 1].Digit?
    ensures Closed(g, r, c) + Runs(g, r, c) == RowTotal(g, r)
    decreases |g[r]| - c
  {
    var row := g[r];
    if c == |row| {
      BoundaryPending(g, r, c);
    } else if !row[c].Digit? {
      BoundaryPending(g, r, c);
      assert Closed(g, r, c + 1) == Closed(g, r, c);
      RunsFromBoundary(g, r, c + 1);
    } else {
      var e := RunStep(g, r, c);
      if e < |row| {
        assert Closed(g, r, e + 1) == Closed(g, r, e) + Pending(g, r, e);
        assert Runs(g, r, e) == Runs(g, r, e + 1);
        RunsFromBoundary(g, r, e + 1);
      }
    }
  }

  /** At a run boundary nothing is pending. */
  lemma BoundaryPending(g: Grid, r: nat, c: nat)
    requires r < |g| && c <= |g[r]|
    requires c == 0 || !g[r][c - 1].Digit?
    ensures Pending(g, r, c) == 0
  {
    assert RunStart(g[r], c) == c;
  }

  /** A run that starts at boundary `c` adds what is pending at its end, and closes nothing inside. */
  lemma RunStep(g: Grid, r: nat, c: nat) returns (e: nat)
    requires r < |g| && c < |g[r]| && g[r][c].Digit?
    requires c == 0 || !g[r][c - 1].Digit?
    ensures e == RunEnd(g[r], c) && c < e <= |g[r]|
    ensures Runs(g, r, c) == Pending(g, r, e) + Runs(g, r, e)
    ensures Closed(g, r, e) == Closed(g, r, c)
  {
    e := RunEnd(g[r], c);
    ClosedInRun(g, r, c, e);
    RunStartInRun(g[r], c, e);
  }

  /** The row total of the scan is the sum of the maximal runs that touch a symbol. */
  lemma RowTotalIsRuns(g: Grid, r: nat)
    requires r < |g|
    ensures RowTotal(g, r) == Runs(g, r, 0)
  {
    RunsFromBoundary(g, r, 0);
  }

  /** `find_number`'s result: the start of the digit run through (r, c) and its value; None off the grid or off a digit. */
  function NumberAt(g: Grid, r: int, c: int): Option<((nat, nat), nat)>
  {
    if r < 0 || c < 0 || r >= |g| || c >= |g[r]| || !g[r][c].Digit? then None
    else
      var s := RunStart(g[r], c);
      Some(((r, s), Value(g[r], s, RunEnd(g[r], s))))
  }

  /** A run through column c starts no later than c, and the whole run is digits. */
  lemma NumberAtRun(g: Grid, r: int, c: int)
    requires NumberAt(g, r, c).Some?
    ensures var ((r', s), v) := NumberAt(g, r, c).value;
      r' == r && s <= c < RunEnd(g[r], s) && (s == 0 || !g[r][s - 1].Digit?)
      && v == Value(g[r], s, RunEnd(g[r], s))
  {
    var s := RunStart(g[r], c);
    assert RunStart(g[r], c + 1) == s;
    RunEndInRun(g[r], s, c + 1);
  }

  lemma {:induction false} RunEndInRun(row: seq<Entry>, s: nat, c: nat)
    requires s <= c <= |row|
    requires forall k | s <= k < c :: row[k].Digit?
    ensures RunEnd(row, s) == RunEnd(row, c)
    decreases c - s
  {
    if s < c {
      RunEndInRun(row, s + 1, c);
    }
  }

  /** `find_number`: walk left to the start of the run, then read the run to its end. */
  method FindNumber(g: Grid, r: int, c: int) returns (res: Option<((nat, nat), nat)>)
    ensures res == NumberAt(g, r, c)
  {
    if r < 0 || c < 0 || r >= |g| || c >= |g[r]| {
      return None;
    }
    var row := g[r];
    if !row[c].Digit? {
      return None;
    }
    var col: nat := c;
    while col > 0 && row[col - 1].Digit?
      invariant col <= c && row[col].Digit?
      invariant RunStart(row, col) == RunStart(row, c)
    {
      col := col - 1;
    }
    var start := col;
    RunStartInRun(row, start, start);
    var current := 0;
    while true
      invariant start <= col < |row|
      invariant forall k | start <= k < col :: row[k].Digit?
      invariant current == Value(row, start, col)
      decreases |row| - col
    {
      if !row[col].Digit? {
        break;
      }
      current := current * 10 + row[col].d;
      col := col + 1;
      if col >= |row| {
        break;
      }
    }
    RunEndInRun(row, start, col);
    return Some(((r, start), current));
  }

  /** The eight neighbours of a cell, in the order `part_b` visits them. */
  function Neighbors(r: int, c: int): seq<(int, int)>
  {
    [(r - 1, c - 1), (r - 1, c), (r - 1, c + 1), (r, c - 1), (r, c + 1), (r + 1, c - 1), (r + 1, c), (r + 1, c + 1)]
  }

  /** `filter_map`'s second half: the values of the `Some` entries, in order. */
  function Somes<T>(xs: seq<Option<T>>): seq<T>
  {
    if xs == [] then []
    else Somes(xs[..|xs| - 1]) + (if xs[|xs| - 1].Some? then [xs[|xs| - 1].value] else [])
  }

  lemma SomesSnoc<T>(xs: seq<Option<T>>, x: Option<T>)
    ensures Somes(xs + [x]) == Somes(xs) + (if x.Some? then [x.value] else [])
  {
    assert (xs + [x])[..|xs|] == xs;
  }

  lemma {:induction false} SomesAppend<T>(a: seq<Option<T>>, b: seq<Option<T>>)
    ensures Somes(a + b) == Somes(a) + Somes(b)
    decreases |b|
  {
    if b == [] {
      assert a + b == a;
    } else {
      var n := |b| - 1;
      assert a + b == (a + b[..n]) + [b[n]];
      assert b == b[..n] + [b[n]];
      SomesSnoc(a + b[..n], b[n]);
      SomesSnoc(b[..n], b[n]);
      SomesAppend(a, b[..n]);
    }
  }

  /** `find_number` at each of the positions `ps`. */
  function Lookups(g: Grid, ps: seq<(int, int)>): (r: seq<Option<((nat, nat), nat)>>)
    ensures |r| == |ps|
    ensures forall i | 0 <= i < |ps| :: r[i] == NumberAt(g, ps[i].0, ps[i].1)
  {
    seq(|ps|, i requires 0 <= i < |ps| => NumberAt(g, ps[i].0, ps[i].1))
  }

  /** The numbers found at the positions `ps`, in order, one per position that is on a digit. */
  function Found(g: Grid, ps: seq<(int, int)>): seq<((nat, nat), nat)>
  {
    Somes(Lookups(g, ps))
  }

  lemma FoundSnoc(g: Grid, ps: seq<(int, int)>, j: nat)
    requires j < |ps|
    ensures NumberAt(g, ps[j].0, ps[j].1).None? ==> Found(g, ps[..j + 1]) == Found(g, ps[..j])
    ensures NumberAt(g, ps[j].0, ps[j].1).Some? ==>
      Found(g, ps[..j + 1]) == Found(g, ps[..j]) + [NumberAt(g, ps[j].0, ps[j].1).value]
  {
    assert Lookups(g, ps[..j + 1]) == Lookups(g, ps[..j]) + [NumberAt(g, ps[j].0, ps[j].1)];
    SomesSnoc(Lookups(g, ps[..j]), NumberAt(g, ps[j].0, ps[j].1));
  }

  lemma FoundAppend(g: Grid, a: seq<(int, int)>, b: seq<(int, int)>)
    ensures Found(g, a + b) == Found(g, a) + Found(g, b)
  {
    assert Lookups(g, a + b) == Lookups(g, a) + Lookups(g, b);
    SomesAppend(Lookups(g, a), Lookups(g, b));
  }

  /** The number found at one position, as a list of at most one. */
  lemma FoundOne(g: Grid, p: (int, int))
    ensures NumberAt(g, p.0, p.1).None? ==> Found(g, [p]) == []
    ensures NumberAt(g, p.0, p.1).Some? ==> Found(g, [p]) == [NumberAt(g, p.0, p.1).value]
    ensures forall x | x in Found(g, [p]) :: x.0.0 == p.0
  {
    assert Lookups(g, [p]) == [] + [NumberAt(g, p.0, p.1)];
    SomesSnoc([], NumberAt(g, p.0, p.1));
    if NumberAt(g, p.0, p.1).Some? {
      NumberAtRun(g, p.0, p.1);
    }
  }

  /** The numbers `part_b` counts: each found number whose start differs from the one found just before it. */
  function Kept(f: seq<((nat, nat), nat)>): seq<((nat, nat), nat)>
  {
    if f == [] then []
    else
      var n := |f| - 1;
      if n > 0 && f[n - 1].0 == f[n].0 then Kept(f[..n]) else Kept(f[..n]) + [f[n]]
  }

  lemma KeptSnoc(f: seq<((nat, nat), nat)>, x: ((nat, nat), nat))
    ensures f != [] && f[|f| - 1].0 == x.0 ==> Kept(f + [x]) == Kept(f)
    ensures f == [] || f[|f| - 1].0 != x.0 ==> Kept(f + [x]) == Kept(f) + [x]
  {
    assert (f + [x])[..|f|] == f;
  }

  function ProductOf(k: seq<((nat, nat), nat)>): int
  {
    if k == [] then 1 else ProductOf(k[..|k| - 1]) * k[|k| - 1].1
  }

  lemma ProductOfSnoc(k: seq<((nat, nat), nat)>, x: ((nat, nat), nat))
    ensures ProductOf(k + [x]) == ProductOf(k) * x.1
  {
    assert (k + [x])[..|k|] == k;
  }

  /** The start of the last number found, `None` before any. */
  function LastStart(f: seq<((nat, nat), nat)>): Option<(nat, nat)>
  {
    if f == [] then None else Some(f[|f| - 1].0)
  }

  /** The gear ratio of the cell: the product of the numbers around it when exactly two are counted. */
  function GearRatio(g: Grid, r: int, c: int): Option<int>
  {
    var k := Kept(Found(g, Neighbors(r, c)));
    if |k| == 2 then Some(ProductOf(k)) else None
  }

  /**
   * The gear check of `part_b`: visit the neighbours, look each up with
   * `find_number`, and count and multiply every number whose start differs
   * from the last one counted.
   */
  method GearAt(g: Grid, r: int, c: int) returns (res: Option<int>)
    ensures res == GearRatio(g, r, c)
  {
    var ns := Neighbors(r, c);
    var last: Option<(nat, nat)> := None;
    var counter: int := 0;
    var product: int := 1;
    for j := 0 to |ns|
      invariant counter == |Kept(Found(g, ns[..j]))|
      invariant product == ProductOf(Kept(Found(g, ns[..j])))
      invariant last == LastStart(Found(g, ns[..j]))
    {
      var found := FindNumber(g, ns[j].0, ns[j].1);
      FoundSnoc(g, ns, j);
      if found.Some? {
        var (start, value) := found.value;
        ghost var f := Found(g, ns[..j]);
        KeptSnoc(f, found.value);
        ProductOfSnoc(Kept(f), found.value);
        assert LastStart(f + [found.value]) == Some(start);
        if last != Some(start) {
          last := Some(start);
          product := product * value;
          counter := counter + 1;
        }
      }
    }
    assert ns[..|ns|] == ns;
    if counter == 2 {
      return Some(product);
    }
    return None;
  }

  /** Equal starts are never split by a different one. */
  ghost predicate Grouped(f: seq<((nat, nat), nat)>)
  {
    forall i, j, k | 0 <= i < j < k < |f| && f[i].0 == f[k].0 :: f[j].0 == f[i].0
  }

  lemma KeptFrom(f: seq<((nat, nat), nat)>)
    ensures forall y | y in Kept(f) :: y in f
  {
    if f != [] {
      var n := |f| - 1;
      KeptFrom(f[..n]);
    }
  }

  /** A prefix of a grouped list is grouped. */
  lemma GroupedPrefix(f: seq<((nat, nat), nat)>, n: nat)
    requires Grouped(f) && n <= |f|
    ensures Grouped(f[..n])
  {
    var p := f[..n];
    forall i, j, k | 0 <= i < j < k < |p| && p[i].0 == p[k].0
      ensures p[j].0 == p[i].0
    {
      assert f[i] == p[i] && f[j] == p[j] && f[k] == p[k];
    }
  }

  /** In a grouped list, a start that differs from the last one occurs nowhere before. */
  lemma GroupedNew(f: seq<((nat, nat), nat)>, x: ((nat, nat), nat))
    requires Grouped(f + [x]) && f != [] && f[|f| - 1].0 != x.0
    ensures forall y | y in f :: y.0 != x.0
  {
    var h := f + [x];
    forall y | y in f
      ensures y.0 != x.0
    {
      var i :| 0 <= i < |f| && f[i] == y;
      assert h[i] == y && h[|f|] == x && h[|f| - 1] == f[|f| - 1];
    }
  }

  /** Every start found is the start of a number counted. */
  lemma {:induction false} KeptCovers(f: seq<((nat, nat), nat)>)
    ensures forall x | x in f :: exists y | y in Kept(f) :: y.0 == x.0
  {
    if f != [] {
      var n := |f| - 1;
      var p := f[..n];
      var x := f[n];
      assert f == p + [x];
      KeptCovers(p);
      KeptSnoc(p, x);
      forall z | z in f
        ensures exists y | y in Kept(f) :: y.0 == z.0
      {
        if z != x {
          assert z in p;
          var y :| y in Kept(p) && y.0 == z.0;
          assert y in Kept(f);
        } else if p != [] && p[n - 1].0 == x.0 {
          assert p[n - 1] in p;
          var y :| y in Kept(p) && y.0 == p[n - 1].0;
          assert y in Kept(f);
        } else {
          assert Kept(f)[|Kept(f)| - 1] == x;
        }
      }
    }
  }

  /**
   * Counting a number only when its start differs from the previous one
   * never counts a start twice, provided equal starts come together.
   */
  lemma {:induction false} KeptDistinct(f: seq<((nat, nat), nat)>)
    requires Grouped(f)
    ensures forall i, j | 0 <= i < j < |Kept(f)| :: Kept(f)[i].0 != Kept(f)[j].0
  {
    if f != [] {
      var n := |f| - 1;
      var p := f[..n];
      var x := f[n];
      assert f == p + [x];
      GroupedPrefix(f, n);
      KeptDistinct(p);
      KeptSnoc(p, x);
      if p == [] || p[n - 1].0 != x.0 {
        if p != [] {
          GroupedNew(p, x);
        }
        KeptFrom(p);
        KeptAppendDistinct(Kept(p), x);
      }
    }
  }

  lemma KeptAppendDistinct(k: seq<((nat, nat), nat)>, x: ((nat, nat), nat))
    requires forall i, j | 0 <= i < j < |k| :: k[i].0 != k[j].0
    requires forall y | y in k :: y.0 != x.0
    ensures forall i, j | 0 <= i < j < |k + [x]| :: (k + [x])[i].0 != (k + [x])[j].0
  {
    var h := k + [x];
    forall i, j | 0 <= i < j < |h|
      ensures h[i].0 != h[j].0
    {
      if j == |k| {
        assert h[i] in k;
      } else {
        assert h[i] == k[i] && h[j] == k[j];
      }
    }
  }

  /** Two numbers found in the same row with one start cover every digit between them. */
  lemma SameRun(g: Grid, r: int, a: int, m: int, b: int)
    requires a <= m <= b
    requires NumberAt(g, r, a).Some? && NumberAt(g, r, b).Some?
    requires NumberAt(g, r, a).value.0 == NumberAt(g, r, b).value.0
    ensures NumberAt(g, r, m).Some? && NumberAt(g, r, m).value.0 == NumberAt(g, r, a).value.0
  {
    NumberAtRun(g, r, a);
    NumberAtRun(g, r, b);
    var s := NumberAt(g, r, a).value.0.1;
    RunStartInRun(g[r], s, b + 1);
    RunStartInRun(g[r], s, m);
    assert RunStart(g[r], m) == s;
  }

  /** A list of at most three numbers is grouped unless its middle one splits the outer two. */
  lemma GroupedSmall(f: seq<((nat, nat), nat)>)
    requires |f| <= 3
    requires |f| == 3 && f[0].0 == f[2].0 ==> f[1].0 == f[0].0
    ensures Grouped(f)
  {
  }

  lemma FoundThree(g: Grid, a: (int, int), b: (int, int), d: (int, int))
    ensures Found(g, [a, b, d]) == Found(g, [a]) + Found(g, [b]) + Found(g, [d])
  {
    assert [a, b, d] == [a] + [b] + [d];
    FoundAppend(g, [a] + [b], [d]);
    FoundAppend(g, [a], [b]);
  }

  /** The numbers found in one row of three consecutive positions come grouped by start. */
  lemma RowGrouped(g: Grid, r: int, c: int)
    ensures Grouped(Found(g, [(r, c - 1), (r, c), (r, c + 1)]))
    ensures forall x | x in Found(g, [(r, c - 1), (r, c), (r, c + 1)]) :: x.0.0 == r
  {
    var a, b, d := (r, c - 1), (r, c), (r, c + 1);
    FoundThree(g, a, b, d);
    FoundOne(g, a);
    FoundOne(g, b);
    FoundOne(g, d);
    var fa, fb, fd := Found(g, [a]), Found(g, [b]), Found(g, [d]);
    var f := fa + fb + fd;
    if |fa| == 1 && |fb| == 1 && |fd| == 1 {
      assert f[0] == fa[0] && f[1] == fb[0] && f[2] == fd[0];
      if fa[0].0 == fd[0].0 {
        SameRun(g, r, c - 1, c, c + 1);
      }
    }
    GroupedSmall(f);
  }

  /** The numbers found on the middle row, left and right of the cell. */
  lemma MiddleRow(g: Grid, r: int, c: int)
    ensures Grouped(Found(g, [(r, c - 1), (r, c + 1)]))
    ensures forall x | x in Found(g, [(r, c - 1), (r, c + 1)]) :: x.0.0 == r
  {
    var a, d := (r, c - 1), (r, c + 1);
    assert [a, d] == [a] + [d];
    FoundAppend(g, [a], [d]);
    FoundOne(g, a);
    FoundOne(g, d);
  }

  /** Concatenating grouped lists whose starts lie in different rows keeps them grouped. */
  lemma GroupedConcat(a: seq<((nat, nat), nat)>, b: seq<((nat, nat), nat)>)
    requires Grouped(a) && Grouped(b)
    requires forall x, y | x in a && y in b :: x.0.0 != y.0.0
    ensures Grouped(a + b)
  {
    var f := a + b;
    forall i, j, k | 0 <= i < j < k < |f| && f[i].0 == f[k].0
      ensures f[j].0 == f[i].0
    {
      if k < |a| {
        assert f[i] == a[i] && f[j] == a[j] && f[k] == a[k];
      } else if i >= |a| {
        assert f[i] == b[i - |a|] && f[j] == b[j - |a|] && f[k] == b[k - |a|];
      }
    }
  }

  /**
   * Around any cell the numbers `part_b` counts have pairwise different
   * starts, and every number touching the cell is among them: skipping only
   * the start seen just before counts each adjacent number exactly once.
   */
  lemma GearCountsEachNumberOnce(g: Grid, r: int, c: int)
    ensures var k := Kept(Found(g, Neighbors(r, c)));
      forall i, j | 0 <= i < j < |k| :: k[i].0 != k[j].0
    ensures forall x | x in Found(g, Neighbors(r, c)) :: exists y | y in Kept(Found(g, Neighbors(r, c))) :: y.0 == x.0
  {
    var top := [(r - 1, c - 1), (r - 1, c), (r - 1, c + 1)];
    var mid := [(r, c - 1), (r, c + 1)];
    var bot := [(r + 1, c - 1), (r + 1, c), (r + 1, c + 1)];
    assert Neighbors(r, c) == top + mid + bot;
    FoundAppend(g, top + mid, bot);
    FoundAppend(g, top, mid);
    RowGrouped(g, r - 1, c);
    MiddleRow(g, r, c);
    RowGrouped(g, r + 1, c);
    GroupedConcat(Found(g, top), Found(g, mid));
    GroupedConcat(Found(g, top) + Found(g, mid), Found(g, bot));
    KeptDistinct(Found(g, Neighbors(r, c)));
    KeptCovers(Found(g, Neighbors(r, c)));
  }

  /** A gear ratio multiplies two numbers read from digits, so it is never negative. */
  lemma GearRatioNonNegative(g: Grid, r: int, c: int)
    ensures GearRatio(g, r, c).Some? ==> GearRatio(g, r, c).value >= 0
  {
    var k := Kept(Found(g, Neighbors(r, c)));
    if |k| == 2 {
      assert k[..1][..0] == k[..0] && k[..2][..1] == k[..1] && k == k[..2];
      assert ProductOf(k[..1]) == k[0].1;
      MulMono(0, k[0].1, k[1].1);
    }
  }

  /** `part_b`: the gear ratios of the `*` cells of columns before `n` in row `r`. */
  function RowGears(g: Grid, r: nat, n: nat): (sum: int)
    requires r < |g| && n <= |g[r]|
    ensures sum >= 0
  {
    if n == 0 then 0
    else
      var ratio := if g[r][n - 1] == Symbol('*') then GearRatio(g, r, n - 1) else None;
      GearRatioNonNegative(g, r, n - 1);
      RowGears(g, r, n - 1) + (match ratio case Some(p) => p case None => 0)
  }

  /** `part_b`: the gear ratios of all `*` cells, row by row. */
  function PartB(g: Grid, n: nat): (sum: int)
    requires n <= |g|
    ensures sum >= 0
  {
    if n == 0 then 0 else PartB(g, n - 1) + RowGears(g, n - 1, |g[n - 1]|)
  }

  /** Only `*` cells count: a row without one adds nothing. */
  lemma {:induction false} RowGearsOnlyStars(g: Grid, r: nat, n: nat)
    requires r < |g| && n <= |g[r]|
    requires forall j | 0 <= j < n :: g[r][j] != Symbol('*')
    ensures RowGears(g, r, n) == 0
  {
    if n > 0 {
      RowGearsOnlyStars(g, r, n - 1);
    }
  }

  /** Every `*` cell with exactly two numbers around it adds its ratio, and nothing is subtracted. */
  lemma {:induction false} RowGearsCountsGear(g: Grid, r: nat, n: nat, j: nat)
    requires r < |g| && j < n <= |g[r]|
    requires g[r][j] == Symbol('*') && GearRatio(g, r, j).Some?
    ensures RowGears(g, r, n) >= GearRatio(g, r, j).value
  {
    GearRatioNonNegative(g, r, n - 1);
    if j < n - 1 {
      RowGearsCountsGear(g, r, n - 1, j);
    }
  }
}
