/**
 * Year 2024, day 11: stones that change on every blink.  A 0 becomes 1, a
 * number with an even count of decimal digits splits into its two halves,
 * any other number is multiplied by 2024.  The source counts the stones a
 * stone becomes after `r` blinks, memoising the counts under `(r, x)`.
 */
module Y2024Day11 {
  import opened Common

  /** `exp10`, the source's power of ten, is `Pow10`; its exponents add. */
  lemma {:induction false} Pow10Add(a: nat, b: nat)
    ensures Pow10(a + b) == Pow10(a) * Pow10(b)
    decreases a
  {
    if a > 0 {
      Pow10Add(a - 1, b);
      assert Pow10(a + b) == 10 * Pow10(a - 1 + b);
    }
  }

  /** `log10`: the number of decimal digits of `x`, counting 0 as one digit. */
  function Log10(x: nat): (r: nat)
    ensures r >= 1
  {
    if x < 10 then 1 else Log10(x / 10) + 1
  }

  /** `x` has `Log10(x)` digits: `10^(d-1) <= x < 10^d`, except that 0 has one digit. */
  lemma {:induction false} Log10Bounds(x: nat)
    ensures x < Pow10(Log10(x))
    ensures x >= 1 ==> Pow10(Log10(x) - 1) <= x
  {
    if x >= 10 {
      Log10Bounds(x / 10);
    }
  }

  /** The digit count is the unique `d` with `10^(d-1) <= x < 10^d`. */
  lemma {:induction false} Log10Unique(x: nat, d: nat)
    requires d >= 1 && Pow10(d - 1) <= x < Pow10(d)
    ensures Log10(x) == d
  {
    var e := Log10(x);
    Log10Bounds(x);
    if e < d {
      PowMono(e, d - 1);
    } else if e > d {
      PowMono(d, e - 1);
    }
  }

  lemma {:induction false} PowMono(a: nat, b: nat)
    requires a <= b
    ensures Pow10(a) <= Pow10(b)
    decreases b
  {
    if a < b {
      PowMono(a, b - 1);
    }
  }

  /** What one blink turns a stone into. */
  function Blink(x: nat): (r: seq<nat>)
    ensures 1 <= |r| <= 2
  {
    if x == 0 then [1]
    else
      var d := Log10(x);
      if d % 2 == 0 then
        var a := Pow10(d / 2);
        [x / a, x % a]
      else [x * 2024]
  }

  /** `x / a` for `10^(2h-1) <= x < 10^(2h)` and `a == 10^h`, on plain integers: `10^(h-1) <= x / a < 10^h`. */
  lemma QuotientBounds(x: nat, p: nat, a: nat)
    requires p >= 1 && a == 10 * p
    requires p * a <= x < a * a
    ensures p <= x / a < a
  {
    var hi := x / a;
    DivMod(x, a);
    if hi >= a {
      MulMono(a, hi, a);
    }
    if hi < p {
      MulMono(hi, p - 1, a);
    }
  }

  /**
   * A stone with an even number `2h` of digits splits into a left half with
   * exactly `h` digits (no leading zero) and a right half below `10^h`, which
   * together spell the stone.
   */
  lemma SplitHalves(x: nat)
    requires x != 0 && Log10(x) % 2 == 0
    ensures var h := Log10(x) / 2;
            var b := Blink(x);
            |b| == 2 && Log10(b[0]) == h && b[1] < Pow10(h) && x == b[0] * Pow10(h) + b[1]
  {
    var d := Log10(x);
    var h := d / 2;
    var a := Pow10(h);
    assert Blink(x) == [x / a, x % a];
    Log10Bounds(x);
    assert d == 2 * h && h >= 1 && x >= 10;
    assert Pow10(2 * h - 1) <= x < Pow10(2 * h);
    LeftHalfBounds(x, h);
    Log10Unique(x / a, h);
    DivMod(x, a);
  }

  /** For `10^(2h-1) <= x < 10^(2h)`, the left half `x / 10^h` has `h` digits. */
  lemma LeftHalfBounds(x: nat, h: nat)
    requires h >= 1 && Pow10(2 * h - 1) <= x < Pow10(2 * h)
    ensures Pow10(h - 1) <= x / Pow10(h) < Pow10(h)
  {
    HalfPowers(h);
    QuotientBounds(x, Pow10(h - 1), Pow10(h));
  }

  /** The powers of ten around a split into two halves of `h` digits. */
  lemma HalfPowers(h: nat)
    requires h >= 1
    ensures Pow10(h) == 10 * Pow10(h - 1)
    ensures Pow10(h - 1) * Pow10(h) == Pow10(2 * h - 1)
    ensures Pow10(h) * Pow10(h) == Pow10(2 * h)
  {
    Pow10Add(h - 1, h);
    assert 2 * h - 1 == (h - 1) + h;
    Pow10Add(h, h);
    assert 2 * h == h + h;
  }

  lemma DivMod(x: nat, a: nat)
    requires a > 0
    ensures x == (x / a) * a + x % a && x % a < a
  {
  }

  /** The row after every stone has changed by `f`, each stone's replacements in place. */
  function FlatMap(f: nat -> seq<nat>, stones: seq<nat>): seq<nat>
  {
    if stones == [] then [] else FlatMap(f, stones[..|stones| - 1]) + f(stones[|stones| - 1])
  }

  /** The row after `r` rounds of `f`. */
  function Iterate(f: nat -> seq<nat>, stones: seq<nat>, r: nat): seq<nat>
    decreases r
  {
    if r == 0 then stones else Iterate(f, FlatMap(f, stones), r - 1)
  }

  lemma {:induction false} FlatMapAppend(f: nat -> seq<nat>, a: seq<nat>, b: seq<nat>)
    ensures FlatMap(f, a + b) == FlatMap(f, a) + FlatMap(f, b)
    decreases |b|
  {
    if b == [] {
      assert a + b == a;
    } else {
      var init := b[..|b| - 1];
      assert (a + b)[..|a + b| - 1] == a + init;
      FlatMapAppend(f, a, init);
    }
  }

  /** Stones change independently: the row `a + b` after `r` rounds is `a`'s row followed by `b`'s. */
  lemma {:induction false} IterateAppend(f: nat -> seq<nat>, a: seq<nat>, b: seq<nat>, r: nat)
    ensures Iterate(f, a + b, r) == Iterate(f, a, r) + Iterate(f, b, r)
    decreases r
  {
    if r > 0 {
      FlatMapAppend(f, a, b);
      IterateAppend(f, FlatMap(f, a), FlatMap(f, b), r - 1);
    }
  }

  /** Reference definition: the row after `r` blinks. */
  function Evolve(stones: seq<nat>, r: nat): seq<nat>
  {
    Iterate(Blink, stones, r)
  }

  /**
   * `number_stones` without the memo: the number of stones `x` becomes after
   * `r` blinks.
   */
  function Count(x: nat, r: nat): nat
    decreases r
  {
    if r == 0 then 1
    else
      var b := Blink(x);
      if |b| == 1 then Count(b[0], r - 1) else Count(b[0], r - 1) + Count(b[1], r - 1)
  }

  /** One round of `f` on a single stone, then `r` more. */
  lemma IterateSingle(f: nat -> seq<nat>, x: nat, r: nat)
    requires r > 0
    ensures Iterate(f, [x], r) == Iterate(f, f(x), r - 1)
  {
    assert [x][..0] == [];
    assert FlatMap(f, [x]) == [] + f(x) == f(x);
  }

  lemma {:induction false} IterateEmpty(f: nat -> seq<nat>, r: nat)
    ensures Iterate(f, [], r) == []
    decreases r
  {
    if r > 0 {
      IterateEmpty(f, r - 1);
    }
  }

  /** The counting recursion counts the stones of the evolved row. */
  lemma {:induction false} CountIsEvolvedLength(x: nat, r: nat)
    ensures Count(x, r) == |Evolve([x], r)|
    decreases r
  {
    if r > 0 {
      var b := Blink(x);
      IterateSingle(Blink, x, r);
      if |b| == 1 {
        CountIsEvolvedLength(b[0], r - 1);
        assert b == [b[0]];
      } else {
        CountIsEvolvedLength(b[0], r - 1);
        CountIsEvolvedLength(b[1], r - 1);
        assert b == [b[0]] + [b[1]];
        IterateAppend(Blink, [b[0]], [b[1]], r - 1);
      }
    }
  }

  /** Every memoised count is the true count of stone `key.1` after `key.0` blinks. */
  predicate Memoised(table: map<(nat, nat), nat>)
  {
    forall key | key in table :: table[key] == Count(key.1, key.0)
  }

  /** Recording a true count keeps the memo true. */
  lemma RecordKeepsMemoised(table: map<(nat, nat), nat>, x: nat, r: nat)
    requires Memoised(table)
    ensures Memoised(table[(r, x) := Count(x, r)])
  {
  }

  /** The memo of `number_stones`: counts keyed by `(blinks, stone)`. */
  class Lookup {
    var table: map<(nat, nat), nat>

    predicate Valid()
      reads this
    {
      Memoised(table)
    }

    constructor()
      ensures Valid() && table == map[]
    {
      table := map[];
    }
  }

  /** `number_stones`: the count of `x` after `r` blinks, through the memo. */
  method NumberStones(x: nat, r: nat, lookup: Lookup) returns (v: nat)
    requires lookup.Valid()
    modifies lookup
    ensures lookup.Valid()
    ensures v == Count(x, r)
    ensures old(lookup.table).Keys <= lookup.table.Keys
    decreases r
  {
    if r == 0 {
      return 1;
    }
    if (r, x) in lookup.table {
      return lookup.table[(r, x)];
    }
    // The three cases of the rule (0, an even digit count, any other number) are `Blink`'s.
    var next := Blink(x);
    if |next| == 1 {
      v := NumberStones(next[0], r - 1, lookup);
    } else {
      var left := NumberStones(next[0], r - 1, lookup);
      var right := NumberStones(next[1], r - 1, lookup);
      v := left + right;
    }
    RecordKeepsMemoised(lookup.table, x, r);
    lookup.table := lookup.table[(r, x) := v];
  }

  /** The stones of the whole row after `blinks` blinks, counted with a fresh memo as both parts do. */
  method CountAll(input: seq<nat>, blinks: nat) returns (count: nat)
    ensures count == |Evolve(input, blinks)|
  {
    var lookup := new Lookup();
    count := 0;
    IterateEmpty(Blink, blinks);
    for i := 0 to |input|
      invariant lookup.Valid()
      invariant count == |Evolve(input[..i], blinks)|
    {
      var c := NumberStones(input[i], blinks, lookup);
      CountIsEvolvedLength(input[i], blinks);
      IterateAppend(Blink, input[..i], [input[i]], blinks);
      assert input[..i + 1] == input[..i] + [input[i]];
      count := count + c;
    }
    assert input[..|input|] == input;
  }

  method PartA(input: seq<nat>) returns (count: nat)
    ensures count == |Evolve(input, 25)|
  {
    count := CountAll(input, 25);
  }

  method PartB(input: seq<nat>) returns (count: nat)
    ensures count == |Evolve(input, 75)|
  {
    count := CountAll(input, 75);
  }

  /** The first blinks of the example row 125 17. */
  lemma ExampleBlinks()
    ensures Evolve([125, 17], 1) == [253000, 1, 7]
    ensures Evolve([125, 17], 2) == [253, 0, 2024, 14168]
  {
    Log10Unique(125, 3);
    Log10Unique(17, 2);
    Log10Unique(253000, 6);
    Log10Unique(7, 1);
    Log10Unique(1, 1);
    assert Blink(125) == [253000];
    assert Blink(17) == [1, 7];
    var row1 := [125, 17];
    assert row1[..1] == [125];
    assert FlatMap(Blink, [125]) == [253000] by {
      assert [125][..0] == [];
    }
    assert FlatMap(Blink, row1) == [253000, 1, 7];
    assert Blink(253000) == [253, 0];
    assert Blink(1) == [2024];
    assert Blink(7) == [14168];
    var row2 := [253000, 1, 7];
    assert row2[..2][..1] == [253000] && row2[..2] == [253000, 1];
    assert FlatMap(Blink, [253000]) == [253, 0] by {
      assert [253000][..0] == [];
    }
    assert FlatMap(Blink, row2) == [253, 0, 2024, 14168];
  }
}
