/** Small shared vocabulary: an optional value, a few sequence helpers and decimal numerals. */
module Common {

  datatype Option<+T> = None | Some(value: T)

  /** `r` is a suffix of `s`. */
  predicate IsSuffix<X(==)>(r: seq<X>, s: seq<X>)
  {
    |r| <= |s| && r == s[|s| - |r|..]
  }

  lemma SuffixTransitive<X>(q: seq<X>, r: seq<X>, s: seq<X>)
    requires IsSuffix(q, r) && IsSuffix(r, s)
    ensures IsSuffix(q, s)
  {
    assert r[|r| - |q|..] == s[|s| - |r|..][|r| - |q|..];
  }

  function Sum(s: seq<int>): int
  {
    if s == [] then 0 else Sum(s[..|s| - 1]) + s[|s| - 1]
  }

  function Abs(x: int): nat
  {
    if x < 0 then -x else x
  }

  function Min(a: int, b: int): int
  {
    if a <= b then a else b
  }

  function Max(a: int, b: int): int
  {
    if a >= b then a else b
  }

  function Pow10(n: nat): (r: nat)
    ensures r >= 1
  {
    if n == 0 then 1 else 10 * Pow10(n - 1)
  }

  lemma MulMono(a: int, b: int, w: nat)
    requires a <= b
    ensures a * w <= b * w
  {
    assert b * w == a * w + (b - a) * w;
  }

  /** Euclidean remainder is determined by any decomposition `a == q * n + r`. */
  lemma ModUnique(a: int, n: int, q: int, r: int)
    requires n > 0 && 0 <= r < n && a == q * n + r
    ensures a % n == r
  {
    var q', r' := a / n, a % n;
    var k := q - q';
    assert k * n == r' - r by {
      assert q * n - q' * n == (q - q') * n;
    }
    if k >= 1 {
      MulMono(1, k, n);
    } else if k <= -1 {
      MulMono(k, -1, n);
    }
  }

  lemma AppendAssoc<X>(x: seq<X>, y: seq<X>, z: seq<X>)
    ensures x + y + z == x + (y + z)
  {
  }

  lemma TakeOfAppend<X>(x: seq<X>, y: seq<X>)
    ensures (x + y)[..|x|] == x
  {
  }

  predicate IsDigit(c: char)
  {
    '0' <= c <= '9'
  }

  /** The value of a run of decimal digits. */
  function Decimal(s: string): (r: nat)
    requires forall i | 0 <= i < |s| :: IsDigit(s[i])
    ensures r < Pow10(|s|)
  {
    if s == [] then 0
    else
      var c := s[|s| - 1];
      assert IsDigit(c);
      10 * Decimal(s[..|s| - 1]) + (c as int - '0' as int)
  }

  /**
   * `str::parse` for a signed integer type holding `lo..=hi`: an optional
   * `+` or `-`, then at least one decimal digit and nothing else, with a
   * value inside the range.
   */
  function ParseSigned(s: string, lo: int, hi: int): (r: Option<int>)
    ensures r.Some? ==> lo <= r.value <= hi
  {
    var negative := |s| > 0 && s[0] == '-';
    var body := if |s| > 0 && (s[0] == '-' || s[0] == '+') then s[1..] else s;
    if body == [] || exists k | 0 <= k < |body| :: !IsDigit(body[k]) then None
    else
      var v: int := if negative then -(Decimal(body) as int) else Decimal(body);
      if lo <= v <= hi then Some(v) else None
  }

  /** The decimal digits of a natural number, without leading zeros. */
  function Show(n: nat): (r: string)
    ensures |r| > 0 && forall k | 0 <= k < |r| :: IsDigit(r[k])
  {
    var d := ['0' + (n % 10) as char];
    if n < 10 then d else Show(n / 10) + d
  }

  lemma {:induction false} DecimalShow(n: nat)
    ensures Decimal(Show(n)) == n
  {
    var d := ['0' + (n % 10) as char];
    if n >= 10 {
      DecimalShow(n / 10);
      var s := Show(n / 10) + d;
      assert s[..|s| - 1] == Show(n / 10);
    }
  }

  /** The decimal rendering of an integer, with a `-` for negative values. */
  function ShowInt(n: int): string
  {
    if n < 0 then "-" + Show(-n) else Show(n)
  }

  /** Every value of the range reads back from its decimal rendering. */
  lemma ParseSignedShow(n: int, lo: int, hi: int)
    requires lo <= n <= hi
    ensures ParseSigned(ShowInt(n), lo, hi) == Some(n)
  {
    if n < 0 {
      ParseNegative(-n, lo, hi);
    } else {
      DecimalShow(n);
      var s := Show(n);
      assert IsDigit(s[0]);
      assert !exists k | 0 <= k < |s| :: !IsDigit(s[k]);
    }
  }

  lemma ParseNegative(m: nat, lo: int, hi: int)
    requires m > 0 && lo <= -(m as int) <= hi
    ensures ParseSigned("-" + Show(m), lo, hi) == Some(-(m as int))
  {
    DecimalShow(m);
    var s := "-" + Show(m);
    assert s[0] == '-' && s[1..] == Show(m);
    assert !exists k | 0 <= k < |Show(m)| :: !IsDigit(Show(m)[k]);
  }
}
