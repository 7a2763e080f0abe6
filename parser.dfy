/**
 * The combinator tokenizer and the token-stream parser of year2024/src/parser.rs.
 *
 * A tokenizer is a tree of combinator nodes. Running it on a text appends tokens to
 * a caller-owned buffer and returns the unconsumed suffix of the text. The function
 * `Run` is the specification: it says which suffix is returned and which tokens are
 * appended. The methods `Tokenize*` do what the source does (loops over cursors,
 * pushes to and truncations of one shared buffer) and are proved to agree with `Run`.
 *
 * Strings are sequences of Unicode scalar values, so the byte offsets of the source
 * become character offsets here.
 */
module Parser {
  import opened Common

  /** What running a tokenizer yields: the remainder and the tokens appended, or
      `Abort` where the source panics (a number that its integer type cannot hold). */
  datatype Step<T> = Step(rest: string, tokens: seq<T>) | Abort

  /** The combinator nodes. `Number` parses into u64 when `signed` is false and into
      i64 when it is true, as the constructors `unsigned` and `signed` do. */
  datatype Tokenizer<T> =
    | Tag(tag: string, token: T)
    | Conditional(condition: (nat, char) -> bool, finalize: string -> T, allowEmpty: bool)
    | Any
    | Number(radix: nat, signed: bool, convert: int -> T)
    | Ignore(inner: Tokenizer<T>)
    | AndThen(first: Tokenizer<T>, second: Tokenizer<T>)
    | Or(first: Tokenizer<T>, second: Tokenizer<T>)
    | Repeated(inner: Tokenizer<T>, min: nat)

  // ---------------------------------------------------------------------------
  // Builders

  function Conditional0Pos<T>(condition: (nat, char) -> bool, finalize: string -> T): (r: Tokenizer<T>)
    ensures r.Conditional? && r.allowEmpty
  {
    Conditional(condition, finalize, true)
  }

  function Conditional1Pos<T>(condition: (nat, char) -> bool, finalize: string -> T): (r: Tokenizer<T>)
    ensures r.Conditional? && !r.allowEmpty
  {
    Conditional(condition, finalize, false)
  }

  function Conditional0<T>(condition: char -> bool, finalize: string -> T): (r: Tokenizer<T>)
    ensures r.Conditional? && r.allowEmpty
    ensures forall i: nat, c :: r.condition(i, c) == condition(c)
  {
    Conditional((i: nat, c: char) => condition(c), finalize, true)
  }

  function Conditional1<T>(condition: char -> bool, finalize: string -> T): (r: Tokenizer<T>)
    ensures r.Conditional? && !r.allowEmpty
    ensures forall i: nat, c :: r.condition(i, c) == condition(c)
  {
    Conditional((i: nat, c: char) => condition(c), finalize, false)
  }

  /** Unicode White_Space, the set `char::is_whitespace` tests. */
  predicate IsWhitespace(c: char)
  {
    ('\t' <= c <= '\r') || c == ' ' || c == '\U{0085}' || c == '\U{00A0}' || c == '\U{1680}'
    || ('\U{2000}' <= c <= '\U{200A}') || c == '\U{2028}' || c == '\U{2029}' || c == '\U{202F}'
    || c == '\U{205F}' || c == '\U{3000}'
  }

  /** Despite its name, `whitespace0` builds the same non-empty form as `whitespace1`. */
  function Whitespace0<T>(token: T): (r: Tokenizer<T>)
    ensures r.Conditional? && !r.allowEmpty
    ensures forall i: nat, c :: r.condition(i, c) == IsWhitespace(c)
    ensures forall s :: r.finalize(s) == token
  {
    Conditional1(IsWhitespace, (s: string) => token)
  }

  /** `whitespace1`: the same tokenizer as `whitespace0`. */
  function Whitespace1<T>(token: T): (r: Tokenizer<T>)
    ensures r == Whitespace0(token)
  {
    Conditional1(IsWhitespace, (s: string) => token)
  }

  function Linebreak<T>(token: T): Tokenizer<T>
  {
    Tag("\n", token)
  }

  function DoubleLinebreak<T>(token: T): Tokenizer<T>
  {
    Tag("\n\n", token)
  }

  // ---------------------------------------------------------------------------
  // Character classes and the standard library's integer parsing

  /** The value of `c` as a digit of a radix up to 36 ('0'-'9', then 'a'-'z' or
      'A'-'Z' from 10 on), or 36 when it is no digit at all. */
  function DigitValue(c: char): nat
  {
    if '0' <= c <= '9' then c as int - '0' as int
    else if 'a' <= c <= 'z' then c as int - 'a' as int + 10
    else if 'A' <= c <= 'Z' then c as int - 'A' as int + 10
    else 36
  }

  predicate IsDigit(c: char, radix: nat)
  {
    DigitValue(c) < radix
  }

  predicate AllDecimal(s: string)
  {
    s == [] || ('0' <= s[|s| - 1] <= '9' && AllDecimal(s[..|s| - 1]))
  }

  /** The number written by the decimal digits `s`. */
  function DecimalValue(s: string): nat
    requires AllDecimal(s)
  {
    if s == [] then 0 else DecimalValue(s[..|s| - 1]) * 10 + (s[|s| - 1] as int - '0' as int)
  }

  const U64_LIMIT: int := 0x1_0000_0000_0000_0000
  const I64_LIMIT: int := 0x8000_0000_0000_0000

  /** `str::parse` into u64 (`signed` false) or i64 (`signed` true): an optional '+'
      (or '-' when signed), then at least one decimal digit, and a value in range. */
  function ParseDecimal(text: string, signed: bool): (r: Option<int>)
    ensures r.Some? ==> (if signed then -I64_LIMIT <= r.value < I64_LIMIT else 0 <= r.value < U64_LIMIT)
  {
    var negative := signed && |text| > 0 && text[0] == '-';
    var body := if |text| > 0 && (text[0] == '+' || negative) then text[1..] else text;
    if |body| == 0 || !AllDecimal(body) then None
    else
      var v: int := if negative then -(DecimalValue(body) as int) else DecimalValue(body);
      if signed && -I64_LIMIT <= v < I64_LIMIT then Some(v)
      else if !signed && v < U64_LIMIT then Some(v)
      else None
  }

  // ---------------------------------------------------------------------------
  // Specification

  /** The length of the longest prefix of `s` whose i-th element `x` satisfies
      `condition(i, x)`, scanning from index `k` on. */
  function PrefixLenFrom<X>(condition: (nat, X) -> bool, s: seq<X>, k: nat): (n: nat)
    requires k <= |s|
    ensures k <= n <= |s|
    decreases |s| - k
  {
    if k < |s| && condition(k, s[k]) then PrefixLenFrom(condition, s, k + 1) else k
  }

  function PrefixLen<X>(condition: (nat, X) -> bool, s: seq<X>): (n: nat)
    ensures n <= |s|
  {
    PrefixLenFrom(condition, s, 0)
  }

  lemma {:induction false} PrefixLenFromIsLongest<X>(condition: (nat, X) -> bool, s: seq<X>, k: nat)
    requires k <= |s|
    requires forall i | 0 <= i < k :: condition(i, s[i])
    ensures forall i | 0 <= i < PrefixLenFrom(condition, s, k) :: condition(i, s[i])
    ensures PrefixLenFrom(condition, s, k) < |s| ==> !condition(PrefixLenFrom(condition, s, k), s[PrefixLenFrom(condition, s, k)])
    decreases |s| - k
  {
    if k < |s| && condition(k, s[k]) {
      PrefixLenFromIsLongest(condition, s, k + 1);
    }
  }

  /** `PrefixLen` is the longest prefix whose i-th element satisfies the condition
      at position i. */
  lemma PrefixLenIsLongest<X>(condition: (nat, X) -> bool, s: seq<X>)
    ensures forall i | 0 <= i < PrefixLen(condition, s) :: condition(i, s[i])
    ensures PrefixLen(condition, s) < |s| ==> !condition(PrefixLen(condition, s), s[PrefixLen(condition, s)])
  {
    PrefixLenFromIsLongest(condition, s, 0);
  }

  /** The longest prefix is unique: whatever length has the properties of
      `PrefixLen` is `PrefixLen`. */
  lemma PrefixLenUnique<X>(condition: (nat, X) -> bool, s: seq<X>, m: nat)
    requires m <= |s|
    requires forall i | 0 <= i < m :: condition(i, s[i])
    requires m < |s| ==> !condition(m, s[m])
    ensures m == PrefixLen(condition, s)
  {
    PrefixLenIsLongest(condition, s);
  }

  /** The digit test of a radix, as a condition on (position, character). */
  function DigitCondition(radix: nat): (nat, char) -> bool
  {
    (i: nat, c: char) => IsDigit(c, radix)
  }

  /** The number of leading digits of `s` in the given radix. */
  function DigitRun(radix: nat, s: string): (n: nat)
    ensures n <= |s|
  {
    PrefixLen(DigitCondition(radix), s)
  }

  /** `rest` is no longer than `input`, and equal to it when as long: what every
      tokenizer returns. (That it is in fact a suffix is the lemma `RunYieldsSuffix`.) */
  predicate Within(rest: string, input: string)
  {
    |rest| < |input| || rest == input
  }

  /** The iterations of a repetition: how many runs of the inner tokenizer made
      progress, where the last one left off, and every token appended, including
      those of the final run that made no progress. */
  datatype Iteration<T> = Iteration(count: nat, rest: string, tokens: seq<T>) | IterAbort

  /** Runs a tokenizer on `input`: the remainder and the tokens appended, or `Abort`.
      The composite nodes refer to their children only through `Run`, and `Run` to the
      node only through `RunNode`, so that unfolding one node's meaning does not
      unfold the meaning of the nodes below it. */
  function Run<T>(t: Tokenizer<T>, input: string): (r: Step<T>)
    ensures r.Step? ==> Within(r.rest, input)
    decreases t, 2
  {
    RunNode(t, input)
  }

  /** The meaning of each kind of node. */
  function RunNode<T>(t: Tokenizer<T>, input: string): (r: Step<T>)
    ensures r.Step? ==> Within(r.rest, input)
    decreases t, 1
  {
    match t
    case Tag(tag, token) => RunTag(tag, token, input)
    case Conditional(condition, finalize, allowEmpty) => RunConditional(condition, finalize, allowEmpty, input)
    case Any => RunAny(input)
    case Number(radix, signed, convert) => RunNumber(radix, signed, convert, input)
    case Ignore(a) => RunIgnore(a, input)
    case AndThen(a, b) => RunAndThen(a, b, input)
    case Or(a, b) => RunOr(a, b, input)
    case Repeated(a, min) => RunRepeated(a, min, input)
  }

  /** A literal: on a match its one token and the input after it, else nothing. */
  function RunTag<T>(tag: string, token: T, input: string): (r: Step<T>)
    ensures r.Step? && Within(r.rest, input)
  {
    if tag <= input then Step(input[|tag|..], [token]) else Step(input, [])
  }

  /** The longest run satisfying the condition, finalized into one token, unless it
      is empty and empty runs are not allowed. */
  function RunConditional<T>(condition: (nat, char) -> bool, finalize: string -> T, allowEmpty: bool,
                             input: string): (r: Step<T>)
    ensures r.Step? && Within(r.rest, input)
  {
    var n := PrefixLen(condition, input);
    if !allowEmpty && n == 0 then Step(input, []) else Step(input[n..], [finalize(input[..n])])
  }

  /** One character skipped, none appended. */
  function RunAny<T>(input: string): (r: Step<T>)
    ensures r == Step(if |input| == 0 then input else input[1..], [])
  {
    if |input| == 0 then Step(input, []) else Step(input[1..], [])
  }

  /** An optional '-' (when signed) and the maximal run of radix digits, converted
      with the decimal parser; `Abort` where that parser fails, and where the digit
      test is asked about a character with a radix above 36. */
  function RunNumber<T>(radix: nat, signed: bool, convert: int -> T, input: string): (r: Step<T>)
    ensures r.Step? ==> Within(r.rest, input)
  {
    var sign := if signed && |input| > 0 && input[0] == '-' then 1 else 0;
    if sign == |input| then Step(input, [])
    else if radix > 36 then Abort
    else
      var n := DigitRun(radix, input[sign..]);
      if n == 0 then Step(input, [])
      else
        match ParseDecimal(input[..sign + n], signed)
        case None => Abort
        case Some(v) => Step(input[sign + n..], [convert(v)])
  }

  function RunIgnore<T>(a: Tokenizer<T>, input: string): (r: Step<T>)
    ensures r.Step? ==> Within(r.rest, input)
    decreases Ignore(a), 0
  {
    match Run(a, input)
    case Abort => Abort
    case Step(rest, _) => Step(rest, [])
  }

  function RunAndThen<T>(a: Tokenizer<T>, b: Tokenizer<T>, input: string): (r: Step<T>)
    ensures r.Step? ==> Within(r.rest, input)
    decreases AndThen(a, b), 0
  {
    match Run(a, input)
    case Abort => Abort
    case Step(restA, tokensA) =>
      if restA == input then Step(input, [])
      else
        match Run(b, restA)
        case Abort => Abort
        case Step(restB, tokensB) =>
          if restB == restA then Step(input, []) else Step(restB, tokensA + tokensB)
  }

  function RunOr<T>(a: Tokenizer<T>, b: Tokenizer<T>, input: string): (r: Step<T>)
    ensures r.Step? ==> Within(r.rest, input)
    decreases Or(a, b), 0
  {
    match Run(a, input)
    case Abort => Abort
    case Step(restA, tokensA) =>
      if restA != input then Step(restA, tokensA)
      else
        match Run(b, input)
        case Abort => Abort
        case Step(restB, tokensB) =>
          if restB != input then Step(restB, tokensA + tokensB) else Step(input, [])
  }

  function RunRepeated<T>(a: Tokenizer<T>, min: nat, input: string): (r: Step<T>)
    ensures r.Step? ==> Within(r.rest, input)
    decreases Repeated(a, min), 0
  {
    match Iterate(a, input)
    case IterAbort => Abort
    case Iteration(count, rest, tokens) =>
      if count < min then Step(input, []) else Step(rest, tokens)
  }

  /** Runs `a` until a run leaves its input unchanged. Each counted run shortens the
      input, so there are at most as many as characters consumed. */
  function Iterate<T>(a: Tokenizer<T>, input: string): (r: Iteration<T>)
    ensures r.Iteration? ==> Within(r.rest, input) && r.count <= |input| - |r.rest|
    decreases a, |input| + 3
  {
    match Run(a, input)
    case Abort => IterAbort
    case Step(rest, tokens) =>
      if rest == input then Iteration(0, input, tokens)
      else
        match Iterate(a, rest)
        case IterAbort => IterAbort
        case Iteration(count, restN, tokensN) => Iteration(count + 1, restN, tokens + tokensN)
  }

  /** `process`: run on a fresh buffer and return the tokens and the remainder. */
  function Process<T>(t: Tokenizer<T>, input: string): (r: Option<(seq<T>, string)>)
        ensures r.None? <==> Run(t, input).Abort?
  {
    match Run(t, input)
    case Abort => None
    case Step(rest, tokens) => Some((tokens, rest))
  }

  // ---------------------------------------------------------------------------
  // The token buffer and the imperative tokenizers

  /** The caller-owned `Vec<T>` that every tokenizer appends to. */
  class TokenBuffer<T> {
    var items: seq<T>

    constructor ()
      ensures items == []
    {
      items := [];
    }

    method Push(x: T)
      modifies this
      ensures items == old(items) + [x]
    {
      items := items + [x];
    }

    /** `Vec::truncate`: shortens to `n` items; does nothing when already shorter. */
    method Truncate(n: nat)
      modifies this
      ensures items == if n < |old(items)| then old(items)[..n] else old(items)
    {
      if n < |items| {
        items := items[..n];
      }
    }
  }

  /** Truncating `x + y` to the length of `x` gives back `x`, whatever `y` is. */
  lemma TruncateRestores<T>(x: seq<T>, y: seq<T>)
    ensures (if |x| < |x + y| then (x + y)[..|x|] else x + y) == x + []
  {
    assert x + [] == x;
  }

  /** `Tag::tokenize`: walks the literal and the input side by side. */
  method TokenizeTag<T>(tag: string, token: T, input: string, out: TokenBuffer<T>) returns (rest: string)
    modifies out
    ensures RunTag(tag, token, input).Step?
    ensures rest == RunTag(tag, token, input).rest && out.items == old(out.items) + RunTag(tag, token, input).tokens
  {
    var i := 0;
    while i < |tag|
      invariant i <= |tag| && i <= |input|
      invariant tag[..i] == input[..i]
      invariant out.items == old(out.items)
    {
      if i >= |input| || tag[i] != input[i] {
        assert !(tag <= input);
        return input;
      }
      i := i + 1;
    }
    assert tag == input[..|tag|];
    out.Push(token);
    rest := input[|tag|..];
  }

  /** `Conditional::tokenize`: counts the characters that satisfy the condition. */
  method TokenizeConditional<T>(condition: (nat, char) -> bool, finalize: string -> T, allowEmpty: bool,
                                input: string, out: TokenBuffer<T>) returns (rest: string)
    modifies out
    ensures RunConditional(condition, finalize, allowEmpty, input).Step?
    ensures rest == RunConditional(condition, finalize, allowEmpty, input).rest && out.items == old(out.items) + RunConditional(condition, finalize, allowEmpty, input).tokens
  {
    var position := 0;
    while position < |input| && condition(position, input[position])
      invariant position <= |input|
      invariant forall i | 0 <= i < position :: condition(i, input[i])
    {
      position := position + 1;
    }
    PrefixLenUnique(condition, input, position);
    if !allowEmpty && position == 0 {
      return input;
    }
    out.Push(finalize(input[..position]));
    rest := input[position..];
  }

  /** `Number::tokenize`: an optional '-' when signed, then the maximal run of radix
      digits, converted with the decimal parser; `None` where the source panics. */
  method TokenizeNumber<T>(radix: nat, signed: bool, finalize: int -> T, input: string, out: TokenBuffer<T>)
    returns (rest: Option<string>)
    modifies out
    ensures RunNumber(radix, signed, finalize, input).Abort? <==> rest.None?
    ensures rest.Some? ==> rest.value == RunNumber(radix, signed, finalize, input).rest && out.items == old(out.items) + RunNumber(radix, signed, finalize, input).tokens
  {
    var len := 0;
    if signed {
      if |input| == 0 {
        return Some(input);
      }
      var c := input[0];
      if c != '-' {
        if radix > 36 {
          return None;
        }
        if !IsDigit(c, radix) {
          assert DigitRun(radix, input) == 0;
          return Some(input);
        }
      }
      if c == '-' {
        len := 1;
      }
    }
    if len >= |input| {
      return Some(input);
    }
    if radix > 36 {
      return None;
    }
    if !IsDigit(input[len], radix) {
      assert DigitRun(radix, input[len..]) == 0;
      return Some(input);
    }
    var digits := 0;
    while len + digits < |input| && IsDigit(input[len + digits], radix)
      invariant len + digits <= |input|
      invariant forall j | len <= j < len + digits :: IsDigit(input[j], radix)
    {
      digits := digits + 1;
    }
    PrefixLenUnique(DigitCondition(radix), input[len..], digits);
    len := len + digits;
    var value := ParseDecimal(input[..len], signed);
    if value.None? {
      return None;
    }
    out.Push(finalize(value.value));
    rest := Some(input[len..]);
  }

  /** Adds `count` earlier progressing runs and their `tokens` in front of an iteration. */
  function Shift<T>(count: nat, tokens: seq<T>, it: Iteration<T>): Iteration<T>
  {
    match it
    case IterAbort => IterAbort
    case Iteration(c, rest, ts) => Iteration(count + c, rest, tokens + ts)
  }

  /** `Tokenizer::tokenize` for every node; `None` where the source panics. */
  method Tokenize<T>(t: Tokenizer<T>, input: string, out: TokenBuffer<T>) returns (rest: Option<string>)
    modifies out
    ensures Run(t, input).Abort? <==> rest.None?
    ensures rest.Some? ==> rest.value == Run(t, input).rest && out.items == old(out.items) + Run(t, input).tokens
    decreases t, 2
  {
    match t
    case Tag(tag, token) =>
      var r := TokenizeTag(tag, token, input, out);
      rest := Some(r);
    case Conditional(condition, finalize, allowEmpty) =>
      var r := TokenizeConditional(condition, finalize, allowEmpty, input, out);
      rest := Some(r);
    case Any =>
      rest := if |input| == 0 then Some(input) else Some(input[1..]);
    case Number(radix, signed, convert) =>
      rest := TokenizeNumber(radix, signed, convert, input, out);
    case Ignore(a) =>
      rest := TokenizeIgnore(a, input, out);
    case AndThen(a, b) =>
      rest := TokenizeAndThen(a, b, input, out);
    case Or(a, b) =>
      rest := TokenizeOr(a, b, input, out);
    case Repeated(a, min) =>
      rest := TokenizeRepeated(a, min, input, out);
  }

  /** `Ignore::tokenize`: truncates the buffer back to its entry length. */
  method TokenizeIgnore<T>(a: Tokenizer<T>, input: string, out: TokenBuffer<T>) returns (rest: Option<string>)
    modifies out
    ensures Run(Ignore(a), input).Abort? <==> rest.None?
    ensures rest.Some? ==> rest.value == Run(Ignore(a), input).rest && out.items == old(out.items) + Run(Ignore(a), input).tokens
    decreases Ignore(a), 0
  {
    IgnoreNeverEmits(a, input);
    var start := |out.items|;
    rest := Tokenize(a, input, out);
    if rest.None? {
      return;
    }
    TruncateRestores(old(out.items), Run(a, input).tokens);
    out.Truncate(start);
  }

  /** `AndThen::tokenize`: when either part makes no progress, the buffer goes back
      to its entry length and the input is returned. */
  method TokenizeAndThen<T>(a: Tokenizer<T>, b: Tokenizer<T>, input: string, out: TokenBuffer<T>)
    returns (rest: Option<string>)
    modifies out
    ensures Run(AndThen(a, b), input).Abort? <==> rest.None?
    ensures rest.Some? ==> rest.value == Run(AndThen(a, b), input).rest && out.items == old(out.items) + Run(AndThen(a, b), input).tokens
    decreases AndThen(a, b), 1
  {
    AndThenCases(a, b, input);
    ghost var before := out.items;
    var start := |out.items|;
    var restA := Tokenize(a, input, out);
    if restA.None? {
      return None;
    }
    if restA.value == input {
      TruncateRestores(before, Run(a, input).tokens);
      out.Truncate(start);
      return Some(input);
    }
    rest := TokenizeAndThenSecond(a, b, input, restA.value, out, before, start);
  }

  /** The second half of `AndThen::tokenize`, entered when the first part made
      progress and its tokens are in the buffer. */
  method TokenizeAndThenSecond<T>(a: Tokenizer<T>, b: Tokenizer<T>, input: string, restA: string,
                                  out: TokenBuffer<T>, ghost before: seq<T>, start: nat)
    returns (rest: Option<string>)
    requires Run(a, input).Step? && Run(a, input).rest == restA && restA != input
    requires out.items == before + Run(a, input).tokens && start == |before|
    modifies out
    ensures Run(AndThen(a, b), input).Abort? <==> rest.None?
    ensures rest.Some? ==> rest.value == Run(AndThen(a, b), input).rest && out.items == before + Run(AndThen(a, b), input).tokens
    decreases AndThen(a, b), 0
  {
    AndThenSecondCases(a, b, input, restA);
    ghost var tokensA := Run(a, input).tokens;
    var restB := Tokenize(b, restA, out);
    if restB.None? {
      return None;
    }
    ghost var tokensB := Run(b, restA).tokens;
    AppendAssoc(before, tokensA, tokensB);
    if restB.value == restA {
      TruncateRestores(before, tokensA + tokensB);
      out.Truncate(start);
      return Some(input);
    }
    rest := restB;
  }

  /** `Or::tokenize`: the first alternative that makes progress wins; the buffer is
      truncated only when neither does. */
  method TokenizeOr<T>(a: Tokenizer<T>, b: Tokenizer<T>, input: string, out: TokenBuffer<T>)
    returns (rest: Option<string>)
    modifies out
    ensures Run(Or(a, b), input).Abort? <==> rest.None?
    ensures rest.Some? ==> rest.value == Run(Or(a, b), input).rest && out.items == old(out.items) + Run(Or(a, b), input).tokens
    decreases Or(a, b), 1
  {
    OrCases(a, b, input);
    ghost var before := out.items;
    var start := |out.items|;
    var restA := Tokenize(a, input, out);
    if restA.None? {
      return None;
    }
    if restA.value != input {
      return restA;
    }
    rest := TokenizeOrSecond(a, b, input, out, before, start);
  }

  /** The second half of `Or::tokenize`, entered when the first alternative made no
      progress and its tokens are still in the buffer. */
  method TokenizeOrSecond<T>(a: Tokenizer<T>, b: Tokenizer<T>, input: string, out: TokenBuffer<T>,
                             ghost before: seq<T>, start: nat)
    returns (rest: Option<string>)
    requires Run(a, input).Step? && Run(a, input).rest == input
    requires out.items == before + Run(a, input).tokens && start == |before|
    modifies out
    ensures Run(Or(a, b), input).Abort? <==> rest.None?
    ensures rest.Some? ==> rest.value == Run(Or(a, b), input).rest && out.items == before + Run(Or(a, b), input).tokens
    decreases Or(a, b), 0
  {
    OrSecondCases(a, b, input);
    ghost var tokensA := Run(a, input).tokens;
    var restB := Tokenize(b, input, out);
    if restB.None? {
      return None;
    }
    ghost var tokensB := Run(b, input).tokens;
    AppendAssoc(before, tokensA, tokensB);
    if restB.value != input {
      return restB;
    }
    TruncateRestores(before, tokensA + tokensB);
    out.Truncate(start);
    rest := Some(input);
  }

  /** `Repeated::tokenize`: runs the inner tokenizer while it makes progress; with
      fewer than `min` progressing runs it truncates the buffer and gives the input back. */
  method TokenizeRepeated<T>(a: Tokenizer<T>, min: nat, input: string, out: TokenBuffer<T>)
    returns (rest: Option<string>)
    modifies out
    ensures Run(Repeated(a, min), input).Abort? <==> rest.None?
    ensures rest.Some? ==> rest.value == Run(Repeated(a, min), input).rest && out.items == old(out.items) + Run(Repeated(a, min), input).tokens
    decreases Repeated(a, min), 0
  {
    RepeatedCases(a, min, input);
    var start := |out.items|;
    var counter := 0;
    var current := input;
    ghost var acc: seq<T> := [];
    while true
      invariant |current| <= |input|
      invariant out.items == old(out.items) + acc && start == |old(out.items)|
      invariant Iterate(a, input) == Shift(counter, acc, Iterate(a, current))
      decreases |current|
    {
      var last := current;
      IterateUnfold(a, last);
      var r := Tokenize(a, last, out);
      if r.None? {
        return None;
      }
      current := r.value;
      ghost var tokens := Run(a, last).tokens;
      ShiftShift(counter, acc, tokens, Iterate(a, current));
      AppendAssoc(old(out.items), acc, tokens);
      acc := acc + tokens;
      if current != last {
        counter := counter + 1;
      } else {
        assert Iterate(a, input) == Iteration(counter, last, acc);
        if counter < min {
          TruncateRestores(old(out.items), acc);
          out.Truncate(start);
          return Some(input);
        }
        return Some(current);
      }
    }
  }

  /** The meaning of `AndThen`, `Or` and `Repeated` nodes, case by case, in terms of
      their children. */
  lemma AndThenCases<T>(a: Tokenizer<T>, b: Tokenizer<T>, input: string)
    ensures Run(a, input).Abort? ==> Run(AndThen(a, b), input).Abort?
    ensures Run(a, input).Step? && Run(a, input).rest == input ==> Run(AndThen(a, b), input) == Step(input, [])
  {
    assert Run(AndThen(a, b), input) == RunAndThen(a, b, input);
  }

  lemma AndThenSecondCases<T>(a: Tokenizer<T>, b: Tokenizer<T>, input: string, restA: string)
    requires Run(a, input).Step? && Run(a, input).rest == restA && restA != input
    ensures Run(b, restA).Abort? ==> Run(AndThen(a, b), input).Abort?
    ensures Run(b, restA).Step? && Run(b, restA).rest == restA ==> Run(AndThen(a, b), input) == Step(input, [])
    ensures Run(b, restA).Step? && Run(b, restA).rest != restA ==>
              Run(AndThen(a, b), input) == Step(Run(b, restA).rest, Run(a, input).tokens + Run(b, restA).tokens)
  {
    assert Run(AndThen(a, b), input) == RunAndThen(a, b, input);
  }

  lemma OrCases<T>(a: Tokenizer<T>, b: Tokenizer<T>, input: string)
    ensures Run(a, input).Abort? ==> Run(Or(a, b), input).Abort?
    ensures Run(a, input).Step? && Run(a, input).rest != input ==> Run(Or(a, b), input) == Run(a, input)
  {
    assert Run(Or(a, b), input) == RunOr(a, b, input);
  }

  lemma OrSecondCases<T>(a: Tokenizer<T>, b: Tokenizer<T>, input: string)
    requires Run(a, input).Step? && Run(a, input).rest == input
    ensures Run(b, input).Abort? ==> Run(Or(a, b), input).Abort?
    ensures Run(b, input).Step? && Run(b, input).rest != input ==>
              Run(Or(a, b), input) == Step(Run(b, input).rest, Run(a, input).tokens + Run(b, input).tokens)
    ensures Run(b, input).Step? && Run(b, input).rest == input ==> Run(Or(a, b), input) == Step(input, [])
  {
    assert Run(Or(a, b), input) == RunOr(a, b, input);
  }

  lemma RepeatedCases<T>(a: Tokenizer<T>, min: nat, input: string)
    ensures Iterate(a, input).IterAbort? ==> Run(Repeated(a, min), input).Abort?
    ensures Iterate(a, input).Iteration? && Iterate(a, input).count < min ==> Run(Repeated(a, min), input) == Step(input, [])
    ensures Iterate(a, input).Iteration? && Iterate(a, input).count >= min ==>
              Run(Repeated(a, min), input) == Step(Iterate(a, input).rest, Iterate(a, input).tokens)
  {
    assert Run(Repeated(a, min), input) == RunRepeated(a, min, input);
  }

  /** One step of `Iterate`, spelled out for the loop above. */
  lemma IterateUnfold<T>(a: Tokenizer<T>, s: string)
    ensures Run(a, s).Abort? ==> Iterate(a, s).IterAbort?
    ensures Run(a, s).Step? && Run(a, s).rest == s ==> Iterate(a, s) == Iteration(0, s, Run(a, s).tokens)
    ensures Run(a, s).Step? && Run(a, s).rest != s ==>
              Iterate(a, s) == Shift(1, Run(a, s).tokens, Iterate(a, Run(a, s).rest))
  {
  }

  lemma ShiftShift<T>(count: nat, xs: seq<T>, ys: seq<T>, it: Iteration<T>)
    ensures Shift(count, xs, Shift(1, ys, it)) == Shift(count + 1, xs + ys, it)
    ensures Shift(count, xs, Shift(0, ys, it)) == Shift(count, xs + ys, it)
  {
    if it.Iteration? {
      assert xs + (ys + it.tokens) == xs + ys + it.tokens;
    }
  }

  /** `process` as the source runs it: a fresh buffer, one call of `tokenize`. */
  method ProcessText<T>(t: Tokenizer<T>, input: string) returns (tokens: seq<T>, rest: Option<string>)
    ensures Run(t, input).Abort? <==> rest.None?
    ensures rest.Some? ==> Process(t, input) == Some((tokens, rest.value))
  {
    var buffer := new TokenBuffer<T>();
    rest := Tokenize(t, input, buffer);
    tokens := buffer.items;
    if rest.Some? {
      assert tokens == Run(t, input).tokens;
    }
  }

  // ---------------------------------------------------------------------------
  // Properties of the combinators

  /** No leaf of `t` can append a token without consuming: no empty literal and no
      `Conditional` that accepts an empty run. */
  predicate NoEmptyMatch<T>(t: Tokenizer<T>)
  {
    match t
    case Tag(tag, _) => tag != []
    case Conditional(_, _, allowEmpty) => !allowEmpty
    case Ignore(a) => NoEmptyMatch(a)
    case AndThen(a, b) => NoEmptyMatch(a) && NoEmptyMatch(b)
    case Or(a, b) => NoEmptyMatch(a) && NoEmptyMatch(b)
    case Repeated(a, _) => NoEmptyMatch(a)
    case _ => true
  }

  /** The all-or-nothing contract: a tokenizer without empty-matching leaves that
      returns its input unchanged has appended nothing. */
  lemma {:induction false} AllOrNothing<T>(t: Tokenizer<T>, input: string)
    requires NoEmptyMatch(t)
    ensures Run(t, input).Step? && Run(t, input).rest == input ==> Run(t, input).tokens == []
    decreases t
  {
    match t
    case Tag(tag, token) =>
      assert Run(t, input) == RunTag(tag, token, input);
    case Conditional(condition, finalize, allowEmpty) =>
      assert Run(t, input) == RunConditional(condition, finalize, allowEmpty, input);
    case Any =>
      assert Run(t, input) == RunAny(input);
    case Number(radix, signed, convert) =>
      assert Run(t, input) == RunNumber(radix, signed, convert, input);
    case Ignore(a) =>
      assert Run(t, input) == RunIgnore(a, input);
    case AndThen(a, b) =>
      assert Run(t, input) == RunAndThen(a, b, input);
    case Or(a, b) =>
      assert Run(t, input) == RunOr(a, b, input);
    case Repeated(a, min) =>
      assert Run(t, input) == RunRepeated(a, min, input);
      AllOrNothing(a, input);
      IterateUnfold(a, input);
  }

  /** The contract does not hold without that restriction: an empty literal appends
      its token and consumes nothing, and a repetition keeps that token. */
  lemma EmptyTagEmitsWithoutConsuming<T>(token: T, input: string)
    ensures Run(Tag("", token), input) == Step(input, [token])
    ensures Run(Repeated(Tag("", token), 0), input) == Step(input, [token])
  {
    assert Run(Tag("", token), input) == RunTag("", token, input) == Step(input, [token]);
    IterateUnfold(Tag("", token), input);
    assert Run(Repeated(Tag("", token), 0), input) == RunRepeated(Tag("", token), 0, input);
  }

  /** A non-consuming first alternative keeps its tokens when the second consumes. */
  lemma OrKeepsTokensOfNonConsumingFirst<T>(a: Tokenizer<T>, b: Tokenizer<T>, input: string)
    requires Run(a, input).Step? && Run(a, input).rest == input
    requires Run(b, input).Step? && Run(b, input).rest != input
    ensures Run(Or(a, b), input) == Step(Run(b, input).rest, Run(a, input).tokens + Run(b, input).tokens)
  {
    assert Run(Or(a, b), input) == RunOr(a, b, input);
  }

  /** `Or` prefers the first alternative whenever it makes progress. */
  lemma OrPrefersFirst<T>(a: Tokenizer<T>, b: Tokenizer<T>, input: string)
    requires Run(a, input).Step? && Run(a, input).rest != input
    ensures Run(Or(a, b), input) == Run(a, input)
  {
    assert Run(Or(a, b), input) == RunOr(a, b, input);
  }

  /** A sequence whose second part makes no progress fails as a whole, even when that
      second part is a repetition with no minimum that "succeeds" zero times. */
  lemma AndThenZeroRepetitionFails<T>(a: Tokenizer<T>, b: Tokenizer<T>, input: string)
    requires Run(a, input).Step? && Run(a, input).rest != input
    requires Run(b, Run(a, input).rest).Step? && Run(b, Run(a, input).rest).rest == Run(a, input).rest
    ensures Run(AndThen(a, Repeated(b, 0)), input) == Step(input, [])
  {
    var restA := Run(a, input).rest;
    IterateUnfold(b, restA);
    assert Run(Repeated(b, 0), restA) == RunRepeated(b, 0, restA);
    assert Run(AndThen(a, Repeated(b, 0)), input) == RunAndThen(a, Repeated(b, 0), input);
  }

  /** `Ignore` keeps the inner remainder and never leaves tokens behind. */
  lemma IgnoreNeverEmits<T>(a: Tokenizer<T>, input: string)
    ensures Run(a, input).Abort? <==> Run(Ignore(a), input).Abort?
    ensures Run(Ignore(a), input).Step? ==> Run(Ignore(a), input) == Step(Run(a, input).rest, [])
  {
    assert Run(Ignore(a), input) == RunIgnore(a, input);
  }

  /** A repetition with a minimum of one over a tokenizer that makes no progress
      returns its input with no tokens. */
  lemma RepeatedOneWithoutMatch<T>(a: Tokenizer<T>, input: string)
    requires Run(a, input).Step? && Run(a, input).rest == input
    ensures Run(Repeated(a, 1), input) == Step(input, [])
  {
    IterateUnfold(a, input);
    assert Run(Repeated(a, 1), input) == RunRepeated(a, 1, input);
  }

  /** What a tokenizer returns is always a suffix of its input: tokenizers only ever
      consume from the front. */
  lemma {:induction false} RunYieldsSuffix<T>(t: Tokenizer<T>, input: string)
    ensures Run(t, input).Step? ==> IsSuffix(Run(t, input).rest, input)
    decreases t, 1
  {
    match t
    case Tag(tag, token) =>
      assert Run(t, input) == RunTag(tag, token, input);
    case Conditional(condition, finalize, allowEmpty) =>
      assert Run(t, input) == RunConditional(condition, finalize, allowEmpty, input);
    case Any =>
      assert Run(t, input) == RunAny(input);
    case Number(radix, signed, convert) =>
      assert Run(t, input) == RunNumber(radix, signed, convert, input);
    case Ignore(a) =>
      assert Run(t, input) == RunIgnore(a, input);
      RunYieldsSuffix(a, input);
    case AndThen(a, b) =>
      assert Run(t, input) == RunAndThen(a, b, input);
      RunYieldsSuffix(a, input);
      if Run(a, input).Step? {
        RunYieldsSuffix(b, Run(a, input).rest);
        if Run(b, Run(a, input).rest).Step? {
          SuffixTransitive(Run(b, Run(a, input).rest).rest, Run(a, input).rest, input);
        }
      }
    case Or(a, b) =>
      assert Run(t, input) == RunOr(a, b, input);
      RunYieldsSuffix(a, input);
      RunYieldsSuffix(b, input);
    case Repeated(a, min) =>
      assert Run(t, input) == RunRepeated(a, min, input);
      IterateYieldsSuffix(a, input);
  }

  lemma {:induction false} IterateYieldsSuffix<T>(a: Tokenizer<T>, input: string)
    ensures Iterate(a, input).Iteration? ==> IsSuffix(Iterate(a, input).rest, input)
    decreases a, |input| + 2
  {
    RunYieldsSuffix(a, input);
    IterateUnfold(a, input);
    if Run(a, input).Step? && Run(a, input).rest != input {
      var rest := Run(a, input).rest;
      IterateYieldsSuffix(a, rest);
      if Iterate(a, rest).Iteration? {
        SuffixTransitive(Iterate(a, rest).rest, rest, input);
      }
    }
  }

  /** Built without `Number`, the only node whose conversion can panic. */
  predicate WithoutNumber<T>(t: Tokenizer<T>)
  {
    match t
    case Number(_, _, _) => false
    case Ignore(a) => WithoutNumber(a)
    case AndThen(a, b) => WithoutNumber(a) && WithoutNumber(b)
    case Or(a, b) => WithoutNumber(a) && WithoutNumber(b)
    case Repeated(a, _) => WithoutNumber(a)
    case _ => true
  }

  /** Only `Number` can abort: every other tokenizer always returns a remainder. */
  lemma {:induction false} RunWithoutNumberSucceeds<T>(t: Tokenizer<T>, input: string)
    requires WithoutNumber(t)
    ensures Run(t, input).Step?
    decreases t, 0
  {
    match t
    case Tag(tag, token) =>
      assert Run(t, input) == RunTag(tag, token, input);
    case Conditional(condition, finalize, allowEmpty) =>
      assert Run(t, input) == RunConditional(condition, finalize, allowEmpty, input);
    case Any =>
      assert Run(t, input) == RunAny(input);
    case Number(_, _, _) =>
    case Ignore(a) =>
      assert Run(t, input) == RunIgnore(a, input);
      RunWithoutNumberSucceeds(a, input);
    case AndThen(a, b) =>
      assert Run(t, input) == RunAndThen(a, b, input);
      RunWithoutNumberSucceeds(a, input);
      RunWithoutNumberSucceeds(b, Run(a, input).rest);
    case Or(a, b) =>
      assert Run(t, input) == RunOr(a, b, input);
      RunWithoutNumberSucceeds(a, input);
      RunWithoutNumberSucceeds(b, input);
    case Repeated(a, min) =>
      assert Run(t, input) == RunRepeated(a, min, input);
      IterateWithoutNumberSucceeds(a, input);
  }

  lemma {:induction false} IterateWithoutNumberSucceeds<T>(a: Tokenizer<T>, input: string)
    requires WithoutNumber(a)
    ensures Iterate(a, input).Iteration?
    decreases a, |input| + 1
  {
    RunWithoutNumberSucceeds(a, input);
    IterateUnfold(a, input);
    if Run(a, input).rest != input {
      IterateWithoutNumberSucceeds(a, Run(a, input).rest);
    }
  }

  /** Whenever a tokenizer consumes, it strictly shortens its input; so every
      repetition ends, after at most |input| progressing runs. */
  lemma ProgressShortens<T>(t: Tokenizer<T>, input: string)
    requires Run(t, input).Step? && Run(t, input).rest != input
    ensures |Run(t, input).rest| < |input|
  {
  }

  /** `Number` recognises digits by radix but converts them with the decimal parser:
      the binary digits "101" become one hundred and one, not five. */
  lemma BinaryDigitsReadAsDecimal<T>(finalize: int -> T)
    ensures Run(Number(2, false, finalize), "101") == Step("", [finalize(101)])
  {
    assert DigitRun(2, "101") == 3 by {
      PrefixLenUnique(DigitCondition(2), "101", 3);
    }
    assert "101"[..2] == "10" && "10"[..1] == "1" && "1"[..0] == "";
    assert AllDecimal("101");
    assert DecimalValue("101") == 101;
    assert "101"[0..] == "101" && "101"[..0 + 3] == "101";
    assert ParseDecimal("101", false) == Some(101);
    assert Run(Number(2, false, finalize), "101") == RunNumber(2, false, finalize, "101");
  }

  /** Hexadecimal digits are recognised but cannot be parsed as decimal: the source
      panics on "ff". */
  lemma HexDigitsAbort<T>(finalize: int -> T)
    ensures Run(Number(16, false, finalize), "ff") == Abort
  {
    assert DigitRun(16, "ff") == 2 by {
      PrefixLenUnique(DigitCondition(16), "ff", 2);
    }
    assert !AllDecimal("ff") by {
      assert "ff"[..1] == "f";
    }
    assert "ff"[0..] == "ff" && "ff"[..0 + 2] == "ff";
    assert Run(Number(16, false, finalize), "ff") == RunNumber(16, false, finalize, "ff");
  }

  /** A signed number whose '-' is not followed by a digit un-consumes the '-'. */
  lemma SignedMinusAloneFails<T>(radix: nat, finalize: int -> T, input: string)
    requires radix <= 36
    requires |input| > 0 && input[0] == '-'
    requires |input| == 1 || !IsDigit(input[1], radix)
    ensures Run(Number(radix, true, finalize), input) == Step(input, [])
  {
    assert Run(Number(radix, true, finalize), input) == RunNumber(radix, true, finalize, input);
    if |input| > 1 {
      assert DigitRun(radix, input[1..]) == 0;
    }
  }

  // ---------------------------------------------------------------------------
  // Token-stream parsers

  /** `ParserUntilFn`: consume tokens while `condition` holds. */
  datatype UntilFn<!T, O> = UntilFn(
    condition: T -> bool,
    f: seq<T> -> Option<O>,
    exhaust: bool,
    removeEnd: bool,
    includeEnd: bool)

  /** A token condition as a condition on (position, token). */
  function Indexed<T>(condition: T -> bool): (nat, T) -> bool
  {
    (i: nat, x: T) => condition(x)
  }

  /** The output and the remainder of `ParserUntilFn::parse`. */
  function ParseUntil<T, O>(p: UntilFn<T, O>, input: seq<T>): (r: (Option<O>, seq<T>))
    ensures |r.1| <= |input|
  {
    var counter := PrefixLen(Indexed(p.condition), input);
    var end := Min(counter + 1, |input|);
    if !p.exhaust && counter == |input| then (None, input[counter..])
    else
      var output := if p.includeEnd then p.f(input[..end]) else p.f(input[..counter]);
      var remainder := if p.removeEnd then input[end..] else input[counter..];
      (output, remainder)
  }

  /** `ParserUntilFn::parse`, counting the matching tokens with a loop. */
  method ParseUntilLoop<T, O>(p: UntilFn<T, O>, input: seq<T>) returns (output: Option<O>, remainder: seq<T>)
    ensures (output, remainder) == ParseUntil(p, input)
  {
    var counter := 0;
    while counter < |input| && p.condition(input[counter])
      invariant counter <= |input|
      invariant forall i | 0 <= i < counter :: p.condition(input[i])
    {
      counter := counter + 1;
    }
    PrefixLenUnique(Indexed(p.condition), input, counter);
    if !p.exhaust && counter == |input| {
      return None, input[counter..];
    }
    var end := Min(counter + 1, |input|);
    output := if p.includeEnd then p.f(input[..end]) else p.f(input[..counter]);
    remainder := if p.removeEnd then input[end..] else input[counter..];
  }

  /** An all-matching slice without `exhaust` yields no output and consumes all. */
  lemma UntilWithoutExhaustFails<T, O>(p: UntilFn<T, O>, input: seq<T>)
    requires !p.exhaust
    requires forall i | 0 <= i < |input| :: p.condition(input[i])
    ensures ParseUntil(p, input) == (None, [])
  {
    PrefixLenUnique(Indexed(p.condition), input, |input|);
  }

  /** The finalizer sees exactly the matching prefix, plus the terminator when
      `includeEnd` is set; the remainder skips the terminator when `removeEnd` is set. */
  lemma UntilSplitsAtTerminator<T, O>(p: UntilFn<T, O>, input: seq<T>, k: nat)
    requires k < |input| && !p.condition(input[k])
    requires forall i | 0 <= i < k :: p.condition(input[i])
    ensures ParseUntil(p, input).0 == p.f(if p.includeEnd then input[..k + 1] else input[..k])
    ensures ParseUntil(p, input).1 == if p.removeEnd then input[k + 1..] else input[k..]
  {
    PrefixLenUnique(Indexed(p.condition), input, k);
  }

  /** Outcome of `ParserRepeat`: the collected outputs and the remainder, or
      `Diverges` where the inner parser stops making progress on a non-empty slice
      and the source would call it on that same slice forever. */
  datatype Collected<T, O> = Collected(outputs: seq<O>, rest: seq<T>) | Diverges

  /** The outputs an optional result contributes. */
  function Emitted<O>(o: Option<O>): seq<O>
  {
    if o.Some? then [o.value] else []
  }

  function ParseRepeat<T, O>(p: UntilFn<T, O>, input: seq<T>): (r: Collected<T, O>)
    ensures r.Collected? ==> r.rest == []
    ensures r.Collected? ==> |r.outputs| <= |input| + 1
    decreases |input|
  {
    var (output, rest) := ParseUntil(p, input);
    if |rest| == 0 then Collected(Emitted(output), rest)
    else if |rest| == |input| then Diverges
    else Prepend(Emitted(output), ParseRepeat(p, rest))
  }

  /** `ParserRepeat::parse`: calls the inner parser at least once and collects its
      outputs in order until the slice is empty. */
  method ParseRepeatLoop<T, O>(p: UntilFn<T, O>, input: seq<T>) returns (r: Collected<T, O>)
    ensures r == ParseRepeat(p, input)
  {
    var result: seq<O> := [];
    var current := input;
    while true
      invariant ParseRepeat(p, input) == Prepend(result, ParseRepeat(p, current))
      decreases |current|
    {
      var output, rest := ParseUntilLoop(p, current);
      ParseRepeatStep(p, current);
      ghost var before := result;
      if output.Some? {
        result := result + [output.value];
      }
      assert result == before + Emitted(output);
      if |rest| == 0 {
        return Collected(result, rest);
      }
      if |rest| == |current| {
        return Diverges;
      }
      PrependPrepend(before, Emitted(output), ParseRepeat(p, rest));
      current := rest;
    }
  }

  function Prepend<T, O>(outputs: seq<O>, c: Collected<T, O>): Collected<T, O>
  {
    match c
    case Diverges => Diverges
    case Collected(os, rest) => Collected(outputs + os, rest)
  }

  /** One call of the inner parser within `ParseRepeat`, spelled out. */
  lemma ParseRepeatStep<T, O>(p: UntilFn<T, O>, s: seq<T>)
    ensures |ParseUntil(p, s).1| == 0 ==> ParseRepeat(p, s) == Collected(Emitted(ParseUntil(p, s).0), [])
    ensures 0 < |ParseUntil(p, s).1| == |s| ==> ParseRepeat(p, s) == Diverges
    ensures 0 < |ParseUntil(p, s).1| < |s| ==>
              ParseRepeat(p, s) == Prepend(Emitted(ParseUntil(p, s).0), ParseRepeat(p, ParseUntil(p, s).1))
  {
  }

  lemma PrependPrepend<T, O>(xs: seq<O>, ys: seq<O>, c: Collected<T, O>)
    ensures Prepend(xs, Prepend(ys, c)) == Prepend(xs + ys, c)
  {
    if c.Collected? {
      AppendAssoc(xs, ys, c.outputs);
    }
  }

  /** With `removeEnd` set, every call consumes at least one token of a non-empty
      slice, so the repetition never diverges. */
  lemma {:induction false} RepeatWithRemoveEndTerminates<T, O>(p: UntilFn<T, O>, input: seq<T>)
    requires p.removeEnd
    ensures ParseRepeat(p, input).Collected?
    decreases |input|
  {
    var (output, rest) := ParseUntil(p, input);
    if |rest| != 0 {
      assert |rest| < |input|;
      RepeatWithRemoveEndTerminates(p, rest);
    }
  }
}
