/** Day 3 of 2024: a corrupted program text holds `mul(a,b)`, `do()` and `don't()`
    instructions among noise. The text is tokenized with the combinator library,
    3-token windows become instructions, and the products are summed, in part b
    only while multiplication is enabled. */
module Y2024Day03 {
  import opened Common
  import opened Parser

  datatype Token = MulToken | Num(value: int) | DoToken | DontToken

  datatype Inst = Mul(a: int, b: int) | Do | Dont

  predicate IsDecimalDigit(c: char)
  {
    '0' <= c <= '9'
  }

  // ---------------------------------------------------------------------------
  // The grammar

  /** `c.parse::<i64>().unwrap()`; the digit condition admits only one to three
      decimal digits, so the parse always succeeds and the `0` is never used. */
  function NumberToken(s: string): Token
  {
    match ParseDecimal(s, true)
    case Some(v) => Num(v)
    case None => Num(0)
  }

  /** One to three decimal digits, as one `Num` token. */
  function DigitToken(): Tokenizer<Token>
  {
    Conditional1Pos((p: nat, c: char) => p < 3 && IsDecimalDigit(c), (s: string) => NumberToken(s))
  }

  /** `mul(`, a number, `,`, a number, `)`; the separators leave no token. */
  function MulTokenizer(): Tokenizer<Token>
  {
    AndThen(AndThen(AndThen(AndThen(Tag("mul(", MulToken), DigitToken()), Ignore(Tag(",", MulToken))),
                    DigitToken()),
            Ignore(Tag(")", MulToken)))
  }

  /** One instruction, or else one character skipped. */
  function Instruction(): Tokenizer<Token>
  {
    Or(Or(Or(MulTokenizer(), Tag("do()", DoToken)), Tag("don't()", DontToken)), Any)
  }

  function Grammar(): Tokenizer<Token>
  {
    Repeated(Instruction(), 0)
  }

  // ---------------------------------------------------------------------------
  // What the grammar reads

  lemma {:induction false} DigitsAreDecimal(s: string)
    requires forall i | 0 <= i < |s| :: IsDecimalDigit(s[i])
    ensures AllDecimal(s)
  {
    if s != [] {
      DigitsAreDecimal(s[..|s| - 1]);
    }
  }

  lemma {:induction false} DecimalBelowPower(s: string)
    requires AllDecimal(s)
    ensures DecimalValue(s) < Pow10(|s|)
  {
    if s != [] {
      DecimalBelowPower(s[..|s| - 1]);
    }
  }

  /** A run of up to three digits becomes the token of its decimal value. */
  lemma NumberTokenOfDigits(s: string)
    requires 1 <= |s| <= 3
    requires forall i | 0 <= i < |s| :: IsDecimalDigit(s[i])
    ensures AllDecimal(s) && NumberToken(s) == Num(DecimalValue(s))
  {
    DigitsAreDecimal(s);
    DecimalBelowPower(s);
    assert Pow10(|s|) <= 1000;
  }

  /** The number token takes the longest run of decimal digits, but at most three,
      and reads it as a decimal number. */
  lemma DigitTokenReads(input: string, n: nat)
    requires 1 <= n <= 3 && n <= |input|
    requires forall i | 0 <= i < n :: IsDecimalDigit(input[i])
    requires n < 3 && n < |input| ==> !IsDecimalDigit(input[n])
    ensures AllDecimal(input[..n])
    ensures Run(DigitToken(), input) == Step(input[n..], [Num(DecimalValue(input[..n]))])
  {
    var t := DigitToken();
    PrefixLenUnique(t.condition, input, n);
    NumberTokenOfDigits(input[..n]);
    assert Run(t, input) == RunConditional(t.condition, t.finalize, false, input);
  }

  /** Without a leading digit the number token consumes nothing and appends nothing. */
  lemma DigitTokenNeedsDigit(input: string)
    requires input == [] || !IsDecimalDigit(input[0])
    ensures Run(DigitToken(), input) == Step(input, [])
  {
    var t := DigitToken();
    PrefixLenUnique(t.condition, input, 0);
    assert Run(t, input) == RunConditional(t.condition, t.finalize, false, input);
  }

  /** An ignored literal that matches: consumed, no token. */
  lemma IgnoredTagMatches(tag: string, input: string, rest: string)
    requires input == tag + rest
    ensures Run(Ignore(Tag(tag, MulToken)), input) == Step(rest, [])
  {
    IgnoreNeverEmits(Tag(tag, MulToken), input);
    assert tag <= input && input[|tag|..] == rest;
    assert Run(Tag(tag, MulToken), input) == RunTag(tag, MulToken, input);
  }

  /** The first three parts of `mul(` a `,` b `)`: the literal, the first number
      and the ignored comma. */
  lemma MulHeadReads(x: string, tail: string)
    requires 1 <= |x| <= 3 && forall i | 0 <= i < |x| :: IsDecimalDigit(x[i])
    ensures AllDecimal(x)
    ensures Run(AndThen(AndThen(Tag("mul(", MulToken), DigitToken()), Ignore(Tag(",", MulToken))),
                "mul(" + x + "," + tail)
         == Step(tail, [MulToken, Num(DecimalValue(x))])
  {
    var s0 := "mul(" + x + "," + tail;
    var s1 := x + "," + tail;
    var s2 := "," + tail;
    assert "mul(" <= s0 && s0[4..] == s1;
    assert Run(Tag("mul(", MulToken), s0) == RunTag("mul(", MulToken, s0) == Step(s1, [MulToken]);
    assert s1[..|x|] == x && s1[|x|..] == s2 && s1[|x|] == ',';
    DigitTokenReads(s1, |x|);
    AndThenSecondCases(Tag("mul(", MulToken), DigitToken(), s0, s1);
    var first := AndThen(Tag("mul(", MulToken), DigitToken());
    assert Run(first, s0) == Step(s2, [MulToken, Num(DecimalValue(x))]);
    IgnoredTagMatches(",", s2, tail);
    AndThenSecondCases(first, Ignore(Tag(",", MulToken)), s0, s2);
  }

  /** `mul(a,b)` with one to three digits each appends exactly `Mul, Num(a), Num(b)`
      and consumes the whole instruction. */
  lemma MulReads(x: string, y: string, rest: string)
    requires 1 <= |x| <= 3 && forall i | 0 <= i < |x| :: IsDecimalDigit(x[i])
    requires 1 <= |y| <= 3 && forall i | 0 <= i < |y| :: IsDecimalDigit(y[i])
    ensures AllDecimal(x) && AllDecimal(y)
    ensures Run(MulTokenizer(), "mul(" + x + "," + y + ")" + rest)
         == Step(rest, [MulToken, Num(DecimalValue(x)), Num(DecimalValue(y))])
  {
    var s0 := "mul(" + x + "," + y + ")" + rest;
    var s4 := ")" + rest;
    var s3 := y + s4;
    assert s0 == "mul(" + x + "," + s3;
    MulHeadReads(x, s3);
    var head := AndThen(AndThen(Tag("mul(", MulToken), DigitToken()), Ignore(Tag(",", MulToken)));
    assert s3[..|y|] == y && s3[|y|..] == s4;
    assert s3[|y|] == s4[0] == ')';
    DigitTokenReads(s3, |y|);
    AndThenSecondCases(head, DigitToken(), s0, s3);
    var body := AndThen(head, DigitToken());
    assert Run(body, s0) == Step(s4, [MulToken, Num(DecimalValue(x)), Num(DecimalValue(y))]);
    IgnoredTagMatches(")", s4, rest);
    AndThenSecondCases(body, Ignore(Tag(")", MulToken)), s0, s4);
  }

  /** A `mul(a,b` whose closing parenthesis is missing rolls back entirely: nothing
      consumed and nothing appended. */
  lemma MulWithoutParenRollsBack(x: string, y: string, rest: string)
    requires 1 <= |x| <= 3 && forall i | 0 <= i < |x| :: IsDecimalDigit(x[i])
    requires 1 <= |y| <= 3 && forall i | 0 <= i < |y| :: IsDecimalDigit(y[i])
    requires rest == [] || (rest[0] != ')' && !IsDecimalDigit(rest[0]))
    ensures Run(MulTokenizer(), "mul(" + x + "," + y + rest) == Step("mul(" + x + "," + y + rest, [])
  {
    var s0 := "mul(" + x + "," + y + rest;
    var s3 := y + rest;
    assert s0 == "mul(" + x + "," + s3;
    MulHeadReads(x, s3);
    var head := AndThen(AndThen(Tag("mul(", MulToken), DigitToken()), Ignore(Tag(",", MulToken)));
    assert s3[..|y|] == y && s3[|y|..] == rest;
    DigitTokenReads(s3, |y|);
    AndThenSecondCases(head, DigitToken(), s0, s3);
    var body := AndThen(head, DigitToken());
    assert Run(body, s0).Step? && Run(body, s0).rest == rest;
    IgnoreNeverEmits(Tag(")", MulToken), rest);
    assert !(")" <= rest);
    assert Run(Tag(")", MulToken), rest) == RunTag(")", MulToken, rest);
    AndThenSecondCases(body, Ignore(Tag(")", MulToken)), s0, rest);
  }

  /** On non-empty text one instruction step always consumes: if no instruction
      matches, `any` skips a character. */
  lemma InstructionProgresses(s: string)
    requires s != []
    ensures Run(Instruction(), s).Step? && Run(Instruction(), s).rest != s
  {
    var known := Or(Or(MulTokenizer(), Tag("do()", DoToken)), Tag("don't()", DontToken));
    RunWithoutNumberSucceeds(known, s);
    OrCases(known, Any, s);
    if Run(known, s).rest == s {
      OrSecondCases(known, Any, s);
      assert Run<Token>(Any, s) == RunAny<Token>(s);
    }
  }

  lemma {:induction false} IterationConsumesAll(s: string)
    ensures Iterate(Instruction(), s).Iteration? && Iterate(Instruction(), s).rest == ""
    decreases |s|
  {
    RunWithoutNumberSucceeds(Instruction(), s);
    IterateUnfold(Instruction(), s);
    if s != [] {
      InstructionProgresses(s);
      IterationConsumesAll(Run(Instruction(), s).rest);
    }
  }

  /** The repeated alternation never fails and always consumes the whole text. */
  lemma GrammarConsumesAll(content: string)
    ensures Process(Grammar(), content).Some? && Process(Grammar(), content).value.1 == ""
  {
    IterationConsumesAll(content);
    RepeatedCases(Instruction(), 0, content);
  }

  /** The tokens of the whole text. */
  function Tokens(content: string): seq<Token>
  {
    match Run(Grammar(), content)
    case Step(_, tokens) => tokens
    case Abort => []
  }

  // ---------------------------------------------------------------------------
  // From tokens to instructions

  /** One 3-token window: `Mul, Num a, Num b` is a multiplication, a window that
      starts with a toggle is that toggle, anything else is noise. */
  function Window(x: Token, y: Token, z: Token): seq<Inst>
  {
    match x
    case MulToken => if y.Num? && z.Num? then [Mul(y.value, z.value)] else []
    case DoToken => [Do]
    case DontToken => [Dont]
    case Num(_) => []
  }

  /** The instructions of all windows, in order; a window starts at every token with
      two more after it, so there are at most |tokens| - 2 of them. */
  function Instructions(tokens: seq<Token>): (r: seq<Inst>)
    ensures |r| <= if |tokens| < 3 then 0 else |tokens| - 2
  {
    if |tokens| < 3 then [] else Window(tokens[0], tokens[1], tokens[2]) + Instructions(tokens[1..])
  }

  /** A new last token adds exactly the window that ends with it: in particular a
      toggle among the last two tokens starts no window and is dropped. */
  lemma {:induction false} InstructionsSnoc(tokens: seq<Token>, x: Token)
    ensures Instructions(tokens + [x])
         == Instructions(tokens) + (if |tokens| < 2 then [] else Window(tokens[|tokens| - 2], tokens[|tokens| - 1], x))
  {
    if |tokens| >= 3 {
      assert (tokens + [x])[1..] == tokens[1..] + [x];
      InstructionsSnoc(tokens[1..], x);
      AppendAssoc(Window(tokens[0], tokens[1], tokens[2]), Instructions(tokens[1..]),
                  Window(tokens[|tokens| - 2], tokens[|tokens| - 1], x));
    } else if |tokens| == 2 {
      assert (tokens + [x])[1..] == [tokens[1], x];
    }
  }

  /** `parse`: tokenize the whole text, then read the windows. */
  method Parse(content: string) returns (insts: seq<Inst>)
    ensures insts == Instructions(Tokens(content))
  {
    GrammarConsumesAll(content);
    var tokens, rest := ProcessText(Grammar(), content);
    insts := Instructions(tokens);
  }

  // ---------------------------------------------------------------------------
  // The two parts

  function Product(inst: Inst): int
  {
    if inst.Mul? then inst.a * inst.b else 0
  }

  /** Part a: every product counts. */
  function PartA(insts: seq<Inst>): int
  {
    if insts == [] then 0 else Product(insts[0]) + PartA(insts[1..])
  }

  /** Part a sums over runs of instructions laid end to end. */
  lemma {:induction false} PartAAppend(a: seq<Inst>, b: seq<Inst>)
    ensures PartA(a + b) == PartA(a) + PartA(b)
  {
    if a == [] {
      assert a + b == b;
    } else {
      assert (a + b)[1..] == a[1..] + b;
      PartAAppend(a[1..], b);
    }
  }

  /** Only `mul` instructions count in part a; `do()` and `don't()` add nothing. */
  lemma PartAOnlyProducts(insts: seq<Inst>, i: nat)
    requires i < |insts|
    ensures PartA(insts) == PartA(insts[..i]) + Product(insts[i]) + PartA(insts[i + 1..])
    ensures !insts[i].Mul? ==> PartA(insts) == PartA(insts[..i] + insts[i + 1..])
  {
    assert insts == insts[..i] + ([insts[i]] + insts[i + 1..]);
    PartAAppend(insts[..i], [insts[i]] + insts[i + 1..]);
    assert ([insts[i]] + insts[i + 1..])[1..] == insts[i + 1..];
    PartAAppend(insts[..i], insts[i + 1..]);
  }

  /** Part b, specified as a scan from the front: the products that `enabled`
      admits, where `Do` and `Dont` switch it. */
  function EnabledSum(insts: seq<Inst>, enabled: bool): int
  {
    if insts == [] then 0
    else
      match insts[0]
      case Mul(a, b) => (if enabled then a * b else 0) + EnabledSum(insts[1..], enabled)
      case Do => EnabledSum(insts[1..], true)
      case Dont => EnabledSum(insts[1..], false)
  }

  /** `part_b`: starts enabled, toggles on `Do`/`Dont`, adds enabled products. */
  method PartB(insts: seq<Inst>) returns (sum: int)
    ensures sum == EnabledSum(insts, true)
  {
    sum := 0;
    var enabled := true;
    for i := 0 to |insts|
      invariant sum + EnabledSum(insts[i..], enabled) == EnabledSum(insts, true)
    {
      assert insts[i..][1..] == insts[i + 1..];
      match insts[i]
      case Mul(a, b) =>
        sum := sum + a * b * (if enabled then 1 else 0);
      case Do =>
        enabled := true;
      case Dont =>
        enabled := false;
    }
  }

  /** Without a `Dont` nothing is ever disabled and part b is part a. */
  lemma {:induction false} WithoutDontAllCount(insts: seq<Inst>)
    requires forall i | 0 <= i < |insts| :: insts[i] != Dont
    ensures EnabledSum(insts, true) == PartA(insts)
  {
    if insts != [] {
      WithoutDontAllCount(insts[1..]);
    }
  }

  /** Once disabled, nothing counts until the next `Do`. */
  lemma {:induction false} DisabledCountsNothing(insts: seq<Inst>)
    requires forall i | 0 <= i < |insts| :: insts[i] != Do
    ensures EnabledSum(insts, false) == 0
  {
    if insts != [] {
      DisabledCountsNothing(insts[1..]);
    }
  }

  /** With non-negative products, part b never exceeds part a. */
  lemma {:induction false} EnabledAtMostAll(insts: seq<Inst>, enabled: bool)
    requires forall i | 0 <= i < |insts| :: Product(insts[i]) >= 0
    ensures EnabledSum(insts, enabled) <= PartA(insts)
  {
    if insts != [] {
      EnabledAtMostAll(insts[1..], true);
      EnabledAtMostAll(insts[1..], false);
    }
  }

  /** A number starts no window. */
  lemma NumberStartsNoWindow(v: int, rest: seq<Token>)
    ensures Instructions([Num(v)] + rest) == Instructions(rest)
  {
    if |rest| >= 2 {
      assert ([Num(v)] + rest)[1..] == rest;
    }
  }

  /** `Mul, Num a, Num b` reads as one multiplication, and its numbers start no
      window of their own. */
  lemma MulWindow(a: int, b: int, rest: seq<Token>)
    ensures Instructions([MulToken, Num(a), Num(b)] + rest) == [Mul(a, b)] + Instructions(rest)
  {
    assert ([MulToken, Num(a), Num(b)] + rest)[1..] == [Num(a)] + ([Num(b)] + rest);
    NumberStartsNoWindow(a, [Num(b)] + rest);
    NumberStartsNoWindow(b, rest);
  }

  /** A toggle with at least two tokens after it reads as that toggle. */
  lemma ToggleWindow(x: Token, rest: seq<Token>)
    requires x == DoToken || x == DontToken
    requires |rest| >= 2
    ensures Instructions([x] + rest) == (if x == DoToken then [Do] else [Dont]) + Instructions(rest)
  {
    assert ([x] + rest)[1..] == rest;
  }

  /** The token stream of the first example program gives 161. */
  lemma ExampleA()
    ensures PartA(Instructions([MulToken, Num(2), Num(4), MulToken, Num(5), Num(5),
                                MulToken, Num(11), Num(8), MulToken, Num(8), Num(5)])) == 161
  {
    var m4 := [MulToken, Num(8), Num(5)];
    var m3 := [MulToken, Num(11), Num(8)] + m4;
    var m2 := [MulToken, Num(5), Num(5)] + m3;
    MulWindow(8, 5, []);
    MulWindow(11, 8, m4);
    MulWindow(5, 5, m3);
    MulWindow(2, 4, m2);
    assert [MulToken, Num(2), Num(4)] + m2 == [MulToken, Num(2), Num(4), MulToken, Num(5), Num(5),
                                              MulToken, Num(11), Num(8), MulToken, Num(8), Num(5)];
    assert Instructions([MulToken, Num(2), Num(4)] + m2) == [Mul(2, 4), Mul(5, 5), Mul(11, 8), Mul(8, 5)];
    SumOfFour(Mul(2, 4), Mul(5, 5), Mul(11, 8), Mul(8, 5));
  }

  lemma SumOfFour(w: Inst, x: Inst, y: Inst, z: Inst)
    ensures PartA([w, x, y, z]) == Product(w) + Product(x) + Product(y) + Product(z)
  {
    assert [w, x, y, z][1..] == [x, y, z] && [x, y, z][1..] == [y, z] && [y, z][1..] == [z] && [z][1..] == [];
    assert PartA([z]) == Product(z);
    assert PartA([y, z]) == Product(y) + Product(z);
  }

  /** The token stream of the second example program gives 48: the two products
      between `don't()` and `do()` are left out. */
  lemma ExampleB()
    ensures EnabledSum(Instructions([MulToken, Num(2), Num(4), DontToken, MulToken, Num(5), Num(5),
                                     MulToken, Num(11), Num(8), DoToken, MulToken, Num(8), Num(5)]), true) == 48
  {
    ExampleBInstructions();
    ExampleBSum();
  }

  /** The windows of the second example's token stream. */
  lemma ExampleBInstructions()
    ensures Instructions([MulToken, Num(2), Num(4), DontToken, MulToken, Num(5), Num(5),
                          MulToken, Num(11), Num(8), DoToken, MulToken, Num(8), Num(5)])
         == [Mul(2, 4), Dont, Mul(5, 5), Mul(11, 8), Do, Mul(8, 5)]
  {
    var m4 := [MulToken, Num(8), Num(5)];
    var b4 := [DoToken] + m4;
    var b3 := [MulToken, Num(11), Num(8)] + b4;
    var b2 := [MulToken, Num(5), Num(5)] + b3;
    var b1 := [DontToken] + b2;
    var b0 := [MulToken, Num(2), Num(4)] + b1;
    assert Instructions(m4) == [Mul(8, 5)] by {
      MulWindow(8, 5, []);
      assert m4 == [MulToken, Num(8), Num(5)] + [];
    }
    assert Instructions(b4) == [Do, Mul(8, 5)] by {
      ToggleWindow(DoToken, m4);
    }
    assert Instructions(b3) == [Mul(11, 8), Do, Mul(8, 5)] by {
      MulWindow(11, 8, b4);
    }
    assert Instructions(b2) == [Mul(5, 5), Mul(11, 8), Do, Mul(8, 5)] by {
      MulWindow(5, 5, b3);
    }
    assert Instructions(b1) == [Dont, Mul(5, 5), Mul(11, 8), Do, Mul(8, 5)] by {
      ToggleWindow(DontToken, b2);
    }
    assert Instructions(b0) == [Mul(2, 4), Dont, Mul(5, 5), Mul(11, 8), Do, Mul(8, 5)] by {
      MulWindow(2, 4, b1);
    }
    assert b0 == [MulToken, Num(2), Num(4), DontToken, MulToken, Num(5), Num(5),
                  MulToken, Num(11), Num(8), DoToken, MulToken, Num(8), Num(5)];
  }

  /** The instructions of the second example, summed while enabled. */
  lemma ExampleBSum()
    ensures EnabledSum([Mul(2, 4), Dont, Mul(5, 5), Mul(11, 8), Do, Mul(8, 5)], true) == 48
  {
    var insB := [Mul(2, 4), Dont, Mul(5, 5), Mul(11, 8), Do, Mul(8, 5)];
    assert insB[1..] == [Dont] + insB[2..];
    assert insB[2..][1..] == [Mul(11, 8), Do, Mul(8, 5)];
    DisabledCountsNothing([Mul(11, 8)]);
    assert [Mul(11, 8), Do, Mul(8, 5)][1..] == [Do, Mul(8, 5)];
    assert [Do, Mul(8, 5)][1..] == [Mul(8, 5)];
    assert [Mul(8, 5)][1..] == [];
  }
}
