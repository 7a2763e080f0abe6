/**
 * Year 2023, day 7: Camel Cards.  Hands of five cards are ordered first by
 * their type (five of a kind down to high card), then card by card; the
 * winnings sum every bid times the rank of its hand.  Part b reads Jacks as
 * jokers: they take whichever card makes the best type, and they rank below
 * every other card.
 */
module Y2023Day07 {
  import opened Common

  // ---------------------------------------------------------------------
  // Cards and orderings

  datatype Card = Number(d: nat) | Jack | Queen | King | Ace

  /** The cards the input holds: numbers 2 to 10 (`T`) and the four faces. */
  predicate ValidCard(c: Card)
  {
    c.Number? ==> 2 <= c.d <= 10
  }

  /** `std::cmp::Ordering`. */
  datatype Ordering = Less | Equal | Greater

  function CmpInt(a: int, b: int): (r: Ordering)
    ensures r == Less <==> a < b
    ensures r == Equal <==> a == b
  {
    if a < b then Less else if a == b then Equal else Greater
  }

  /** `Ordering::then`: the first ordering unless it is `Equal`. */
  function Then(a: Ordering, b: Ordering): Ordering
  {
    if a == Equal then b else a
  }

  function Flip(o: Ordering): Ordering
  {
    match o
    case Less => Greater
    case Equal => Equal
    case Greater => Less
  }

  /** The position of a card's variant in the declaration of `Card`. */
  function Variant(c: Card): nat
  {
    match c
    case Number(_) => 0
    case Jack => 1
    case Queen => 2
    case King => 3
    case Ace => 4
  }

  /** The derived `Ord` of `Card`: by variant, and numbers by their value. */
  function CmpCard(a: Card, b: Card): Ordering
  {
    if a.Number? && b.Number? then CmpInt(a.d, b.d) else CmpInt(Variant(a), Variant(b))
  }

  /** `Card::index`: the slot of a card in the count array. */
  function Index(c: Card): (r: nat)
    requires ValidCard(c)
    ensures r < 13
  {
    match c
    case Number(d) => d - 2
    case Jack => 9
    case Queen => 10
    case King => 11
    case Ace => 12
  }

  /** The index is order-preserving: cards compare as their indices do, so it is one-to-one. */
  lemma IndexOrder(a: Card, b: Card)
    requires ValidCard(a) && ValidCard(b)
    ensures CmpCard(a, b) == CmpInt(Index(a), Index(b))
  {
  }

  /** The card with index `i`. */
  function CardAt(i: nat): (c: Card)
    requires i < 13
    ensures ValidCard(c) && Index(c) == i
  {
    if i < 9 then Number(i + 2) else if i == 9 then Jack else if i == 10 then Queen else if i == 11 then King else Ace
  }

  /** `cmp_joker`: a Jack is below every other card and equal only to itself. */
  function CmpJoker(a: Card, b: Card): Ordering
  {
    if a == Jack || b == Jack then
      if a == b then Equal else if a == Jack then Less else Greater
    else CmpCard(a, b)
  }

  /** A card's strength under the joker rule: the Jack lowest, then 2 to Ace. */
  function JokerRank(c: Card): (r: nat)
    requires ValidCard(c)
    ensures r < 13
  {
    match c
    case Jack => 0
    case Number(d) => d - 1
    case Queen => 10
    case King => 11
    case Ace => 12
  }

  /** The joker comparison is the order of `JokerRank`. */
  lemma JokerOrder(a: Card, b: Card)
    requires ValidCard(a) && ValidCard(b)
    ensures CmpJoker(a, b) == CmpInt(JokerRank(a), JokerRank(b))
  {
  }

  /** Part a (`Plain`) or part b (`Joker`). */
  datatype Rules = Plain | Joker

  function CmpUnder(rules: Rules, a: Card, b: Card): Ordering
  {
    if rules == Plain then CmpCard(a, b) else CmpJoker(a, b)
  }

  /** A card's strength under the rules, a digit in base 13. */
  function Strength(rules: Rules, c: Card): (r: nat)
    requires ValidCard(c)
    ensures r < 13
  {
    if rules == Plain then Index(c) else JokerRank(c)
  }

  lemma StrengthOrder(rules: Rules, a: Card, b: Card)
    requires ValidCard(a) && ValidCard(b)
    ensures CmpUnder(rules, a, b) == CmpInt(Strength(rules, a), Strength(rules, b))
  {
    if rules == Plain {
      IndexOrder(a, b);
    } else {
      JokerOrder(a, b);
    }
  }

  // ---------------------------------------------------------------------
  // Hand types

  datatype HandType = HighCard | OnePair | TwoPair | ThreeOfAKind | FullHouse | FourOfAKind | FiveOfAKind

  /** The derived `Ord` of `Type` follows the declaration order. */
  function TypeRank(t: HandType): nat
  {
    match t
    case HighCard => 0
    case OnePair => 1
    case TwoPair => 2
    case ThreeOfAKind => 3
    case FullHouse => 4
    case FourOfAKind => 5
    case FiveOfAKind => 6
  }

  function MaxType(a: HandType, b: HandType): (r: HandType)
    ensures TypeRank(r) == Max(TypeRank(a), TypeRank(b))
    ensures r == a || r == b
  {
    if TypeRank(a) >= TypeRank(b) then a else b
  }

  predicate ValidHand(h: seq<Card>)
  {
    |h| == 5 && forall i | 0 <= i < 5 :: ValidCard(h[i])
  }

  /** How often each card occurs, by index. */
  function Counts(h: seq<Card>): (a: seq<int>)
    ensures |a| == 13
  {
    seq(13, i requires 0 <= i < 13 => multiset(h)[CardAt(i)])
  }

  /** The slot of each card holds its number of occurrences. */
  lemma CountsAt(h: seq<Card>, c: Card)
    requires ValidCard(c)
    ensures Counts(h)[Index(c)] == multiset(h)[c]
  {
    CardAtIndex(c);
  }

  /**
   * The type of a hand given its counts: a count of 5, then of 4, then of 3
   * with or without a 2; then two pairs, one pair, or nothing.
   */
  function Classify(a: seq<int>): HandType
  {
    if 5 in a then FiveOfAKind
    else if 4 in a then FourOfAKind
    else if 3 in a then (if 2 in a then FullHouse else ThreeOfAKind)
    else if multiset(a)[2] == 2 then TwoPair
    else if multiset(a)[2] == 1 then OnePair
    else HighCard
  }

  function TypeOf(h: seq<Card>): HandType
    requires ValidHand(h)
  {
    Classify(Counts(h))
  }

  lemma {:induction false} SumNonNegative(a: seq<int>)
    requires forall i | 0 <= i < |a| :: a[i] >= 0
    ensures Sum(a) >= 0
  {
    if a != [] {
      SumNonNegative(a[..|a| - 1]);
    }
  }

  /** Two different slots of non-negative counts add up to at most the total. */
  lemma {:induction false} SumTwo(a: seq<int>, j: nat, k: nat)
    requires j < k < |a| && forall i | 0 <= i < |a| :: a[i] >= 0
    ensures Sum(a) >= a[j] + a[k]
  {
    var init := a[..|a| - 1];
    if k == |a| - 1 {
      SumAtLeast(init, j);
    } else {
      SumTwo(init, j, k);
    }
  }

  lemma {:induction false} SumAtLeast(a: seq<int>, j: nat)
    requires j < |a| && forall i | 0 <= i < |a| :: a[i] >= 0
    ensures Sum(a) >= a[j]
  {
    var init := a[..|a| - 1];
    if j == |a| - 1 {
      SumNonNegative(init);
    } else {
      SumAtLeast(init, j);
    }
  }

  /** In the counts of five cards only one slot can reach 3. */
  lemma OnlyOneBig(a: seq<int>, k: nat)
    requires k < |a| && Sum(a) == 5 && a[k] >= 3 && forall i | 0 <= i < |a| :: a[i] >= 0
    ensures forall j | 0 <= j < |a| && j != k :: a[j] < 3
  {
    forall j | 0 <= j < |a| && j != k
      ensures a[j] < 3
    {
      if j < k {
        SumTwo(a, j, k);
      } else {
        SumTwo(a, k, j);
      }
    }
  }

  /** Adding one to a slot adds one to the total. */
  lemma {:induction false} SumIncrement(a: seq<int>, i: nat)
    requires i < |a|
    ensures Sum(a[i := a[i] + 1]) == Sum(a) + 1
  {
    var b := a[i := a[i] + 1];
    if i < |a| - 1 {
      SumIncrement(a[..|a| - 1], i);
      assert b[..|b| - 1] == a[..|a| - 1][i := a[i] + 1];
    } else {
      assert b[..|b| - 1] == a[..|a| - 1];
    }
  }

  /** The first loop of `type_of_hand`: one count per card index, totalling the hand's size. */
  method CountCards(cards: seq<Card>) returns (amount: array<int>)
    requires ValidHand(cards)
    ensures fresh(amount)
    ensures amount[..] == Counts(cards) && Sum(amount[..]) == 5
  {
    amount := new int[13](_ => 0);
    assert amount[..] == Counts(cards[..0]);
    ZeroSum(amount[..]);
    for k := 0 to 5
      invariant amount[..] == Counts(cards[..k])
      invariant Sum(amount[..]) == k
    {
      var i := Index(cards[k]);
      CountStep(cards, k);
      SumIncrement(amount[..], i);
      amount[i] := amount[i] + 1;
    }
    assert cards[..5] == cards;
  }

  /** One more card adds one to its own slot. */
  lemma CountStep(cards: seq<Card>, k: nat)
    requires k < |cards| && ValidCard(cards[k])
    ensures var a := Counts(cards[..k]);
            Counts(cards[..k + 1]) == a[Index(cards[k]) := a[Index(cards[k])] + 1]
  {
    assert cards[..k + 1] == cards[..k] + [cards[k]];
    CardAtIndex(cards[k]);
  }

  lemma {:induction false} ZeroSum(a: seq<int>)
    requires forall i | 0 <= i < |a| :: a[i] == 0
    ensures Sum(a) == 0
  {
    if a != [] {
      ZeroSum(a[..|a| - 1]);
    }
  }

  /** The scans of `type_of_hand` over the counts, returning at the first count of 5, 4 or 3. */
  method ScanCounts(amount: array<int>) returns (t: HandType)
    requires amount.Length == 13 && Sum(amount[..]) == 5
    requires forall i | 0 <= i < 13 :: amount[i] >= 0
    ensures t == Classify(amount[..])
  {
    ghost var a := amount[..];
    for i := 0 to 13
      invariant forall j | 0 <= j < i :: a[j] != 5 && a[j] != 4 && a[j] != 3
    {
      var n := amount[i];
      if n == 5 {
        return FiveOfAKind;
      }
      if n == 4 {
        OnlyOneBig(a, i);
        return FourOfAKind;
      }
      if n == 3 {
        OnlyOneBig(a, i);
        for j := 0 to 13
          invariant forall l | 0 <= l < j :: a[l] != 2
        {
          if amount[j] == 2 {
            return FullHouse;
          }
        }
        return ThreeOfAKind;
      }
    }
    var pairs := 0;
    for i := 0 to 13
      invariant pairs == multiset(a[..i])[2]
    {
      assert a[..i + 1] == a[..i] + [a[i]];
      if amount[i] == 2 {
        pairs := pairs + 1;
      }
    }
    assert a[..13] == a;
    if pairs == 2 {
      return TwoPair;
    }
    if pairs == 1 {
      return OnePair;
    }
    t := HighCard;
  }

  /** `type_of_hand`: count the cards, then classify the counts. */
  method TypeOfHand(cards: seq<Card>) returns (t: HandType)
    requires ValidHand(cards)
    ensures t == TypeOf(cards)
  {
    var amount := CountCards(cards);
    t := ScanCounts(amount);
  }

  // ---------------------------------------------------------------------
  // Jokers

  /**
   * The `j`-th replacement card, in the order `type_of_hand_joker` tries
   * them: Ace, King, Queen, then 10 down to 2.
   */
  function NonJack(j: nat): (c: Card)
    requires j < 12
    ensures ValidCard(c) && c != Jack
  {
    if j == 0 then Ace else if j == 1 then King else if j == 2 then Queen else Number(13 - j)
  }

  /** Every card but the Jack is tried. */
  lemma NonJacksComplete(c: Card)
    requires ValidCard(c) && c != Jack
    ensures exists j | 0 <= j < 12 :: NonJack(j) == c
  {
    match c
    case Ace => assert NonJack(0) == c;
    case King => assert NonJack(1) == c;
    case Queen => assert NonJack(2) == c;
    case Number(d) => assert NonJack(13 - d) == c;
  }

  /** `position`: the first Jack of the hand. */
  function FirstJack(h: seq<Card>): (pos: nat)
    requires Jack in h
    ensures pos < |h| && h[pos] == Jack && forall i | 0 <= i < pos :: h[i] != Jack
  {
    if h[0] == Jack then 0 else FirstJack(h[1..]) + 1
  }

  /** Putting a valid non-Jack card in place of a Jack keeps the hand valid and removes one Jack. */
  lemma ReplaceJack(h: seq<Card>, pos: nat, c: Card)
    requires ValidHand(h) && pos < |h| && h[pos] == Jack && c != Jack && ValidCard(c)
    ensures ValidHand(h[pos := c])
    ensures multiset(h[pos := c])[Jack] == multiset(h)[Jack] - 1
  {
    assert multiset(h[pos := c]) == multiset(h) - multiset{Jack} + multiset{c};
  }

  /** `type_of_hand_joker`: without Jacks the plain type, else the best over every card in place of the first Jack. */
  function JokerType(h: seq<Card>): HandType
    requires ValidHand(h)
    decreases multiset(h)[Jack], 13
  {
    if Jack !in h then TypeOf(h) else BestOver(h, FirstJack(h), 12)
  }

  /** The best joker type among the first `k` replacements of the Jack at `pos`. */
  function BestOver(h: seq<Card>, pos: nat, k: nat): HandType
    requires ValidHand(h) && pos < 5 && h[pos] == Jack && k <= 12
    decreases multiset(h)[Jack], k
  {
    if k == 0 then HighCard else MaxType(BestOver(h, pos, k - 1), Try(h, pos, k - 1))
  }

  /** The joker type of the hand with the `j`-th replacement card in place of the Jack at `pos`. */
  function Try(h: seq<Card>, pos: nat, j: nat): HandType
    requires ValidHand(h) && pos < 5 && h[pos] == Jack && j < 12
    decreases multiset(h)[Jack], 0
  {
    ReplaceJack(h, pos, NonJack(j));
    JokerType(h[pos := NonJack(j)])
  }

  /** `type_of_hand_joker` as the source writes it: overwrite the first Jack with each card, recurse, keep the maximum. */
  method TypeOfHandJoker(hand: seq<Card>) returns (t: HandType)
    requires ValidHand(hand)
    ensures t == JokerType(hand)
    decreases multiset(hand)[Jack]
  {
    if Jack !in hand {
      t := TypeOfHand(hand);
      return;
    }
    var pos := FirstJack(hand);
    var cards := hand;
    var maxType := HighCard;
    for j := 0 to 12
      invariant maxType == BestOver(hand, pos, j)
      invariant |cards| == 5 && forall i | 0 <= i < 5 && i != pos :: cards[i] == hand[i]
    {
      cards := cards[pos := NonJack(j)];
      assert cards == hand[pos := NonJack(j)];
      ReplaceJack(hand, pos, NonJack(j));
      var u := TypeOfHandJoker(cards);
      maxType := MaxType(maxType, u);
    }
    t := maxType;
  }

  /** `r` is `h` with every Jack replaced by some other card. */
  predicate Replacement(h: seq<Card>, r: seq<Card>)
  {
    |r| == |h| && forall i | 0 <= i < |h| :: ValidCard(r[i]) && r[i] != Jack && (h[i] != Jack ==> r[i] == h[i])
  }

  /** The best of the first `k` replacements is one of them and at least each of them. */
  lemma {:induction false} BestOverBounds(h: seq<Card>, pos: nat, k: nat)
    requires ValidHand(h) && pos < 5 && h[pos] == Jack && k <= 12
    ensures forall j | 0 <= j < k :: TypeRank(Try(h, pos, j)) <= TypeRank(BestOver(h, pos, k))
    ensures k > 0 ==> exists j | 0 <= j < k :: BestOver(h, pos, k) == Try(h, pos, j)
  {
    if k > 0 {
      BestOverBounds(h, pos, k - 1);
    }
  }

  /** No hand with the Jacks replaced has a better type than the joker type. */
  lemma {:induction false} JokerUpper(h: seq<Card>, r: seq<Card>)
    requires ValidHand(h) && Replacement(h, r)
    ensures TypeRank(TypeOf(r)) <= TypeRank(JokerType(h))
    decreases multiset(h)[Jack]
  {
    if Jack !in h {
      assert r == h;
      assert JokerType(h) == TypeOf(h);
    } else {
      var pos := FirstJack(h);
      assert JokerType(h) == BestOver(h, pos, 12);
      BestOverBounds(h, pos, 12);
      NonJacksComplete(r[pos]);
      var j :| 0 <= j < 12 && NonJack(j) == r[pos];
      ReplaceJack(h, pos, NonJack(j));
      var h' := h[pos := NonJack(j)];
      assert Try(h, pos, j) == JokerType(h');
      assert Replacement(h', r);
      JokerUpper(h', r);
    }
  }

  /** Some hand with the Jacks replaced has exactly the joker type. */
  lemma {:induction false} JokerAttained(h: seq<Card>) returns (r: seq<Card>)
    requires ValidHand(h)
    ensures Replacement(h, r) && TypeOf(r) == JokerType(h)
    decreases multiset(h)[Jack]
  {
    if Jack !in h {
      r := h;
    } else {
      var pos := FirstJack(h);
      BestOverBounds(h, pos, 12);
      var j :| 0 <= j < 12 && BestOver(h, pos, 12) == Try(h, pos, j);
      ReplaceJack(h, pos, NonJack(j));
      var h' := h[pos := NonJack(j)];
      r := JokerAttained(h');
      assert Replacement(h, r);
    }
  }

  /**
   * Jokers act as whatever card makes the hand strongest: the joker type is
   * the type of some hand with every Jack replaced, and no such hand has a
   * better type.
   */
  lemma JokerBest(h: seq<Card>)
    requires ValidHand(h)
    ensures forall r | Replacement(h, r) :: TypeRank(TypeOf(r)) <= TypeRank(JokerType(h))
    ensures exists r :: Replacement(h, r) && TypeOf(r) == JokerType(h)
  {
    forall r | Replacement(h, r)
      ensures TypeRank(TypeOf(r)) <= TypeRank(JokerType(h))
    {
      JokerUpper(h, r);
    }
    var r := JokerAttained(h);
  }

  // ---------------------------------------------------------------------
  // Comparing hands

  function HandTypeUnder(rules: Rules, h: seq<Card>): HandType
    requires ValidHand(h)
  {
    if rules == Plain then TypeOf(h) else JokerType(h)
  }

  /** The `fold` of `compare_hands`: `acc.then(a.cmp(b))` over the zipped cards. */
  function LexFold(rules: Rules, acc: Ordering, a: seq<Card>, b: seq<Card>): Ordering
    decreases |a|
  {
    if a == [] || b == [] then acc else LexFold(rules, Then(acc, CmpUnder(rules, a[0], b[0])), a[1..], b[1..])
  }

  /** `compare_hands` and `compare_hands_joker`: by type, then card by card. */
  function CompareHands(rules: Rules, a: seq<Card>, b: seq<Card>): Ordering
    requires ValidHand(a) && ValidHand(b)
  {
    Then(CmpInt(TypeRank(HandTypeUnder(rules, a)), TypeRank(HandTypeUnder(rules, b))), LexFold(rules, Equal, a, b))
  }

  /** Reference order: a hand as a base-13 number, its type rank followed by its card strengths. */
  function KeyFold(rules: Rules, k: nat, h: seq<Card>): nat
    requires forall i | 0 <= i < |h| :: ValidCard(h[i])
    decreases |h|
  {
    if h == [] then k else KeyFold(rules, k * 13 + Strength(rules, h[0]), h[1..])
  }

  function HandKey(rules: Rules, h: seq<Card>): nat
    requires ValidHand(h)
  {
    KeyFold(rules, TypeRank(HandTypeUnder(rules, h)), h)
  }

  /** Comparing two base-13 numbers: the leading part decides, then the last digit. */
  lemma CmpDigit(x: nat, d: nat, y: nat, e: nat)
    requires d < 13 && e < 13
    ensures CmpInt(x * 13 + d, y * 13 + e) == Then(CmpInt(x, y), CmpInt(d, e))
  {
    if x < y {
      MulMono(x + 1, y, 13);
    } else if y < x {
      MulMono(y + 1, x, 13);
    }
  }

  /** The card-by-card fold compares the remaining digits of the two keys. */
  lemma {:induction false} LexFoldIsKeyOrder(rules: Rules, x: nat, a: seq<Card>, y: nat, b: seq<Card>)
    requires |a| == |b|
    requires forall i | 0 <= i < |a| :: ValidCard(a[i]) && ValidCard(b[i])
    ensures CmpInt(KeyFold(rules, x, a), KeyFold(rules, y, b)) == LexFold(rules, CmpInt(x, y), a, b)
    decreases |a|
  {
    if a != [] {
      var d, e := Strength(rules, a[0]), Strength(rules, b[0]);
      CmpDigit(x, d, y, e);
      StrengthOrder(rules, a[0], b[0]);
      LexFoldIsKeyOrder(rules, x * 13 + d, a[1..], y * 13 + e, b[1..]);
    }
  }

  /** Folding from a non-`Equal` start keeps it; from `Equal`, the fold decides. */
  lemma {:induction false} LexFoldThen(rules: Rules, acc: Ordering, a: seq<Card>, b: seq<Card>)
    ensures LexFold(rules, acc, a, b) == Then(acc, LexFold(rules, Equal, a, b))
    decreases |a|
  {
    if a != [] && b != [] {
      var c := CmpUnder(rules, a[0], b[0]);
      LexFoldThen(rules, Then(acc, c), a[1..], b[1..]);
      LexFoldThen(rules, c, a[1..], b[1..]);
    }
  }

  /** Hands compare as their keys do. */
  lemma CompareIsKeyOrder(rules: Rules, a: seq<Card>, b: seq<Card>)
    requires ValidHand(a) && ValidHand(b)
    ensures CompareHands(rules, a, b) == CmpInt(HandKey(rules, a), HandKey(rules, b))
  {
    var ta, tb := TypeRank(HandTypeUnder(rules, a)), TypeRank(HandTypeUnder(rules, b));
    LexFoldIsKeyOrder(rules, ta, a, tb, b);
    LexFoldThen(rules, CmpInt(ta, tb), a, b);
  }

  /** The fold is `Equal` only on equal cards. */
  lemma {:induction false} LexFoldEqual(rules: Rules, acc: Ordering, a: seq<Card>, b: seq<Card>)
    requires |a| == |b| && LexFold(rules, acc, a, b) == Equal
    requires forall i | 0 <= i < |a| :: ValidCard(a[i]) && ValidCard(b[i])
    ensures acc == Equal && a == b
    decreases |a|
  {
    if a != [] {
      LexFoldEqual(rules, Then(acc, CmpUnder(rules, a[0], b[0])), a[1..], b[1..]);
      StrengthOrder(rules, a[0], b[0]);
      if rules == Plain {
        assert Index(a[0]) == Index(b[0]);
        assert a[0] == CardAt(Index(a[0])) && b[0] == CardAt(Index(b[0])) by {
          CardAtIndex(a[0]);
          CardAtIndex(b[0]);
        }
      }
      assert a == [a[0]] + a[1..] && b == [b[0]] + b[1..];
    }
  }

  lemma CardAtIndex(c: Card)
    requires ValidCard(c)
    ensures CardAt(Index(c)) == c
  {
  }

  /**
   * Both comparisons are total orders on hands, as `sort_by` needs: swapping
   * the hands flips the result, `Equal` means the same hand, and the order
   * is transitive.
   */
  lemma CompareTotalOrder(rules: Rules, a: seq<Card>, b: seq<Card>, c: seq<Card>)
    requires ValidHand(a) && ValidHand(b) && ValidHand(c)
    ensures CompareHands(rules, a, b) == Flip(CompareHands(rules, b, a))
    ensures CompareHands(rules, a, b) == Equal <==> a == b
    ensures CompareHands(rules, a, b) != Greater && CompareHands(rules, b, c) != Greater
            ==> CompareHands(rules, a, c) != Greater
  {
    CompareIsKeyOrder(rules, a, b);
    CompareIsKeyOrder(rules, b, a);
    CompareIsKeyOrder(rules, b, c);
    CompareIsKeyOrder(rules, a, c);
    if CompareHands(rules, a, b) == Equal {
      var ta, tb := TypeRank(HandTypeUnder(rules, a)), TypeRank(HandTypeUnder(rules, b));
      LexFoldThen(rules, CmpInt(ta, tb), a, b);
      LexFoldIsKeyOrder(rules, ta, a, tb, b);
      LexFoldEqual(rules, CmpInt(ta, tb), a, b);
    }
  }

  // ---------------------------------------------------------------------
  // Winnings

  /** A hand and its bid. */
  type Entry = (seq<Card>, nat)

  predicate ValidInput(input: seq<Entry>)
  {
    forall i | 0 <= i < |input| :: ValidHand(input[i].0)
  }

  /** The sort key of an entry: its hand's key. */
  function KeyOf(rules: Rules): Entry -> int
  {
    (e: Entry) => if ValidHand(e.0) then HandKey(rules, e.0) else 0
  }

  /** `e` put after every entry whose key is not larger: a stable insertion. */
  function Insert(key: Entry -> int, e: Entry, s: seq<Entry>): seq<Entry>
  {
    if s == [] then [e]
    else if key(e) < key(s[0]) then [e] + s
    else [s[0]] + Insert(key, e, s[1..])
  }

  predicate SortedOn(key: Entry -> int, s: seq<Entry>)
  {
    forall i, j | 0 <= i < j < |s| :: key(s[i]) <= key(s[j])
  }

  lemma {:induction false} InsertCounts(key: Entry -> int, e: Entry, s: seq<Entry>)
    ensures multiset(Insert(key, e, s)) == multiset(s) + multiset{e}
  {
    if s != [] && key(e) >= key(s[0]) {
      InsertCounts(key, e, s[1..]);
      assert s == [s[0]] + s[1..];
    }
  }

  lemma {:induction false} InsertSorted(key: Entry -> int, e: Entry, s: seq<Entry>)
    requires SortedOn(key, s)
    ensures SortedOn(key, Insert(key, e, s))
  {
    if s != [] && key(e) >= key(s[0]) {
      var t := s[1..];
      InsertSorted(key, e, t);
      InsertCounts(key, e, t);
      var rest := Insert(key, e, t);
      var r := [s[0]] + rest;
      forall i, j | 0 <= i < j < |r|
        ensures key(r[i]) <= key(r[j])
      {
        if i == 0 {
          InsertHeadBound(key, e, s, j - 1);
        } else {
          assert r[i] == rest[i - 1] && r[j] == rest[j - 1];
        }
      }
    }
  }

  /** After a head no larger than `e`, every entry of the insertion into the tail is at least the head. */
  lemma InsertHeadBound(key: Entry -> int, e: Entry, s: seq<Entry>, k: nat)
    requires SortedOn(key, s) && s != [] && key(e) >= key(s[0]) && k < |Insert(key, e, s[1..])|
    ensures key(s[0]) <= key(Insert(key, e, s[1..])[k])
  {
    var t := s[1..];
    var rest := Insert(key, e, t);
    InsertCounts(key, e, t);
    assert rest[k] in multiset(rest);
    assert rest[k] == e || rest[k] in multiset(t);
    if rest[k] != e {
      var l :| 0 <= l < |t| && t[l] == rest[k];
      assert s[l + 1] == t[l];
    }
  }

  /** A stable insertion sort by key: sorted and a permutation. */
  function SortOn(key: Entry -> int, s: seq<Entry>): (r: seq<Entry>)
    ensures SortedOn(key, r) && multiset(r) == multiset(s)
  {
    if s == [] then []
    else
      var init := s[..|s| - 1];
      var sorted := SortOn(key, init);
      InsertSorted(key, s[|s| - 1], sorted);
      InsertCounts(key, s[|s| - 1], sorted);
      assert s == init + [s[|s| - 1]];
      Insert(key, s[|s| - 1], sorted)
  }

  /** `sort_by` with the hand comparison. */
  function SortHands(rules: Rules, s: seq<Entry>): seq<Entry>
  {
    SortOn(KeyOf(rules), s)
  }

  /** The entries in sorted order are valid, and every earlier hand compares as not greater. */
  lemma SortHandsOrdered(rules: Rules, s: seq<Entry>, i: nat, j: nat)
    requires ValidInput(s) && i < j < |SortHands(rules, s)|
    ensures var r := SortHands(rules, s);
            ValidHand(r[i].0) && ValidHand(r[j].0) && CompareHands(rules, r[i].0, r[j].0) != Greater
  {
    var r := SortHands(rules, s);
    assert r[i] in multiset(s) && r[j] in multiset(s);
    CompareIsKeyOrder(rules, r[i].0, r[j].0);
  }

  /** The winnings: every bid times its rank, the first entry ranking 1. */
  function Winnings(s: seq<Entry>): nat
  {
    if s == [] then 0 else Winnings(s[..|s| - 1]) + |s| * s[|s| - 1].1
  }

  /** `part_a` and `part_b`: sort the hands, then sum rank times bid. */
  method TotalWinnings(rules: Rules, input: seq<Entry>) returns (sum: nat)
    ensures sum == Winnings(SortHands(rules, input))
  {
    var hand := SortHands(rules, input);
    sum := SumWinnings(hand);
  }

  /** The `enumerate().map(..).sum()` over the sorted entries. */
  method SumWinnings(hand: seq<Entry>) returns (sum: nat)
    ensures sum == Winnings(hand)
  {
    sum := 0;
    for i := 0 to |hand|
      invariant sum == Winnings(hand[..i])
    {
      assert hand[..i + 1][..i] == hand[..i];
      sum := sum + (i + 1) * hand[i].1;
    }
    assert hand[..|hand|] == hand;
  }

  /** With distinct keys, two sorted permutations start alike. */
  lemma SortedHead(key: Entry -> int, s: seq<Entry>, t: seq<Entry>)
    requires SortedOn(key, s) && SortedOn(key, t) && multiset(s) == multiset(t) && s != []
    requires forall i, j | 0 <= i < j < |s| :: key(s[i]) != key(s[j])
    ensures t != [] && s[0] == t[0]
  {
    assert s[0] in multiset(t);
    var i :| 0 <= i < |t| && t[i] == s[0];
    assert t[0] in multiset(s);
    var j :| 0 <= j < |s| && s[j] == t[0];
    assert key(t[0]) <= key(t[i]) && key(s[0]) <= key(s[j]);
  }

  lemma TailMultiset(s: seq<Entry>, t: seq<Entry>)
    requires s != [] && t != [] && s[0] == t[0] && multiset(s) == multiset(t)
    ensures multiset(s[1..]) == multiset(t[1..])
  {
    assert s == [s[0]] + s[1..] && t == [t[0]] + t[1..];
    assert multiset(s[1..]) == multiset(s) - multiset{s[0]};
    assert multiset(t[1..]) == multiset(t) - multiset{t[0]};
  }

  /** With distinct keys only one order is sorted. */
  lemma {:induction false} SortedUnique(key: Entry -> int, s: seq<Entry>, t: seq<Entry>)
    requires SortedOn(key, s) && SortedOn(key, t) && multiset(s) == multiset(t)
    requires forall i, j | 0 <= i < j < |s| :: key(s[i]) != key(s[j])
    ensures s == t
    decreases |s|
  {
    if s == [] {
      assert |t| == |multiset(t)| == 0;
    } else {
      SortedHead(key, s, t);
      assert s == [s[0]] + s[1..] && t == [t[0]] + t[1..];
      TailMultiset(s, t);
      SortedUnique(key, s[1..], t[1..]);
    }
  }

  /** Different hands have different keys. */
  lemma KeyInjective(rules: Rules, a: seq<Card>, b: seq<Card>)
    requires ValidHand(a) && ValidHand(b) && a != b
    ensures HandKey(rules, a) != HandKey(rules, b)
  {
    CompareTotalOrder(rules, a, b, b);
    CompareIsKeyOrder(rules, a, b);
  }

  /**
   * With pairwise different hands (as the puzzle's input has), the winnings
   * do not depend on the order of the input lines.
   */
  lemma WinningsIgnoreOrder(rules: Rules, s: seq<Entry>, t: seq<Entry>)
    requires ValidInput(s) && multiset(s) == multiset(t)
    requires forall i, j | 0 <= i < j < |s| :: s[i].0 != s[j].0
    ensures Winnings(SortHands(rules, s)) == Winnings(SortHands(rules, t))
  {
    var key := KeyOf(rules);
    var r, q := SortHands(rules, s), SortHands(rules, t);
    forall i, j | 0 <= i < j < |r|
      ensures key(r[i]) != key(r[j])
    {
      DistinctSorted(s, r, i, j);
      KeyInjective(rules, r[i].0, r[j].0);
    }
    SortedUnique(key, r, q);
  }

  /** Two positions of a permutation of entries with distinct valid hands hold distinct valid hands. */
  lemma DistinctSorted(s: seq<Entry>, r: seq<Entry>, i: nat, j: nat)
    requires ValidInput(s) && multiset(r) == multiset(s) && i < j < |r|
    requires forall i, j | 0 <= i < j < |s| :: s[i].0 != s[j].0
    ensures ValidHand(r[i].0) && ValidHand(r[j].0) && r[i].0 != r[j].0
  {
    assert r[i] in multiset(s) && r[j] in multiset(s);
    var k :| 0 <= k < |s| && s[k] == r[i];
    var l :| 0 <= l < |s| && s[l] == r[j];
    if k == l {
      assert multiset(r)[r[i]] >= 2 by {
        assert r == r[..i] + [r[i]] + r[i + 1..j] + [r[j]] + r[j + 1..];
      }
      assert multiset(s)[s[k]] == 1 by {
        DistinctOnce(s, k);
      }
    }
  }

  /** In entries with distinct hands every entry occurs once. */
  lemma DistinctOnce(s: seq<Entry>, k: nat)
    requires k < |s| && forall i, j | 0 <= i < j < |s| :: s[i].0 != s[j].0
    ensures multiset(s)[s[k]] == 1
  {
    assert s == s[..k] + [s[k]] + s[k + 1..];
    assert s[k] !in s[..k] && s[k] !in s[k + 1..];
  }
}
