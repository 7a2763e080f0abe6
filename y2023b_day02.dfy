/**
 * Year 2023 (second solution set), day 2: games of cubes drawn from a bag.
 * Part a sums the ids of the games possible with 12 red, 13 green and 14
 * blue cubes; part b sums, per game, the product of the fewest cubes of
 * each colour that make it possible.
 */
module Y2023bDay02 {
  import opened Common
  datatype Color = Red | Blue | Green

  datatype Round = Round(red: nat, blue: nat, green: nat)

  datatype Game = Game(id: nat, rounds: seq<Round>)

  /** The amount the last part of colour `c` names, or 0 when no part names `c`. */
  function LastAmount(parts: seq<(nat, Color)>, c: Color): nat
  {
    if parts == [] then 0
    else
      var n := |parts| - 1;
      if parts[n].1 == c then parts[n].0 else LastAmount(parts[..n], c)
  }

  /** A colour that no part names keeps its default amount 0. */
  lemma {:induction false} LastAmountAbsent(parts: seq<(nat, Color)>, c: Color)
    requires forall i | 0 <= i < |parts| :: parts[i].1 != c
    ensures LastAmount(parts, c) == 0
  {
    if parts != [] {
      var n := |parts| - 1;
      LastAmountAbsent(parts[..n], c);
    }
  }

  /** When part `j` is the last to name colour `c`, its amount is the one kept. */
  lemma {:induction false} LastAmountIsLast(parts: seq<(nat, Color)>, c: Color, j: nat)
    requires j < |parts| && parts[j].1 == c
    requires forall k | j < k < |parts| :: parts[k].1 != c
    ensures LastAmount(parts, c) == parts[j].0
  {
    var n := |parts| - 1;
    if j < n {
      LastAmountIsLast(parts[..n], c, j);
    }
  }

  /** The last part of colour `c` is the one that counts: later parts of other colours do not change it. */
  lemma LastAmountSnoc(parts: seq<(nat, Color)>, p: (nat, Color), c: Color)
    ensures LastAmount(parts + [p], c) == if p.1 == c then p.0 else LastAmount(parts, c)
  {
    assert (parts + [p])[..|parts|] == parts;
  }

  /**
   * `round`: start from all colours at 0 and overwrite the field of each
   * part's colour in turn.
   */
  method BuildRound(parts: seq<(nat, Color)>) returns (res: Round)
    ensures res == Round(LastAmount(parts, Red), LastAmount(parts, Blue), LastAmount(parts, Green))
  {
    res := Round(0, 0, 0);
    for i := 0 to |parts|
      invariant res == Round(LastAmount(parts[..i], Red), LastAmount(parts[..i], Blue), LastAmount(parts[..i], Green))
    {
      assert parts[..i + 1] == parts[..i] + [parts[i]];
      LastAmountSnoc(parts[..i], parts[i], Red);
      LastAmountSnoc(parts[..i], parts[i], Blue);
      LastAmountSnoc(parts[..i], parts[i], Green);
      var (amount, color) := parts[i];
      match color {
        case Red => res := res.(red := amount);
        case Blue => res := res.(blue := amount);
        case Green => res := res.(green := amount);
      }
    }
    assert parts[..|parts|] == parts;
  }

  /** A round that the bag of 12 red, 13 green and 14 blue cubes allows. */
  predicate Allowed(r: Round)
  {
    r.red <= 12 && r.green <= 13 && r.blue <= 14
  }

  predicate Possible(g: Game)
  {
    forall i | 0 <= i < |g.rounds| :: Allowed(g.rounds[i])
  }

  /** The ids of the possible games, summed. */
  function PossibleIds(games: seq<Game>): nat
  {
    if games == [] then 0
    else PossibleIds(games[..|games| - 1]) + (if Possible(games[|games| - 1]) then games[|games| - 1].id else 0)
  }

  /** The inner loop of `part_a`: leave the game at the first round the bag does not allow. */
  method CheckGame(g: Game) returns (ok: bool)
    ensures ok <==> Possible(g)
  {
    for i := 0 to |g.rounds|
      invariant forall k | 0 <= k < i :: Allowed(g.rounds[k])
    {
      var r := g.rounds[i];
      if r.red > 12 || r.green > 13 || r.blue > 14 {
        return false;
      }
    }
    return true;
  }

  /** `part_a`: the sum of the ids of the possible games. */
  method PartA(games: seq<Game>) returns (sum: nat)
    ensures sum == PossibleIds(games)
  {
    sum := 0;
    for i := 0 to |games|
      invariant sum == PossibleIds(games[..i])
    {
      assert games[..i + 1][..i] == games[..i];
      var ok := CheckGame(games[i]);
      if ok {
        sum := sum + games[i].id;
      }
    }
    assert games[..|games|] == games;
  }

  /** Adding a game adds its id exactly when it is possible. */
  lemma PossibleIdsAppend(a: seq<Game>, b: seq<Game>)
    ensures PossibleIds(a + b) == PossibleIds(a) + PossibleIds(b)
    decreases |b|
  {
    if b == [] {
      assert a + b == a;
    } else {
      var n := |b| - 1;
      PossibleIdsAppend(a, b[..n]);
      assert (a + b)[..|a + b| - 1] == a + b[..n];
    }
  }

  /** The amount of colour `c` in round `r`. */
  function Amount(r: Round, c: Color): nat
  {
    match c
    case Red => r.red
    case Blue => r.blue
    case Green => r.green
  }

  /** The most cubes of colour `c` in any round, 0 without rounds: the fewest the bag must hold. */
  function MaxAmount(rounds: seq<Round>, c: Color): (m: nat)
    ensures forall i | 0 <= i < |rounds| :: Amount(rounds[i], c) <= m
    ensures m == 0 || exists i | 0 <= i < |rounds| :: Amount(rounds[i], c) == m
  {
    if rounds == [] then 0
    else
      var n := |rounds| - 1;
      var init := MaxAmount(rounds[..n], c);
      assert forall i | 0 <= i < n :: rounds[..n][i] == rounds[i];
      if Amount(rounds[n], c) > init then Amount(rounds[n], c) else init
  }

  /** A bag with `m` cubes of colour `c` allows every round exactly when `m` is at least the maximum. */
  lemma MaxAmountLeast(rounds: seq<Round>, c: Color, m: nat)
    ensures (forall i | 0 <= i < |rounds| :: Amount(rounds[i], c) <= m) <==> MaxAmount(rounds, c) <= m
  {
    var mx := MaxAmount(rounds, c);
    if mx > 0 {
      var i :| 0 <= i < |rounds| && Amount(rounds[i], c) == mx;
    }
  }

  /** The power of a game: the product of the fewest cubes of each colour. */
  function Power(g: Game): int
  {
    Product(MaxAmount(g.rounds, Red), MaxAmount(g.rounds, Blue), MaxAmount(g.rounds, Green))
  }

  function Product(r: int, b: int, g: int): int
  {
    r * b * g
  }

  function PowerSum(games: seq<Game>): int
  {
    if games == [] then 0 else PowerSum(games[..|games| - 1]) + Power(games[|games| - 1])
  }

  /** The inner loop of `part_b`: the running maximum of each colour over the rounds. */
  method Maxima(rounds: seq<Round>) returns (maxRed: nat, maxBlue: nat, maxGreen: nat)
    ensures maxRed == MaxAmount(rounds, Red) && maxBlue == MaxAmount(rounds, Blue) && maxGreen == MaxAmount(rounds, Green)
  {
    maxRed, maxBlue, maxGreen := 0, 0, 0;
    for i := 0 to |rounds|
      invariant maxRed == MaxAmount(rounds[..i], Red)
      invariant maxBlue == MaxAmount(rounds[..i], Blue)
      invariant maxGreen == MaxAmount(rounds[..i], Green)
    {
      assert rounds[..i + 1][..i] == rounds[..i];
      var r := rounds[i];
      maxRed := if r.red > maxRed then r.red else maxRed;
      maxBlue := if r.blue > maxBlue then r.blue else maxBlue;
      maxGreen := if r.green > maxGreen then r.green else maxGreen;
    }
    assert rounds[..|rounds|] == rounds;
  }

  /** `part_b`: the sum of the powers of the games. */
  method PartB(games: seq<Game>) returns (sum: int)
    ensures sum == PowerSum(games)
  {
    sum := 0;
    for i := 0 to |games|
      invariant sum == PowerSum(games[..i])
    {
      assert games[..i + 1][..i] == games[..i];
      var r, b, g := Maxima(games[i].rounds);
      sum := sum + Product(r, b, g);
    }
    assert games[..|games|] == games;
  }

  /** A game is possible exactly when the fewest cubes it needs of each colour fit in the bag. */
  lemma PossibleIffMaxima(g: Game)
    ensures Possible(g) <==>
      MaxAmount(g.rounds, Red) <= 12 && MaxAmount(g.rounds, Green) <= 13 && MaxAmount(g.rounds, Blue) <= 14
  {
    MaxAmountLeast(g.rounds, Red, 12);
    MaxAmountLeast(g.rounds, Green, 13);
    MaxAmountLeast(g.rounds, Blue, 14);
    assert forall i | 0 <= i < |g.rounds| ::
      Allowed(g.rounds[i]) <==> Amount(g.rounds[i], Red) <= 12 && Amount(g.rounds[i], Green) <= 13 && Amount(g.rounds[i], Blue) <= 14;
  }

  /** The five games of the worked example, one round per `;`-separated group. */
  const Example: seq<Game> := [
    Game(1, [Round(4, 3, 0), Round(1, 6, 2), Round(0, 0, 2)]),
    Game(2, [Round(0, 1, 2), Round(1, 4, 3), Round(0, 1, 1)]),
    Game(3, [Round(20, 6, 8), Round(4, 5, 13), Round(1, 0, 5)]),
    Game(4, [Round(3, 6, 1), Round(6, 0, 3), Round(14, 15, 3)]),
    Game(5, [Round(6, 1, 3), Round(1, 2, 2)])
  ]

  /** What one game adds to the sum of `part_a`. */
  function IdIfPossible(g: Game): nat
  {
    if Possible(g) then g.id else 0
  }

  lemma PossibleIdsOfFive(e: seq<Game>)
    requires |e| == 5
    ensures PossibleIds(e) == IdIfPossible(e[0]) + IdIfPossible(e[1]) + IdIfPossible(e[2]) + IdIfPossible(e[3]) + IdIfPossible(e[4])
  {
    assert e[..4][..3] == e[..3] && e[..3][..2] == e[..2] && e[..2][..1] == e[..1] && e[..1][..0] == [];
    assert PossibleIds(e[..1]) == IdIfPossible(e[0]);
    assert PossibleIds(e[..2]) == PossibleIds(e[..1]) + IdIfPossible(e[1]);
    assert PossibleIds(e[..3]) == PossibleIds(e[..2]) + IdIfPossible(e[2]);
    assert PossibleIds(e[..4]) == PossibleIds(e[..3]) + IdIfPossible(e[3]);
  }

  lemma PowerSumOfFive(e: seq<Game>)
    requires |e| == 5
    ensures PowerSum(e) == Power(e[0]) + Power(e[1]) + Power(e[2]) + Power(e[3]) + Power(e[4])
  {
    assert e[..4][..3] == e[..3] && e[..3][..2] == e[..2] && e[..2][..1] == e[..1] && e[..1][..0] == [];
    assert PowerSum(e[..1]) == Power(e[0]);
    assert PowerSum(e[..2]) == PowerSum(e[..1]) + Power(e[1]);
    assert PowerSum(e[..3]) == PowerSum(e[..2]) + Power(e[2]);
    assert PowerSum(e[..4]) == PowerSum(e[..3]) + Power(e[3]);
  }

  lemma ExampleA()
    ensures PossibleIds(Example) == 8
  {
    PossibleIdsOfFive(Example);
    assert !Allowed(Example[2].rounds[0]) && !Allowed(Example[3].rounds[2]);
  }

  /** The maximum over two rounds. */
  lemma MaxOfTwo(rounds: seq<Round>, c: Color)
    requires |rounds| == 2
    ensures MaxAmount(rounds, c) == Max(Amount(rounds[0], c), Amount(rounds[1], c))
  {
    assert rounds[..1][..0] == [];
    assert MaxAmount(rounds[..1], c) == Amount(rounds[0], c);
  }

  /** The maximum over two or three rounds, the sizes of the example games. */
  function Max3(rounds: seq<Round>, c: Color): int
    requires 2 <= |rounds| <= 3
  {
    if |rounds| == 2 then Max(Amount(rounds[0], c), Amount(rounds[1], c))
    else Max(Max(Amount(rounds[0], c), Amount(rounds[1], c)), Amount(rounds[2], c))
  }

  lemma MaxOfThree(rounds: seq<Round>, c: Color)
    requires 2 <= |rounds| <= 3
    ensures MaxAmount(rounds, c) == Max3(rounds, c)
  {
    if |rounds| == 3 {
      MaxOfTwo(rounds[..2], c);
      assert rounds[..2] == rounds[..|rounds| - 1];
    } else {
      MaxOfTwo(rounds, c);
    }
  }

  lemma GamePower(g: Game, p: int)
    requires 2 <= |g.rounds| <= 3
    requires p == Product(Max3(g.rounds, Red), Max3(g.rounds, Blue), Max3(g.rounds, Green))
    ensures Power(g) == p
  {
    MaxOfThree(g.rounds, Red);
    MaxOfThree(g.rounds, Blue);
    MaxOfThree(g.rounds, Green);
  }

  lemma ExampleB()
    ensures PowerSum(Example) == 2286
  {
    PowerSumOfFive(Example);
    GamePower(Example[0], 48);
    GamePower(Example[1], 12);
    GamePower(Example[2], 1560);
    GamePower(Example[3], 630);
    GamePower(Example[4], 36);
  }
}
