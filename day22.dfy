/**
 * Day 22: two players play Combat with decks of numbered cards. Each round both draw their top
 * card; the round's winner puts its own card, then the other, at the bottom of its deck, and a
 * player whose deck runs out loses. In Recursive Combat a round is decided by a sub-game on copies
 * of the next cards when both players hold at least as many cards as the number they drew, and a
 * game that comes back to a position it has seen is won by player 1.
 */
module Day22 {
  import opened Wrappers
  import opened Arith

  /** `GameState`: the two decks, top card first. */
  datatype Game = Game(player1: seq<nat>, player2: seq<nat>)

  /** `RoundResult`: a winner with its deck, or the position the game goes on from. */
  datatype RoundResult = Winner(player1Won: bool, deck: seq<nat>) | NoWinner(state: Game)

  /** All the cards in play. */
  function Cards(g: Game): multiset<nat> {
    multiset(g.player1) + multiset(g.player2)
  }

  /** The number of cards in play. */
  function Total(g: Game): nat {
    |g.player1| + |g.player2|
  }

  /** Both players can draw. */
  predicate CanDraw(g: Game) {
    g.player1 != [] && g.player2 != []
  }

  // ---- One round ----

  /**
   * The end of a round once its winner is known: both top cards drawn, the winner's own card and
   * then the other at the bottom of its deck, and a win when the other deck is then empty.
   */
  function Round(g: Game, player1Wins: bool): RoundResult
    requires CanDraw(g)
  {
    var c1, c2 := g.player1[0], g.player2[0];
    var rest1, rest2 := g.player1[1..], g.player2[1..];
    if player1Wins then
      if rest2 == [] then Winner(true, rest1 + [c1, c2]) else NoWinner(Game(rest1 + [c1, c2], rest2))
    else
      if rest1 == [] then Winner(false, rest2 + [c2, c1]) else NoWinner(Game(rest1, rest2 + [c2, c1]))
  }

  /** The deck the winner of the round holds after it, whether or not the game ends there. */
  function WinnerDeck(r: RoundResult, player1Wins: bool): seq<nat> {
    match r
    case Winner(_, deck) => deck
    case NoWinner(s) => if player1Wins then s.player1 else s.player2
  }

  /**
   * A round: the winner's deck is its other cards, then its own top card, then the other top card;
   * the game is won exactly when the other player drew its last card, and otherwise both go on
   * with a card or more, the loser's deck being its other cards.
   */
  lemma RoundShape(g: Game, player1Wins: bool)
    requires CanDraw(g)
    ensures player1Wins ==> WinnerDeck(Round(g, true), true) == g.player1[1..] + [g.player1[0], g.player2[0]]
    ensures !player1Wins ==> WinnerDeck(Round(g, false), false) == g.player2[1..] + [g.player2[0], g.player1[0]]
    ensures Round(g, player1Wins).Winner? <==> (if player1Wins then |g.player2| == 1 else |g.player1| == 1)
    ensures Round(g, player1Wins).Winner? ==> Round(g, player1Wins).player1Won == player1Wins
    ensures Round(g, player1Wins).NoWinner? ==> (CanDraw(Round(g, player1Wins).state) &&
      if player1Wins then Round(g, player1Wins).state.player2 == g.player2[1..]
      else Round(g, player1Wins).state.player1 == g.player1[1..])
  {
  }

  /** A round keeps every card in play: the winner of the game holds them all. */
  lemma RoundCards(g: Game, player1Wins: bool)
    requires CanDraw(g)
    ensures Round(g, player1Wins).Winner? ==> multiset(Round(g, player1Wins).deck) == Cards(g)
    ensures Round(g, player1Wins).NoWinner? ==> Cards(Round(g, player1Wins).state) == Cards(g)
  {
    var c1, c2, rest1, rest2 := g.player1[0], g.player2[0], g.player1[1..], g.player2[1..];
    assert g == Game([c1] + rest1, [c2] + rest2);
    MoveTops(rest1, rest2, c1, c2);
  }

  /** The two top cards moved under either deck: the cards in play are the same. */
  lemma MoveTops(rest1: seq<nat>, rest2: seq<nat>, c1: nat, c2: nat)
    ensures multiset(rest1 + [c1, c2]) + multiset(rest2) == multiset([c1] + rest1) + multiset([c2] + rest2)
    ensures multiset(rest1) + multiset(rest2 + [c2, c1]) == multiset([c1] + rest1) + multiset([c2] + rest2)
  {
  }

  /** `combat_turn`: the higher card wins the round; `None` where an empty deck makes `unwrap` panic. */
  function CombatRound(g: Game): Option<RoundResult> {
    if CanDraw(g) then Some(Round(g, g.player1[0] > g.player2[0])) else None
  }

  /**
   * The bottom half of both turns, on the decks as the Rust code holds them after `pop_front`: the
   * two pushes onto the winner's deck and the emptiness test of the other.
   */
  method Settle(rest1: seq<nat>, rest2: seq<nat>, c1: nat, c2: nat, player1Wins: bool) returns (r: RoundResult)
    ensures r == Round(Game([c1] + rest1, [c2] + rest2), player1Wins)
  {
    var g := Game([c1] + rest1, [c2] + rest2);
    assert g.player1[1..] == rest1 && g.player2[1..] == rest2;
    var player1, player2 := rest1, rest2;
    if player1Wins {
      player1 := player1 + [c1];
      player1 := player1 + [c2];
      if player2 == [] {
        return Winner(true, player1);
      }
    } else {
      player2 := player2 + [c2];
      player2 := player2 + [c1];
      if player1 == [] {
        return Winner(false, player2);
      }
    }
    return NoWinner(Game(player1, player2));
  }

  /** `combat_turn`: both top cards drawn (a panic on an empty deck), the higher card wins. */
  method CombatTurn(g: Game) returns (r: Option<RoundResult>)
    ensures r == CombatRound(g)
    ensures r.Some? <==> CanDraw(g)
    ensures r.Some? ==> r.value == Round(g, g.player1[0] > g.player2[0])
  {
    if g.player1 == [] || g.player2 == [] {
      return None;
    }
    var player1, player2 := g.player1, g.player2;
    var c1 := player1[0];
    player1 := player1[1..];
    var c2 := player2[0];
    player2 := player2[1..];
    assert g == Game([c1] + player1, [c2] + player2);
    var res := Settle(player1, player2, c1, c2, c1 > c2);
    return Some(res);
  }

  // ---- Combat ----

  /** `play`: rounds until one player holds every card; `None` on a panic or when `fuel` rounds do not end the game. */
  function Played(g: Game, fuel: nat): Option<seq<nat>>
    decreases fuel
  {
    if fuel == 0 then None
    else match CombatRound(g)
      case None => None
      case Some(Winner(_, deck)) => Some(deck)
      case Some(NoWinner(s)) => Played(s, fuel - 1)
  }

  /** The winner of a game of Combat ends up with every card that was dealt, and the game never panics once both can draw. */
  lemma {:induction false} PlayedCards(g: Game, fuel: nat)
    requires Played(g, fuel).Some?
    ensures multiset(Played(g, fuel).value) == Cards(g)
    ensures CanDraw(g)
    decreases fuel
  {
    var r := CombatRound(g).value;
    RoundCards(g, g.player1[0] > g.player2[0]);
    if r.NoWinner? {
      PlayedCards(r.state, fuel - 1);
    }
  }

  /** `play`: `combat_turn` until a player wins; the winner's deck. */
  method Play(g: Game, fuel: nat) returns (r: Option<seq<nat>>)
    ensures r == Played(g, fuel)
  {
    var state := g;
    var f := fuel;
    while f > 0
      invariant Played(state, f) == Played(g, fuel)
      decreases f
    {
      var turn := CombatTurn(state);
      match turn
      case None =>
        return None;
      case Some(Winner(_, deck)) =>
        return Some(deck);
      case Some(NoWinner(s)) =>
        state := s;
        f := f - 1;
    }
    return None;
  }

  // ---- Recursive Combat ----

  /** Both players hold at least as many cards as the number each drew. */
  predicate Recurses(g: Game)
    requires CanDraw(g)
  {
    |g.player1| - 1 >= g.player1[0] && |g.player2| - 1 >= g.player2[0]
  }

  /** The sub-game: copies of as many of each player's next cards as the number it drew. */
  function SubGame(g: Game): (s: Game)
    requires CanDraw(g) && Recurses(g)
    ensures s.player1 == g.player1[1..1 + g.player1[0]] && s.player2 == g.player2[1..1 + g.player2[0]]
    ensures Total(s) < Total(g)
  {
    Game(g.player1[1..][..g.player1[0]], g.player2[1..][..g.player2[0]])
  }

  /**
   * `play_recursive`: the game from `g`, having seen the positions in `seen`; whether player 1
   * won, and the winning deck. `None` on a panic or when `fuel` rounds along the way do not end it.
   */
  function RecGame(g: Game, seen: set<Game>, fuel: nat): Option<(bool, seq<nat>)>
    decreases fuel, 1
  {
    if fuel == 0 then None
    else if g in seen then Some((true, g.player1))
    else match RecRound(g, fuel - 1)
      case None => None
      case Some(Winner(p, deck)) => Some((p, deck))
      case Some(NoWinner(s)) => RecGame(s, seen + {g}, fuel - 1)
  }

  /** `recursive_combat_turn`: the round decided by a sub-game when both can recurse, else by the higher card. */
  function RecRound(g: Game, fuel: nat): Option<RoundResult>
    decreases fuel, 2
  {
    if !CanDraw(g) then None
    else if !Recurses(g) then Some(Round(g, g.player1[0] > g.player2[0]))
    else match RecGame(SubGame(g), {}, fuel)
      case None => None
      case Some(result) => Some(Round(g, result.0))
  }

  /** A round in which a player cannot recurse is a round of plain Combat: the higher card wins it. */
  lemma ShortRound(g: Game, fuel: nat)
    requires CanDraw(g) && !Recurses(g)
    ensures RecRound(g, fuel) == CombatRound(g)
  {
  }

  /**
   * A round in which both can recurse is won by the winner of the sub-game, which is played with
   * fewer cards than the game it decides.
   */
  lemma SubGameRound(g: Game, fuel: nat)
    requires CanDraw(g) && Recurses(g) && RecRound(g, fuel).Some?
    ensures Total(SubGame(g)) < Total(g) && RecGame(SubGame(g), {}, fuel).Some?
    ensures RecRound(g, fuel).value == Round(g, RecGame(SubGame(g), {}, fuel).value.0)
  {
  }

  /** Recursive Combat never loses a card: a win by emptying the other deck holds every card, a win by repetition some of them. */
  lemma {:induction false} RecGameCards(g: Game, seen: set<Game>, fuel: nat)
    requires RecGame(g, seen, fuel).Some?
    ensures multiset(RecGame(g, seen, fuel).value.1) <= Cards(g)
    ensures !RecGame(g, seen, fuel).value.0 ==> multiset(RecGame(g, seen, fuel).value.1) == Cards(g)
    decreases fuel
  {
    if g !in seen {
      var r := RecRound(g, fuel - 1);
      var w :| r == Some(Round(g, w));
      RoundCards(g, w);
      if r.value.NoWinner? {
        RecGameCards(r.value.state, seen + {g}, fuel - 1);
      }
    }
  }

  /** `recursive_combat_turn`: both top cards drawn (a panic on an empty deck), then the sub-game or the higher card. */
  method RecursiveCombatTurn(g: Game, fuel: nat) returns (r: Option<RoundResult>)
    ensures r == RecRound(g, fuel)
    decreases fuel, 2
  {
    if g.player1 == [] || g.player2 == [] {
      return None;
    }
    var player1, player2 := g.player1, g.player2;
    var c1 := player1[0];
    player1 := player1[1..];
    var c2 := player2[0];
    player2 := player2[1..];
    assert g == Game([c1] + player1, [c2] + player2);
    var player1Wins;
    if |player1| < c1 || |player2| < c2 {
      player1Wins := c1 > c2;
    } else {
      var sub := Game(player1[..c1], player2[..c2]);
      assert sub == SubGame(g);
      var result := PlayRecursive(sub, fuel);
      if result.None? {
        return None;
      }
      player1Wins := result.value.0;
    }
    var res := Settle(player1, player2, c1, c2, player1Wins);
    return Some(res);
  }

  /**
   * `play_recursive`: rounds until a player wins, with the positions seen so far in this game; a
   * position seen before ends the game, won by player 1 with its deck.
   */
  method PlayRecursive(g: Game, fuel: nat) returns (r: Option<(bool, seq<nat>)>)
    ensures r == RecGame(g, {}, fuel)
    decreases fuel, 1
  {
    var state := g;
    var previousRounds: set<Game> := {};
    var f: nat := fuel;
    while true
      invariant f <= fuel && RecGame(state, previousRounds, f) == RecGame(g, {}, fuel)
      decreases f
    {
      if f == 0 {
        return None;
      }
      if state in previousRounds {
        return Some((true, state.player1));
      }
      var turn := RecursiveCombatTurn(state, f - 1);
      previousRounds := previousRounds + {state};
      match turn
      case None =>
        return None;
      case Some(Winner(p, deck)) =>
        return Some((p, deck));
      case Some(NoWinner(s)) =>
        state := s;
        f := f - 1;
    }
  }

  // ---- Scores ----

  /** `calculate_hand_score`: the bottom card counts once, the one above it twice, and so on up. */
  function Score(hand: seq<nat>): nat {
    if hand == [] then 0 else |hand| * hand[0] + Score(hand[1..])
  }

  /** The sum of the cards. */
  function Sum(hand: seq<nat>): nat {
    if hand == [] then 0 else hand[0] + Sum(hand[1..])
  }

  /** A card put at the bottom counts once and lifts every card above it by one more count. */
  lemma {:induction false} ScoreAppend(hand: seq<nat>, x: nat)
    ensures Score(hand + [x]) == Score(hand) + Sum(hand) + x
    ensures Sum(hand + [x]) == Sum(hand) + x
  {
    if hand != [] {
      assert (hand + [x])[1..] == hand[1..] + [x];
      ScoreAppend(hand[1..], x);
    }
  }

  /** Every card counts at least once and at most as many times as there are cards. */
  lemma {:induction false} ScoreBounds(hand: seq<nat>)
    ensures Sum(hand) <= Score(hand) <= |hand| * Sum(hand)
  {
    if hand != [] {
      var n, top, rest := |hand|, hand[0], hand[1..];
      ScoreBounds(rest);
      MulMonotone(1, n, top);
      MulMonotone(n - 1, n, Sum(rest));
      Distribute(n, top, Sum(rest));
      assert n * top == top * n;
    }
  }

  /** `calculate_hand_score`: the sum of each card times its place counted from the bottom. */
  method CalculateHandScore(hand: seq<nat>) returns (s: nat)
    ensures s == Score(hand)
  {
    s := 0;
    for i := 0 to |hand|
      invariant s + Score(hand[i..]) == Score(hand)
    {
      assert hand[i..][1..] == hand[i + 1..];
      s := s + (|hand| - i) * hand[i];
    }
  }

  /** Part 1: the score of the winner of Combat. */
  method Part1(g: Game, fuel: nat) returns (r: Option<nat>)
    ensures r.Some? <==> Played(g, fuel).Some?
    ensures r.Some? ==> r.value == Score(Played(g, fuel).value)
  {
    var deck := Play(g, fuel);
    if deck.None? {
      return None;
    }
    var s := CalculateHandScore(deck.value);
    return Some(s);
  }

  /** Part 2: the score of the winner of Recursive Combat. */
  method Part2(g: Game, fuel: nat) returns (r: Option<nat>)
    ensures r.Some? <==> RecGame(g, {}, fuel).Some?
    ensures r.Some? ==> r.value == Score(RecGame(g, {}, fuel).value.1)
  {
    var result := PlayRecursive(g, fuel);
    if result.None? {
      return None;
    }
    var s := CalculateHandScore(result.value.1);
    return Some(s);
  }
}
