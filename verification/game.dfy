/** The rules engine of countercoup/model/game.py as an immutable record and
    pure transitions. Every public move returns an Outcome: either the new
    game, or the exception it raises together with the game as Python leaves
    it at that moment (the source mutates in place, so writes made before a
    raise persist). Shuffles draw from the caller-supplied `picks`. */
module Engine {
  import opened Util
  import opened Items

  /** Coins a new player starts with. countercoup/model/player.py is not part
      of this model; the value is the game's standard two coins. */
  const StartingCoins: int := 2

  /** The fifteen-card deck in the order the constructor builds it. */
  const StartingDeck: seq<Card> :=
    [Duke, Contessa, Captain, Assassin, Ambassador,
     Duke, Contessa, Captain, Assassin, Ambassador,
     Duke, Contessa, Captain, Assassin, Ambassador]

  datatype Player = Player(cards: seq<Card>, discard: seq<Card>, coins: int, inGame: bool)

  datatype Game = Game(
    players: seq<Player>,
    deck: seq<Card>,
    state: State,
    currentPlayer: nat,
    actionPlayer: nat,
    attackPlayer: Option<nat>,
    counteractPlayer: Option<nat>,
    winningPlayer: Option<nat>,
    currentAction: Option<Action>,
    loseCardState: Option<State>,
    loseCardPlayer: Option<nat>,
    history: seq<Option<History>>,
    currentHistory: Option<History>,
    picks: seq<nat>)

  /** Why an IllegalMoveException was raised. */
  datatype Reason = WrongState | TooFewCoins | TooManyCoins | NeedTarget | CardNotHeld

  datatype Fault =
    | IllegalMove(reason: Reason)
    | RemoveMissing     // ValueError: list.remove of a card the hand lacks
    | PopFromEmpty      // IndexError: deck.pop(0) on an empty deck
    | TargetOutOfRange  // IndexError: a target beyond the player list
    | NoneValue         // AttributeError/TypeError: a field read while None

  /** The result of a move: the new game, or the exception and the game as left. */
  datatype Outcome = Moved(game: Game) | Raised(fault: Fault, game: Game)

  // ---------------------------------------------------------------- counting

  /** Indices of the players still in the game, ascending. */
  function InGameIndices(ps: seq<Player>): (r: seq<nat>)
    ensures forall k :: 0 <= k < |r| ==> r[k] < |ps| && ps[r[k]].inGame
    ensures forall i :: 0 <= i < |ps| && ps[i].inGame ==> i in r
  {
    if |ps| == 0 then []
    else
      var init := InGameIndices(ps[..|ps| - 1]);
      if ps[|ps| - 1].inGame then init + [|ps| - 1] else init
  }

  /** The indices come in ascending order. */
  lemma {:induction false} InGameIndicesAscend(ps: seq<Player>)
    ensures forall k, l :: 0 <= k < l < |InGameIndices(ps)| ==> InGameIndices(ps)[k] < InGameIndices(ps)[l]
  {
    if |ps| > 0 {
      var q := ps[..|ps| - 1];
      var init := InGameIndices(q);
      InGameIndicesAscend(q);
      var r := InGameIndices(ps);
      if ps[|ps| - 1].inGame {
        assert r == init + [|ps| - 1];
        forall k, l | 0 <= k < l < |r| ensures r[k] < r[l] {
          if l < |init| {
            assert r[k] == init[k] && r[l] == init[l];
          } else {
            assert r[k] == init[k] && init[k] < |q|;
          }
        }
      } else {
        assert r == init;
      }
    }
  }

  function InGameCount(ps: seq<Player>): nat { |InGameIndices(ps)| }

  /** At least two players still hold cards, so the game is not decided. */
  predicate Live(g: Game) { InGameCount(g.players) >= 2 }

  lemma {:induction false} CountUpdate(ps: seq<Player>, i: nat, p: Player)
    requires i < |ps|
    ensures InGameCount(ps[i := p]) ==
      InGameCount(ps) - (if ps[i].inGame then 1 else 0) + (if p.inGame then 1 else 0)
    decreases |ps|
  {
    var qs := ps[i := p];
    var n := |ps|;
    if i == n - 1 {
      assert qs[..n - 1] == ps[..n - 1];
    } else {
      assert qs[..n - 1] == ps[..n - 1][i := p];
      CountUpdate(ps[..n - 1], i, p);
    }
  }

  lemma CountPositive(ps: seq<Player>, i: nat)
    requires i < |ps| && ps[i].inGame
    ensures InGameCount(ps) >= 1
  {
    assert i in InGameIndices(ps);
  }

  // ------------------------------------------------------------ conservation

  function Held(p: Player): multiset<Card> { multiset(p.cards) + multiset(p.discard) }

  function HeldAll(ps: seq<Player>): multiset<Card> {
    if |ps| == 0 then multiset{} else HeldAll(ps[..|ps| - 1]) + Held(ps[|ps| - 1])
  }

  /** Every card of the game: the deck, all hands and all discard piles. */
  function AllCards(g: Game): multiset<Card> { multiset(g.deck) + HeldAll(g.players) }

  lemma {:induction false} HeldUpdate(ps: seq<Player>, i: nat, p: Player)
    requires i < |ps|
    ensures HeldAll(ps[i := p]) + Held(ps[i]) == HeldAll(ps) + Held(p)
    decreases |ps|
  {
    var qs := ps[i := p];
    var m := |ps| - 1;
    if i == m {
      assert qs[..m] == ps[..m];
    } else {
      var init := ps[..m];
      assert qs[..m] == init[i := p];
      assert init[i] == ps[i];
      HeldUpdate(init, i, p);
      assert HeldAll(qs) == HeldAll(init[i := p]) + Held(ps[m]);
      assert HeldAll(ps) == HeldAll(init) + Held(ps[m]);
      Rearrange(HeldAll(init[i := p]), Held(ps[m]), Held(ps[i]), HeldAll(init), Held(p));
    }
  }

  lemma Rearrange(a: multiset<Card>, b: multiset<Card>, c: multiset<Card>, d: multiset<Card>, e: multiset<Card>)
    requires a + c == d + e
    ensures (a + b) + c == (d + b) + e
  {
    forall x ensures ((a + b) + c)[x] == ((d + b) + e)[x] {
      assert (a + c)[x] == (d + e)[x];
    }
  }

  lemma AddLeft(d: multiset<Card>, a: multiset<Card>, b: multiset<Card>, c: multiset<Card>, e: multiset<Card>)
    requires a + b == c + e
    ensures (d + a) + b == (d + c) + e
  {
    forall x ensures ((d + a) + b)[x] == ((d + c) + e)[x] {
      assert (a + b)[x] == (c + e)[x];
    }
  }

  lemma Cancel(a: multiset<Card>, b: multiset<Card>, x: multiset<Card>)
    requires a + x == b + x
    ensures a == b
  {
    forall c ensures a[c] == b[c] {
      assert (a + x)[c] == (b + x)[c];
    }
  }

  // ------------------------------------------------------------ well-formed

  predicate InRange(ps: seq<Player>, o: Option<nat>) { o.Some? ==> o.value < |ps| }

  /** What every game built by NewGame keeps: player indices in range, two
      or more players in game until it is finished, and a remembered context
      while a card is being lost. */
  predicate WellFormed(g: Game) {
    && g.currentPlayer < |g.players|
    && g.actionPlayer < |g.players|
    && InRange(g.players, g.attackPlayer)
    && InRange(g.players, g.counteractPlayer)
    && InRange(g.players, g.winningPlayer)
    && InRange(g.players, g.loseCardPlayer)
    && (g.state != State.GameFinished ==> Live(g))
    && (g.state == State.SelectCardToLose ==> g.loseCardState.Some? && g.loseCardPlayer.Some?)
  }

  /** A successful step keeps the game well-formed, the number of seats, and
      every card. */
  predicate Preserved(g: Game, g': Game) {
    WellFormed(g') && |g'.players| == |g.players| && AllCards(g') == AllCards(g)
  }

  // ------------------------------------------------------------ next player

  /** The seat k places after seat p at a table of n: Python's `(p + k) % n`
      for an in-range p and 1 <= k <= n (see SeatIsPythonMod). */
  function Seat(p: nat, k: nat, n: nat): (s: nat)
    requires p < n && k <= n
    ensures s < n
  {
    if p + k < n then p + k else p + k - n
  }

  lemma SeatIsPythonMod(p: nat, k: nat, n: nat)
    requires p < n && k <= n
    ensures Seat(p, k, n) == (p + k) % n
  {
    if p + k >= n {
      assert p + k == n + Seat(p, k, n);
      assert (p + k) / n == 1;
    } else {
      assert (p + k) / n == 0;
    }
  }

  function NextFrom(ps: seq<Player>, p: nat, x: nat): (r: Option<nat>)
    requires p < |ps| && 1 <= x
    ensures r.Some? ==> r.value < |ps| && ps[r.value].inGame
    ensures r.Some? ==> exists k :: x <= k <= |ps| && r.value == Seat(p, k, |ps|)
                          && forall j :: x <= j < k ==> !ps[Seat(p, j, |ps|)].inGame
    ensures r.None? ==> forall j :: x <= j <= |ps| ==> !ps[Seat(p, j, |ps|)].inGame
    decreases |ps| + 1 - x
  {
    if x > |ps| then None
    else if ps[Seat(p, x, |ps|)].inGame then Some(Seat(p, x, |ps|))
    else NextFrom(ps, p, x + 1)
  }

  /** `__next_player(p)`: the first seat after p, going round the table, whose
      player is in game — p itself when p is the only one left; None when
      nobody is in game. */
  function NextPlayer(ps: seq<Player>, p: nat): (r: Option<nat>)
    requires p < |ps|
    ensures r.Some? ==> r.value < |ps| && ps[r.value].inGame
    ensures r.Some? ==> exists k :: 1 <= k <= |ps| && r.value == Seat(p, k, |ps|)
                          && forall j :: 1 <= j < k ==> !ps[Seat(p, j, |ps|)].inGame
    ensures r.None? <==> forall i :: 0 <= i < |ps| ==> !ps[i].inGame
  {
    var r := NextFrom(ps, p, 1);
    if r.None? then
      NobodyAfter(ps, p);
      r
    else r
  }

  lemma NobodyAfter(ps: seq<Player>, p: nat)
    requires p < |ps|
    requires forall j :: 1 <= j <= |ps| ==> !ps[Seat(p, j, |ps|)].inGame
    ensures forall i :: 0 <= i < |ps| ==> !ps[i].inGame
  {
    forall i | 0 <= i < |ps| ensures !ps[i].inGame {
      var k := OffsetTo(|ps|, p, i);
      assert !ps[Seat(p, k, |ps|)].inGame;
    }
  }

  /** Seats whose in-game flags agree have the same next player. */
  lemma SameSeats(ps: seq<Player>, qs: seq<Player>, p: nat)
    requires p < |ps| == |qs|
    requires forall j :: 0 <= j < |ps| ==> ps[j].inGame == qs[j].inGame
    ensures NextPlayer(ps, p) == NextPlayer(qs, p)
  {
    SameSeatsFrom(ps, qs, p, 1);
  }

  lemma {:induction false} SameSeatsFrom(ps: seq<Player>, qs: seq<Player>, p: nat, x: nat)
    requires p < |ps| == |qs| && 1 <= x
    requires forall j :: 0 <= j < |ps| ==> ps[j].inGame == qs[j].inGame
    ensures NextFrom(ps, p, x) == NextFrom(qs, p, x)
    decreases |ps| + 1 - x
  {
    if x <= |ps| {
      SameSeatsFrom(ps, qs, p, x + 1);
    }
  }

  /** Every seat is reached from p by some step between 1 and n. */
  function OffsetTo(n: nat, p: nat, i: nat): (k: nat)
    requires p < n && i < n
    ensures 1 <= k <= n && Seat(p, k, n) == i
  {
    if i > p then i - p else i + n - p
  }

  /** NextPlayer when someone is known to be in game. */
  function Next(ps: seq<Player>, p: nat): (q: nat)
    requires p < |ps| && InGameCount(ps) >= 1
    ensures q < |ps| && ps[q].inGame
    ensures NextPlayer(ps, p) == Some(q)
  {
    var i := InGameIndices(ps)[0];
    assert ps[i].inGame;
    NextPlayer(ps, p).value
  }

  // --------------------------------------------------------- field updates

  /** `players[i] = p` with what that does to the in-game count and the cards. */
  function WithPlayer(g: Game, i: nat, p: Player): (r: Game)
    requires i < |g.players|
    ensures r == g.(players := g.players[i := p])
    ensures InGameCount(r.players) ==
      InGameCount(g.players) - (if g.players[i].inGame then 1 else 0) + (if p.inGame then 1 else 0)
    ensures AllCards(r) + Held(g.players[i]) == AllCards(g) + Held(p)
  {
    var r := g.(players := g.players[i := p]);
    CountUpdate(g.players, i, p);
    HeldUpdate(g.players, i, p);
    AddLeft(multiset(g.deck), HeldAll(r.players), Held(g.players[i]), HeldAll(g.players), Held(p));
    r
  }

  /** `players[i].coins += delta`. */
  function Credit(g: Game, i: nat, delta: int): (r: Game)
    requires i < |g.players|
    ensures r == g.(players := g.players[i := g.players[i].(coins := g.players[i].coins + delta)])
    ensures InGameCount(r.players) == InGameCount(g.players)
    ensures AllCards(r) == AllCards(g)
  {
    var p := g.players[i].(coins := g.players[i].coins + delta);
    assert Held(p) == Held(g.players[i]);
    var r := WithPlayer(g, i, p);
    Cancel(AllCards(r), AllCards(g), Held(p));
    r
  }

  /** `shuffle(deck)`: consumes one pick per card. */
  function ShuffleDeck(g: Game): (r: Game)
    ensures r == g.(deck := r.deck, picks := r.picks)
    ensures |r.deck| == |g.deck| && multiset(r.deck) == multiset(g.deck)
    ensures AllCards(r) == AllCards(g)
  {
    var s := Shuffle(g.deck, g.picks);
    g.(deck := s.0, picks := s.1)
  }

  /** `players[i].cards.append(deck.pop(0))`. */
  function PopTo(g: Game, i: nat): (r: Outcome)
    requires i < |g.players|
    ensures |g.deck| == 0 <==> r.Raised?
    ensures r.Raised? ==> r == Raised(PopFromEmpty, g)
    ensures r.Moved? ==> r.game == g.(deck := g.deck[1..],
                                    players := g.players[i := g.players[i].(cards := g.players[i].cards + [g.deck[0]])])
    ensures r.Moved? ==> InGameCount(r.game.players) == InGameCount(g.players)
    ensures r.Moved? ==> AllCards(r.game) == AllCards(g)
  {
    if |g.deck| == 0 then Raised(PopFromEmpty, g)
    else
      var p := g.players[i];
      var top := g.deck[0];
      var g1 := g.(deck := g.deck[1..]);
      var p' := p.(cards := p.cards + [top]);
      assert g.deck == [top] + g.deck[1..];
      assert multiset(g.deck) == multiset{top} + multiset(g1.deck);
      assert Held(p') == Held(p) + multiset{top};
      var r := WithPlayer(g1, i, p');
      assert AllCards(g1) + multiset{top} == AllCards(g);
      assert AllCards(r) + Held(p) == AllCards(g1) + (Held(p) + multiset{top});
      assert AllCards(r) + Held(p) == AllCards(g) + Held(p);
      Cancel(AllCards(r), AllCards(g), Held(p));
      Moved(r)
  }

  /** `history.append(current_history); current_history = None`. */
  function Commit(g: Game): (r: Game)
    ensures r == g.(history := g.history + [g.currentHistory], currentHistory := None)
  {
    g.(history := g.history + [g.currentHistory], currentHistory := None)
  }

  /** Lines 314-319: the card moves from hand to discard pile, and a player
      left with no cards is out. */
  function DiscardCard(g: Game, i: nat, card: Card): (r: Game)
    requires i < |g.players| && card in g.players[i].cards
    ensures r == g.(players := r.players) && |r.players| == |g.players|
    ensures r.players[i].cards == RemoveFirst(g.players[i].cards, card)
    ensures r.players[i].discard == g.players[i].discard + [card]
    ensures r.players[i].coins == g.players[i].coins
    ensures r.players[i].inGame == (g.players[i].inGame && |r.players[i].cards| > 0)
    ensures forall j :: 0 <= j < |g.players| && j != i ==> r.players[j] == g.players[j]
    ensures InGameCount(r.players) >= InGameCount(g.players) - 1
    ensures AllCards(r) == AllCards(g)
  {
    var p := g.players[i];
    var left := RemoveFirst(p.cards, card);
    var p' := p.(cards := left, discard := p.discard + [card],
                 inGame := if |left| == 0 then false else p.inGame);
    assert multiset(p'.discard) == multiset(p.discard) + multiset{card};
    assert Held(p') == Held(p);
    var r := WithPlayer(g, i, p');
    Cancel(AllCards(r), AllCards(g), Held(p));
    r
  }

  /** `players[i].cards.remove(card)`, for a card the player holds. */
  function TakeFrom(g: Game, i: nat, card: Card): (r: Game)
    requires i < |g.players| && card in g.players[i].cards
    ensures r == g.(players := g.players[i := g.players[i].(cards := RemoveFirst(g.players[i].cards, card))])
    ensures InGameCount(r.players) == InGameCount(g.players)
    ensures AllCards(r) + multiset{card} == AllCards(g)
  {
    var p := g.players[i];
    var p' := p.(cards := RemoveFirst(p.cards, card));
    HeldLess(p, p', card);
    var r := WithPlayer(g, i, p');
    Shift(AllCards(r), AllCards(g), Held(p'), multiset{card});
    r
  }

  lemma HeldLess(p: Player, p': Player, card: Card)
    requires p'.discard == p.discard && multiset(p'.cards) + multiset{card} == multiset(p.cards)
    ensures Held(p) == Held(p') + multiset{card}
  {
    forall c ensures Held(p)[c] == (Held(p') + multiset{card})[c] {
      assert (multiset(p'.cards) + multiset{card})[c] == multiset(p.cards)[c];
    }
  }

  lemma Shift(a: multiset<Card>, c: multiset<Card>, x: multiset<Card>, y: multiset<Card>)
    requires a + (x + y) == c + x
    ensures a + y == c
  {
    forall e ensures (a + y)[e] == c[e] {
      assert (a + (x + y))[e] == (c + x)[e];
    }
  }

  /** `deck.append(card)`. */
  function PutBack(g: Game, card: Card): (r: Game)
    ensures r == g.(deck := g.deck + [card])
    ensures AllCards(r) == AllCards(g) + multiset{card}
  {
    var r := g.(deck := g.deck + [card]);
    assert multiset(r.deck) == multiset(g.deck) + multiset{card};
    r
  }

  /** Lines 167-170 and 244-247: the card goes back into the deck, the deck
      is shuffled, the card leaves player i's hand and i draws the top card.
      The removal raises, after the deck has grown, when i lacks the card. */
  function ReturnAndRedraw(g: Game, i: nat, card: Card): (r: Outcome)
    requires i < |g.players|
    ensures r.Raised? <==> card !in g.players[i].cards
    ensures r.Raised? ==> r.fault == RemoveMissing && AllCards(r.game) == AllCards(g) + multiset{card}
    ensures r.Raised? ==> |r.game.deck| == |g.deck| + 1 && r.game == g.(deck := r.game.deck, picks := r.game.picks)
    ensures r.Moved? ==> r.game == g.(players := r.game.players, deck := r.game.deck, picks := r.game.picks)
    ensures r.Moved? ==> |r.game.players| == |g.players|
                         && r.game.players == g.players[i := g.players[i].(cards := r.game.players[i].cards)]
    ensures r.Moved? ==> |r.game.players[i].cards| == |g.players[i].cards|
    ensures r.Moved? ==> InGameCount(r.game.players) == InGameCount(g.players)
    ensures r.Moved? ==> AllCards(r.game) == AllCards(g) && |r.game.deck| == |g.deck|
  {
    var g2 := ShuffleDeck(PutBack(g, card));
    if card !in g2.players[i].cards then Raised(RemoveMissing, g2)
    else
      var r := SwapIn(g2, i, card);
      assert g2.players == g.players;
      Cancel(AllCards(r.game), AllCards(g), multiset{card});
      r
  }

  /** Lines 169-170 on a nonempty deck: the card leaves player i's hand and
      the top card of the deck takes its place. */
  function SwapIn(g: Game, i: nat, card: Card): (r: Outcome)
    requires i < |g.players| && card in g.players[i].cards && |g.deck| > 0
    ensures r.Moved? && r.game == g.(players := r.game.players, deck := g.deck[1..])
    ensures |r.game.players| == |g.players| && InGameCount(r.game.players) == InGameCount(g.players)
    ensures |r.game.players[i].cards| == |g.players[i].cards|
    ensures r.game.players == g.players[i := g.players[i].(cards := r.game.players[i].cards)]
    ensures AllCards(r.game) + multiset{card} == AllCards(g)
  {
    var p := g.players[i];
    var top := g.deck[0];
    var p' := p.(cards := RemoveFirst(p.cards, card) + [top]);
    var g1 := g.(deck := g.deck[1..]);
    assert g.deck == [top] + g1.deck;
    assert AllCards(g1) + multiset{top} == AllCards(g);
    assert Held(p') + multiset{card} == Held(p) + multiset{top};
    var r := WithPlayer(g1, i, p');
    Rebalance(AllCards(r), Held(p), AllCards(g1), Held(p'), multiset{card}, multiset{top}, AllCards(g));
    Moved(r)
  }

  /** Multiset bookkeeping for a card that leaves a hand while another joins it. */
  lemma Rebalance(a: multiset<Card>, h: multiset<Card>, b: multiset<Card>, h': multiset<Card>,
                  c: multiset<Card>, t: multiset<Card>, total: multiset<Card>)
    requires a + h == b + h' && h' + c == h + t && b + t == total
    ensures a + c == total
  {
    forall e ensures (a + c)[e] == total[e] {
      assert (a + h)[e] == (b + h')[e];
      assert (h' + c)[e] == (h + t)[e];
      assert (b + t)[e] == total[e];
    }
  }

  /** Lines 92-94: shuffle, then the actor draws two cards. */
  function DrawTwo(g: Game, i: nat): (r: Outcome)
    requires i < |g.players|
    ensures r.Moved? ==> r.game == g.(players := r.game.players, deck := r.game.deck, picks := r.game.picks)
    ensures r.Moved? ==> |r.game.players| == |g.players| && InGameCount(r.game.players) == InGameCount(g.players)
    ensures r.Moved? ==> |r.game.players[i].cards| == |g.players[i].cards| + 2
    ensures r.Moved? ==> AllCards(r.game) == AllCards(g)
    ensures r.Raised? ==> r.fault == PopFromEmpty
  {
    var g1 := ShuffleDeck(g);
    var r1 := PopTo(g1, i);
    if r1.Raised? then r1 else PopTo(r1.game, i)
  }

  /** Lines 87-90: the actor takes min(2, target's coins) from the target. */
  function StealCoins(g: Game, actor: nat, target: nat): (r: Game)
    requires actor < |g.players| && target < |g.players|
    ensures r == g.(players := r.players) && |r.players| == |g.players|
    ensures InGameCount(r.players) == InGameCount(g.players) && AllCards(r) == AllCards(g)
    ensures actor != target ==>
      && r.players[actor].coins + r.players[target].coins == g.players[actor].coins + g.players[target].coins
      && r.players[actor].coins == g.players[actor].coins + Min(2, g.players[target].coins)
      && (g.players[target].coins >= 0 ==> r.players[target].coins >= 0)
    ensures actor == target ==> r.players[actor].coins == g.players[actor].coins
    ensures forall j :: 0 <= j < |g.players| && j != actor && j != target ==> r.players[j] == g.players[j]
  {
    var v := Min(2, g.players[target].coins);
    Credit(Credit(g, actor, v), target, -v)
  }

  // ------------------------------------------------- the nested resolution

  /** Ranks for the termination of the nested card-loss calls: a loss that
      interrupts a challenge or counteraction may resolve the action, which
      may start one more loss whose context is a settled turn. */
  function Rank(s: Option<State>): nat {
    if s == Some(State.DecideToBlock) || s == Some(State.DecideToCounteract) then 3 else 0
  }

  /** Lines 59-69 of `__play_action`: the cost is paid and, except for an
      Exchange, the turn passes to the next player in game. */
  function Pay(g: Game, a: Action): (r: Game)
    requires WellFormed(g) && Live(g)
    ensures WellFormed(r) && Live(r) && |r.players| == |g.players| && AllCards(r) == AllCards(g)
    ensures r.attackPlayer == g.attackPlayer && r.currentAction == g.currentAction
    ensures r.history == g.history && r.currentHistory == g.currentHistory
    ensures r.players[g.actionPlayer].coins == g.players[g.actionPlayer].coins - Cost(a)
    ensures forall j :: 0 <= j < |g.players| ==>
              r.players[j].inGame == g.players[j].inGame && r.players[j].cards == g.players[j].cards
    ensures forall j :: 0 <= j < |g.players| && j != g.actionPlayer ==> r.players[j] == g.players[j]
    ensures a == Exchange ==> r.state == State.SelectCardsToDiscard && r.actionPlayer == g.actionPlayer
                              && r.currentPlayer == g.currentPlayer
    ensures a != Exchange ==> r.state == State.SelectAction
                              && r.actionPlayer == r.currentPlayer == Next(g.players, g.actionPlayer)
  {
    var g1 := Credit(g, g.actionPlayer, -(Cost(a) as int));
    if a == Exchange then g1.(state := State.SelectCardsToDiscard)
    else
      var np := Next(g1.players, g.actionPlayer);
      assert g1.players == g.players[g.actionPlayer := g1.players[g.actionPlayer]];
      assert NextPlayer(g1.players, g.actionPlayer) == NextPlayer(g.players, g.actionPlayer) by {
        SameSeats(g.players, g1.players, g.actionPlayer);
      }
      g1.(state := State.SelectAction, actionPlayer := np, currentPlayer := np)
  }

  /** Lines 74-94 for the actions that take no card: coins for Income,
      Foreign Aid, Tax and Steal, two new cards for Exchange. */
  function Benefit(g: Game, a: Action, actor: nat): (r: Outcome)
    requires WellFormed(g) && Live(g) && actor < |g.players| && a != Coup && a != Assassinate
    ensures r.Moved? ==> Preserved(g, r.game) && Live(r.game)
    ensures r.Moved? ==> r.game == g.(players := r.game.players, deck := r.game.deck, picks := r.game.picks)
  {
    if a == Steal then
      if g.attackPlayer.None? then Raised(NoneValue, g)
      else Moved(StealCoins(g, actor, g.attackPlayer.value))
    else if a == Exchange then DrawTwo(g, actor)
    else Moved(Credit(g, actor, if a == Income then 1 else if a == ForeignAid then 2 else if a == Tax then 3 else 0))
  }

  /** `__play_action`: pay the cost, pass the turn (except for Exchange), apply
      the effect, then commit the history entry and clear the action. */
  function PlayAction(g: Game): (r: Outcome)
    requires WellFormed(g) && Live(g)
    ensures r.Moved? ==> Preserved(g, r.game)
    decreases 1, 0
  {
    if g.currentAction.None? then Raised(NoneValue, g)
    else Settle(Effect(Pay(g, g.currentAction.value), g.currentAction.value, g.actionPlayer))
  }

  /** Lines 70-94, once the cost is paid: Coup and Assassinate take a card
      from the target, the other actions go to Benefit. */
  function Effect(g: Game, a: Action, actor: nat): (r: Outcome)
    requires WellFormed(g) && Live(g) && actor < |g.players|
    requires g.state == State.SelectAction || g.state == State.SelectCardsToDiscard
    ensures r.Moved? ==> Preserved(g, r.game)
    decreases 0, 3
  {
    if a == Coup || a == Assassinate then
      if g.attackPlayer.None? then Raised(NoneValue, g)
      else LoseCard(g, g.attackPlayer.value)
    else Benefit(g, a, actor)
  }

  /** Lines 96-99: the turn's entry is committed and the action cleared,
      unless the effect raised. */
  function Settle(r: Outcome): (s: Outcome)
    requires r.Moved? ==> WellFormed(r.game)
    ensures r.Raised? ==> s == r
    ensures s.Moved? ==> r.Moved? && Preserved(r.game, s.game)
    ensures s.Moved? ==> s.game.history == r.game.history + [r.game.currentHistory]
                         && s.game.currentHistory.None? && s.game.currentAction.None? && s.game.attackPlayer.None?
  {
    if r.Raised? then r
    else Moved(Commit(r.game).(currentAction := None, attackPlayer := None))
  }

  /** `__determine_counteract`: with no counter cards the action resolves;
      a targeted action is offered to its target; Foreign Aid goes round the
      table from the seat after the actor. */
  function DetermineCounteract(g: Game): (r: Outcome)
    requires WellFormed(g) && Live(g)
    ensures r.Moved? ==> Preserved(g, r.game)
    decreases 2, 0
  {
    if g.currentAction.None? then Raised(NoneValue, g)
    else
      var cs := Counters(g.currentAction.value);
      if cs.None? || cs.value == [] then PlayAction(g)
      else if g.attackPlayer.Some? then
        Moved(g.(state := State.DecideToCounteract, currentPlayer := g.attackPlayer.value))
      else
        Moved(g.(state := State.DecideToCounteract, currentPlayer := Next(g.players, g.actionPlayer)))
  }

  /** `__lose_card(player)`: ignored for a player already out; otherwise the
      context is remembered and the game waits for the card, which is chosen
      at once when the player has a single card. */
  function LoseCard(g: Game, player: nat): (r: Outcome)
    requires WellFormed(g) && Live(g) && player < |g.players|
    ensures r.Moved? ==> Preserved(g, r.game)
    decreases Rank(Some(g.state)), 2
  {
    if !g.players[player].inGame then Moved(g)
    else
      var g1 := g.(loseCardState := Some(g.state), loseCardPlayer := Some(g.currentPlayer),
                   currentPlayer := player, state := State.SelectCardToLose);
      if |g.players[player].cards| == 1 then SelectCardToLose(g1, g.players[player].cards[0])
      else Moved(g1)
  }

  /** `__determine_winner`: the only player left in game, if exactly one is. */
  function DetermineWinner(ps: seq<Player>): (w: Option<nat>)
    ensures w.Some? <==> InGameCount(ps) == 1
    ensures w.Some? ==> w.value < |ps| && ps[w.value].inGame
    ensures w.Some? ==> forall j :: 0 <= j < |ps| && j != w.value ==> !ps[j].inGame
  {
    var idx := InGameIndices(ps);
    if |idx| == 1 then
      assert forall j :: 0 <= j < |ps| && ps[j].inGame ==> j == idx[0];
      Some(idx[0])
    else None
  }

  /** `select_card_to_lose`: the card moves from the current player's hand to
      their discard pile; the last remaining player wins; otherwise play
      resumes according to the state the loss interrupted. */
  function SelectCardToLose(g: Game, card: Card): (r: Outcome)
    requires WellFormed(g)
    ensures g.state != State.SelectCardToLose ==> r == Raised(IllegalMove(WrongState), g)
    ensures g.state == State.SelectCardToLose && card !in g.players[g.currentPlayer].cards ==>
              r == Raised(IllegalMove(CardNotHeld), g)
    ensures r.Moved? ==> Preserved(g, r.game)
    decreases Rank(g.loseCardState), 1
  {
    if g.state != State.SelectCardToLose then Raised(IllegalMove(WrongState), g)
    else if card !in g.players[g.currentPlayer].cards then Raised(IllegalMove(CardNotHeld), g)
    else
      var g1 := DiscardCard(g, g.currentPlayer, card);
      var w := DetermineWinner(g1.players);
      DiscardShape(g, card);
      if w.Some? then
        Moved(Commit(g1).(state := State.GameFinished, winningPlayer := w))
      else
        ResumeAfterLoss(g1)
  }

  /** After the discard of lines 314-319 the game is well-formed again: it is
      finished with the winner recorded, or still live. */
  lemma DiscardShape(g: Game, card: Card)
    requires WellFormed(g) && g.state == State.SelectCardToLose && card in g.players[g.currentPlayer].cards
    ensures var g1 := DiscardCard(g, g.currentPlayer, card);
            var w := DetermineWinner(g1.players);
            && (w.Some? ==> Preserved(g, Commit(g1).(state := State.GameFinished, winningPlayer := w)))
            && (w.None? ==> WellFormed(g1) && Live(g1) && g1.state == State.SelectCardToLose)
  {
  }

  /** Lines 329-345: how play continues after a card is lost without ending
      the game, by the state the loss interrupted. */
  function ResumeAfterLoss(g: Game): (r: Outcome)
    requires WellFormed(g) && Live(g) && g.state == State.SelectCardToLose
    ensures r.Moved? ==> Preserved(g, r.game)
    decreases Rank(g.loseCardState), 0
  {
    var ls := g.loseCardState.value;
    if ls == State.DecideToBlock then DetermineCounteract(g)
    else if ls == State.SelectAction || ls == State.DecideToBlockCounteract then
      var np := Next(g.players, g.actionPlayer);
      Moved(Commit(g).(actionPlayer := np, currentPlayer := np, state := State.SelectAction))
    else if ls == State.DecideToCounteract then
      if g.attackPlayer.Some? then PlayAction(g)
      else if g.counteractPlayer.None? then Raised(NoneValue, g)
      else if NextPlayer(g.players, g.counteractPlayer.value) == Some(g.actionPlayer) then PlayAction(g)
      else Moved(g.(state := State.DecideToCounteract, currentPlayer := Next(g.players, g.counteractPlayer.value)))
    else
      Moved(g.(state := ls, currentPlayer := g.loseCardPlayer.value))
  }

  // ------------------------------------------------------------ public moves

  /** The three checks `select_action` makes before it writes anything. */
  predicate Admissible(g: Game, a: Action)
    requires WellFormed(g)
  {
    && g.state == State.SelectAction
    && g.players[g.actionPlayer].coins >= Cost(a)
    && (g.players[g.currentPlayer].coins >= 10 ==> a == Coup)
  }

  /** The target argument is acceptable for the action. */
  predicate TargetOk(g: Game, a: Action, target: Option<nat>) {
    Targeted(a) ==> target.Some? && target.value < |g.players|
  }

  /** `select_action(action, attack_player)`: the action is announced and
      recorded; an unclaimed action goes straight to the counteraction step
      (which resolves it when nobody can counter it), a claimed one waits for
      challenges from the next player on. */
  function SelectAction(g: Game, a: Action, target: Option<nat>): (r: Outcome)
    requires WellFormed(g)
    ensures g.state != State.SelectAction ==> r == Raised(IllegalMove(WrongState), g)
    ensures g.state == State.SelectAction && g.players[g.actionPlayer].coins < Cost(a) ==>
              r == Raised(IllegalMove(TooFewCoins), g)
    ensures g.state == State.SelectAction && g.players[g.actionPlayer].coins >= Cost(a)
            && g.players[g.currentPlayer].coins >= 10 && a != Coup ==>
              r == Raised(IllegalMove(TooManyCoins), g)
    ensures Admissible(g, a) && Targeted(a) && target.None? ==>
              && r.Raised? && r.fault == IllegalMove(NeedTarget)
              && r.game == g.(currentAction := Some(a), currentHistory := r.game.currentHistory)
              && r.game.currentHistory.Some? && r.game.currentHistory.value.action == Some(a)
    ensures r.Moved? ==> Admissible(g, a) && TargetOk(g, a, target) && Preserved(g, r.game)
    ensures Admissible(g, a) && TargetOk(g, a, target) && Claim(a).Some? ==>
              && r.Moved?
              && r.game.state == State.DecideToBlock
              && r.game.players == g.players && r.game.deck == g.deck
              && r.game.actionPlayer == g.actionPlayer
              && r.game.currentPlayer == Next(g.players, g.actionPlayer)
              && r.game.currentAction == Some(a)
              && r.game.attackPlayer == (if Targeted(a) then target else g.attackPlayer)
  {
    if g.state != State.SelectAction then Raised(IllegalMove(WrongState), g)
    else if g.players[g.actionPlayer].coins - Cost(a) < 0 then Raised(IllegalMove(TooFewCoins), g)
    else if g.players[g.currentPlayer].coins >= 10 && a != Coup then Raised(IllegalMove(TooManyCoins), g)
    else
      var h := EmptyHistory.(action := Some(a), actionPlayer := Some(g.currentPlayer));
      var g1 := g.(currentAction := Some(a), currentHistory := Some(h));
      if Targeted(a) && target.None? then Raised(IllegalMove(NeedTarget), g1)
      else if Targeted(a) && target.value >= |g.players| then Raised(TargetOutOfRange, g1)
      else
        var g2 :=
          if Targeted(a) then g1.(attackPlayer := target, currentHistory := Some(h.(attackingPlayer := target)))
          else g1;
        // The source first tests for an empty counter list with no claim;
        // no action has one (Items.NoActionHasEmptyCounters), so that
        // branch is left out and Income and Coup resolve through here.
        if Claim(a).None? then DetermineCounteract(g2)
        else Moved(g2.(state := State.DecideToBlock, currentPlayer := Next(g2.players, g2.actionPlayer)))
  }

  /** `decide_to_block(decision)`: a challenge of the claimed card. If the actor
      holds it the challenger loses a card and the actor swaps the card for a
      fresh one; otherwise the actor loses a card and the action is void.
      Declining passes the challenge on; when it has gone round to the actor
      the counteraction step starts. */
  function DecideToBlock(g: Game, decision: bool): (r: Outcome)
    requires WellFormed(g)
    ensures g.state != State.DecideToBlock ==> r == Raised(IllegalMove(WrongState), g)
    ensures r.Moved? ==> Preserved(g, r.game)
    // declining passes the challenge on
    ensures g.state == State.DecideToBlock && !decision && Next(g.players, g.currentPlayer) != g.actionPlayer ==>
              r == Moved(g.(currentPlayer := Next(g.players, g.currentPlayer)))
  {
    if g.state != State.DecideToBlock then Raised(IllegalMove(WrongState), g)
    else if decision then
      if g.currentAction.None? || g.currentHistory.None? then Raised(NoneValue, g)
      else
        var card := Claim(g.currentAction.value);
        var h := g.currentHistory.value.(blockingPlayer := Some(g.currentPlayer));
        if card.Some? && card.value in g.players[g.actionPlayer].cards then
          var g1 := g.(currentHistory := Some(h.(blockSuccessful := Some(false))));
          var r2 := LoseCard(g1, g.currentPlayer);
          if r2.Raised? then r2
          else ReturnAndRedraw(r2.game, r2.game.actionPlayer, card.value)
        else
          var g1 := g.(currentHistory := Some(h.(blockSuccessful := Some(true))), state := State.SelectAction);
          LoseCard(g1, g.actionPlayer)
    else
      var np := Next(g.players, g.currentPlayer);
      if np == g.actionPlayer then DetermineCounteract(g.(currentPlayer := np))
      else Moved(g.(currentPlayer := np))
  }

  /** `decide_to_counteract(decision)`: a counter-claim opens the window for
      challenging it; declining resolves the action when the decider was the
      target or the actor, and otherwise asks the next player. */
  function DecideToCounteract(g: Game, decision: bool): (r: Outcome)
    requires WellFormed(g)
    ensures g.state != State.DecideToCounteract ==> r == Raised(IllegalMove(WrongState), g)
    ensures r.Moved? ==> Preserved(g, r.game)
    ensures g.state == State.DecideToCounteract && decision && g.currentHistory.Some? ==>
              && r.Moved?
              && r.game.state == State.DecideToBlockCounteract
              && r.game.counteractPlayer == Some(g.currentPlayer)
              && r.game.currentPlayer == Next(g.players, g.currentPlayer)
              && r.game.currentHistory.Some?
              && r.game.currentHistory.value.counteractingPlayer == Some(g.currentPlayer)
              && r.game.players == g.players
    ensures g.state == State.DecideToCounteract && !decision && g.attackPlayer.None?
            && g.currentPlayer != g.actionPlayer ==>
              r == Moved(g.(currentPlayer := Next(g.players, g.currentPlayer)))
  {
    if g.state != State.DecideToCounteract then Raised(IllegalMove(WrongState), g)
    else if decision then
      var g1 := g.(state := State.DecideToBlockCounteract);
      if g.currentHistory.None? then Raised(NoneValue, g1)
      else
        Moved(g1.(currentHistory := Some(g.currentHistory.value.(counteractingPlayer := Some(g.currentPlayer))),
                  counteractPlayer := Some(g.currentPlayer),
                  currentPlayer := Next(g.players, g.currentPlayer)))
    else if g.attackPlayer.Some? || g.currentPlayer == g.actionPlayer then
      PlayAction(g.(counteractPlayer := None))
    else
      Moved(g.(currentPlayer := Next(g.players, g.currentPlayer)))
  }

  /** The cards of `hand` that appear in `counters`, in hand order. */
  function HeldCounters(hand: seq<Card>, counters: seq<Card>): (r: seq<Card>)
    ensures forall x :: x in r <==> x in hand && x in counters
  {
    if |hand| == 0 then []
    else
      var init := HeldCounters(hand[..|hand| - 1], counters);
      var last := hand[|hand| - 1];
      assert hand == hand[..|hand| - 1] + [last];
      if last in counters then init + [last] else init
  }

  /** `decide_to_block_counteract(decision)`: a challenge of the counter-claim
      is resolved by ChallengeCounteract. When nobody challenges, the action
      is cancelled and the turn passes once the challenge has gone round to
      the counteracting player. */
  function DecideToBlockCounteract(g: Game, decision: bool): (r: Outcome)
    requires WellFormed(g)
    ensures g.state != State.DecideToBlockCounteract ==> r == Raised(IllegalMove(WrongState), g)
    ensures r.Moved? ==> Preserved(g, r.game)
  {
    if g.state != State.DecideToBlockCounteract then Raised(IllegalMove(WrongState), g)
    else if decision then ChallengeCounteract(g)
    else
      var np := Next(g.players, g.currentPlayer);
      if Some(np) == g.counteractPlayer then
        var ap := Next(g.players, g.actionPlayer);
        Moved(Commit(g).(state := State.SelectAction, currentAction := None, actionPlayer := ap, currentPlayer := ap))
      else
        Moved(g.(currentPlayer := np))
  }

  /** Lines 234-255: if the counteracting player holds any of the action's
      counter cards, the FIRST card of the action's counter list goes back to
      the deck and is replaced, and the challenger loses a card; otherwise the
      counteracting player loses a card and the counteraction step continues. */
  function ChallengeCounteract(g: Game): (r: Outcome)
    requires WellFormed(g) && g.state == State.DecideToBlockCounteract
    ensures r.Moved? ==> Preserved(g, r.game)
  {
    if g.currentHistory.None? then Raised(NoneValue, g)
    else
      var h := g.currentHistory.value.(counteractPlayer := Some(g.currentPlayer));
      var g1 := g.(currentHistory := Some(h));
      if g1.counteractPlayer.None? then Raised(NoneValue, g1)
      else
        var cp := g1.counteractPlayer.value;
        var hand := g1.players[cp].cards;
        if |hand| > 0 && (g1.currentAction.None? || Counters(g1.currentAction.value).None?) then
          Raised(NoneValue, g1)
        else
          var cs := if |hand| == 0 then [] else Counters(g1.currentAction.value).value;
          if |HeldCounters(hand, cs)| > 0 then
            var c := cs[0];
            var g2 := g1.(currentHistory := Some(h.(counteractBlockSuccessful := Some(false))));
            var r3 := ReturnAndRedraw(g2, cp, c);
            if r3.Raised? then r3
            else LoseCard(r3.game, g.currentPlayer)
          else
            var g2 := g1.(currentHistory := Some(h.(counteractBlockSuccessful := Some(true))),
                          state := State.DecideToCounteract);
            LoseCard(g2, cp)
  }

  /** A counter-claim of Steal made with an Ambassador but no Captain is
      challenged: the engine tries to return a Captain, after the deck grew. */
  lemma StealCounterMisreturned(g: Game)
    requires WellFormed(g) && g.state == State.DecideToBlockCounteract && g.currentHistory.Some?
    requires g.counteractPlayer.Some? && g.currentAction == Some(Steal)
    requires Ambassador in g.players[g.counteractPlayer.value].cards
    requires Captain !in g.players[g.counteractPlayer.value].cards
    ensures var r := DecideToBlockCounteract(g, true);
            && r.Raised? && r.fault == RemoveMissing
            && AllCards(r.game) == AllCards(g) + multiset{Captain}
            && |r.game.deck| == |g.deck| + 1
  {
    var cp := g.counteractPlayer.value;
    var hand := g.players[cp].cards;
    var cs := Counters(Steal).value;
    assert Ambassador in HeldCounters(hand, cs);
    assert cs[0] == Captain;
  }

  /** An unchallenged counteraction: the action is cancelled, the entry is
      committed and the turn passes. */
  lemma CounterUnchallenged(g: Game)
    requires WellFormed(g) && g.state == State.DecideToBlockCounteract
    requires Some(Next(g.players, g.currentPlayer)) == g.counteractPlayer
    ensures var r := DecideToBlockCounteract(g, false);
            && r.Moved?
            && r.game.state == State.SelectAction
            && r.game.currentAction.None?
            && r.game.players == g.players
            && r.game.history == g.history + [g.currentHistory]
            && r.game.actionPlayer == r.game.currentPlayer == Next(g.players, g.actionPlayer)
            && r.game.attackPlayer == g.attackPlayer
            && r.game.counteractPlayer == g.counteractPlayer
  {
  }

  /** `select_cards_to_discard(card1, card2)`: after an Exchange the actor
      returns two cards to the deck and the turn passes. Both cards are
      checked against the hand before either is removed, so naming one card
      twice while holding a single copy raises after the first has gone. */
  function SelectCardsToDiscard(g: Game, card1: Card, card2: Card): (r: Outcome)
    requires WellFormed(g)
    ensures g.state != State.SelectCardsToDiscard ==> r == Raised(IllegalMove(WrongState), g)
    ensures g.state == State.SelectCardsToDiscard
            && (card1 !in g.players[g.actionPlayer].cards || card2 !in g.players[g.actionPlayer].cards) ==>
              r == Raised(IllegalMove(CardNotHeld), g)
    ensures r.Moved? ==> Preserved(g, r.game)
    ensures r.Moved? ==>
              && multiset(r.game.players[g.actionPlayer].cards) + multiset{card1, card2}
                   == multiset(g.players[g.actionPlayer].cards)
              && r.game.deck == g.deck + [card1, card2]
              && r.game.state == State.SelectAction
              && r.game.actionPlayer == r.game.currentPlayer == Next(g.players, g.actionPlayer)
    ensures g.state == State.SelectCardsToDiscard && card1 in g.players[g.actionPlayer].cards
            && card2 in g.players[g.actionPlayer].cards ==>
              (r.Moved? <==> card2 in RemoveFirst(g.players[g.actionPlayer].cards, card1))
  {
    if g.state != State.SelectCardsToDiscard then Raised(IllegalMove(WrongState), g)
    else if card1 !in g.players[g.actionPlayer].cards || card2 !in g.players[g.actionPlayer].cards then
      Raised(IllegalMove(CardNotHeld), g)
    else
      var i := g.actionPlayer;
      var r1 := ReturnTwo(g, i, card1, card2);
      if r1.Raised? then r1
      else
        var g1 := r1.game;
        SameSeats(g.players, g1.players, i);
        var np := Next(g1.players, i);
        var g2 := g1.(state := State.SelectAction, actionPlayer := np, currentPlayer := np);
        assert g2.players == g1.players && g2.deck == g1.deck;
        assert AllCards(g2) == AllCards(g);
        assert Live(g2);
        Moved(g2)
  }

  /** Lines 356-360: each card in turn leaves the hand for the bottom of the
      deck; the second removal raises when only the first card's copy was
      held. */
  function ReturnTwo(g: Game, i: nat, card1: Card, card2: Card): (r: Outcome)
    requires i < |g.players| && card1 in g.players[i].cards
    ensures r.Raised? <==> card2 !in RemoveFirst(g.players[i].cards, card1)
    ensures r.Raised? ==> r.fault == RemoveMissing
    ensures r.Moved? ==> r.game == g.(players := r.game.players, deck := g.deck + [card1, card2])
    ensures r.Moved? ==> |r.game.players| == |g.players|
    ensures r.Moved? ==> forall j :: 0 <= j < |g.players| ==> r.game.players[j].inGame == g.players[j].inGame
    ensures r.Moved? ==> InGameCount(r.game.players) == InGameCount(g.players)
    ensures r.Moved? ==> multiset(r.game.players[i].cards) + multiset{card1, card2} == multiset(g.players[i].cards)
    ensures r.Moved? ==> AllCards(r.game) == AllCards(g)
  {
    var g1 := ReturnOne(g, i, card1);
    if card2 !in g1.players[i].cards then Raised(RemoveMissing, g1)
    else
      var g2 := ReturnOne(g1, i, card2);
      TwoFewer(multiset(g2.players[i].cards), multiset(g1.players[i].cards),
               multiset(g.players[i].cards), card1, card2);
      assert g2.deck == g.deck + [card1, card2];
      Moved(g2)
  }

  /** `players[i].cards.remove(card); deck.append(card)`. */
  function ReturnOne(g: Game, i: nat, card: Card): (r: Game)
    requires i < |g.players| && card in g.players[i].cards
    ensures r == g.(players := r.players, deck := g.deck + [card])
    ensures |r.players| == |g.players|
    ensures r.players[i] == g.players[i].(cards := RemoveFirst(g.players[i].cards, card))
    ensures forall j :: 0 <= j < |g.players| && j != i ==> r.players[j] == g.players[j]
    ensures InGameCount(r.players) == InGameCount(g.players)
    ensures AllCards(r) == AllCards(g)
  {
    PutBack(TakeFrom(g, i, card), card)
  }

  lemma TwoFewer(a: multiset<Card>, b: multiset<Card>, c: multiset<Card>, x: Card, y: Card)
    requires a + multiset{y} == b && b + multiset{x} == c
    ensures a + multiset{x, y} == c
  {
    forall e ensures (a + multiset{x, y})[e] == c[e] {
      assert (a + multiset{y})[e] == b[e];
      assert (b + multiset{x})[e] == c[e];
    }
  }

  /** The constructor: a shuffled deck of three copies of each card, two cards
      popped from the top for each of n players in seat order, player 0 to
      act. */
  function NewGame(n: nat, picks: seq<nat>): (g: Game)
    requires 2 <= n <= 7
    ensures WellFormed(g) && |g.players| == n
    ensures g.state == State.SelectAction && g.currentPlayer == 0 && g.actionPlayer == 0
    ensures g.history == [] && g.currentHistory.None? && g.currentAction.None?
    ensures forall i :: 0 <= i < n ==>
              && |g.players[i].cards| == 2 && g.players[i].discard == []
              && g.players[i].coins == StartingCoins && g.players[i].inGame
    ensures |g.deck| == 15 - 2 * n
  {
    var s := Shuffle(StartingDeck, picks);
    var dealt := DealFrom(s.0, [], n);
    AllInGame(dealt.0);
    Game(dealt.0, dealt.1, State.SelectAction, 0, 0, None, None, None, None, None, None, [], None, s.1)
  }

  /** A new game holds exactly the fifteen cards of the starting deck. */
  lemma NewGameCards(n: nat, picks: seq<nat>)
    requires 2 <= n <= 7
    ensures AllCards(NewGame(n, picks)) == multiset(StartingDeck)
  {
    var s := Shuffle(StartingDeck, picks);
    var dealt := DealFrom(s.0, [], n);
    DealConserves(s.0, [], n);
    assert HeldAll([]) == multiset{};
    Commute(HeldAll(dealt.0), multiset(dealt.1), multiset(s.0));
  }

  /** Lines 25-28: while fewer than n players are seated, a new player takes
      the top two cards of the deck. */
  function DealFrom(deck: seq<Card>, ps: seq<Player>, n: nat): (r: (seq<Player>, seq<Card>))
    requires |ps| <= n && 2 * (n - |ps|) <= |deck|
    ensures |r.0| == n && |r.1| == |deck| - 2 * (n - |ps|)
    ensures r.0[..|ps|] == ps
    ensures forall i :: |ps| <= i < n ==>
              && |r.0[i].cards| == 2 && r.0[i].discard == []
              && r.0[i].coins == StartingCoins && r.0[i].inGame
    decreases n - |ps|
  {
    if |ps| == n then
      assert ps[..|ps|] == ps;
      (ps, deck)
    else
      var p := Player([deck[0], deck[1]], [], StartingCoins, true);
      var r := DealFrom(deck[2..], ps + [p], n);
      assert r.0[..|ps|] == (r.0[..|ps| + 1])[..|ps|];
      r
  }

  /** Dealing moves cards from the deck to the seats and loses none. */
  lemma {:induction false} DealConserves(deck: seq<Card>, ps: seq<Player>, n: nat)
    requires |ps| <= n && 2 * (n - |ps|) <= |deck|
    ensures var r := DealFrom(deck, ps, n);
            HeldAll(r.0) + multiset(r.1) == HeldAll(ps) + multiset(deck)
    decreases n - |ps|
  {
    if |ps| < n {
      var p := Player([deck[0], deck[1]], [], StartingCoins, true);
      DealStep(deck, ps, p);
      DealConserves(deck[2..], ps + [p], n);
    }
  }

  /** One seat: the two cards move from the deck to the new player. */
  lemma DealStep(deck: seq<Card>, ps: seq<Player>, p: Player)
    requires |deck| >= 2 && p.cards == [deck[0], deck[1]] && p.discard == []
    ensures HeldAll(ps + [p]) + multiset(deck[2..]) == HeldAll(ps) + multiset(deck)
  {
    assert (ps + [p])[..|ps|] == ps;
    assert HeldAll(ps + [p]) == HeldAll(ps) + Held(p);
    assert deck == p.cards + deck[2..];
    assert multiset(deck) == Held(p) + multiset(deck[2..]);
    Regroup(HeldAll(ps), Held(p), multiset(deck[2..]));
  }

  lemma Commute(a: multiset<Card>, b: multiset<Card>, c: multiset<Card>)
    requires a + b == multiset{} + c
    ensures b + a == c
  {
    forall x ensures (b + a)[x] == c[x] {
      assert (a + b)[x] == (multiset{} + c)[x];
    }
  }

  lemma Regroup(a: multiset<Card>, b: multiset<Card>, c: multiset<Card>)
    ensures (a + b) + c == a + (b + c)
  {
  }

  lemma {:induction false} AllInGame(ps: seq<Player>)
    requires forall i :: 0 <= i < |ps| ==> ps[i].inGame
    ensures InGameCount(ps) == |ps|
    decreases |ps|
  {
    if |ps| > 0 {
      AllInGame(ps[..|ps| - 1]);
    }
  }
}
