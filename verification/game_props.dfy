/** Properties of the rules engine that relate several steps, including the
    behaviours of countercoup/model/game.py that follow from a card loss being
    resolved in the middle of another move. */
module EngineProps {
  import opened Util
  import opened Items
  import opened Engine

  /** The starting deck holds three copies of each card, so a game whose
      cards are conserved has three of each across deck, hands and discards. */
  lemma ThreeOfEach(c: Card)
    ensures multiset(StartingDeck)[c] == 3
  {
  }

  /** Challenging a genuine claim (lines 162-170): the challenger, who has two
      cards, must now choose one to lose, and the actor has swapped the claimed
      card for a fresh one, keeping the same hand size. Nothing is paid yet. */
  lemma GenuineChallenge(g: Game)
    requires WellFormed(g) && g.state == State.DecideToBlock
    requires g.currentAction.Some? && g.currentHistory.Some?
    requires Claim(g.currentAction.value).Some?
    requires Claim(g.currentAction.value).value in g.players[g.actionPlayer].cards
    requires g.players[g.currentPlayer].inGame && |g.players[g.currentPlayer].cards| >= 2
    ensures var r := Engine.DecideToBlock(g, true);
            && r.Moved?
            && r.game.state == State.SelectCardToLose
            && r.game.currentPlayer == g.currentPlayer
            && r.game.loseCardState == Some(State.DecideToBlock)
            && r.game.actionPlayer == g.actionPlayer
            && |r.game.players[g.actionPlayer].cards| == |g.players[g.actionPlayer].cards|
            && r.game.players[g.actionPlayer].coins == g.players[g.actionPlayer].coins
            && r.game.currentHistory.Some?
            && r.game.currentHistory.value.blockingPlayer == Some(g.currentPlayer)
            && r.game.currentHistory.value.blockSuccessful == Some(false)
  {
    var card := Claim(g.currentAction.value).value;
    var h := g.currentHistory.value.(blockingPlayer := Some(g.currentPlayer), blockSuccessful := Some(false));
    var g1 := g.(currentHistory := Some(h));
    var g2 := g1.(loseCardState := Some(g.state), loseCardPlayer := Some(g.currentPlayer),
                  currentPlayer := g.currentPlayer, state := State.SelectCardToLose);
    assert LoseCard(g1, g.currentPlayer) == Moved(g2);
    var r3 := ReturnAndRedraw(g2, g.actionPlayer, card);
    assert r3.Moved?;
    assert Engine.DecideToBlock(g, true) == r3;
  }

  /** Challenging a bluff (lines 172-177): the actor, who has two cards, must
      choose one to lose, after which play returns to SelectAction; nobody's
      coins or cards have changed yet, so the voided action costs nothing. */
  lemma BluffChallenge(g: Game)
    requires WellFormed(g) && g.state == State.DecideToBlock
    requires g.currentAction.Some? && g.currentHistory.Some?
    requires Claim(g.currentAction.value).None? ||
             Claim(g.currentAction.value).value !in g.players[g.actionPlayer].cards
    requires g.players[g.actionPlayer].inGame && |g.players[g.actionPlayer].cards| >= 2
    ensures var r := Engine.DecideToBlock(g, true);
            && r.Moved?
            && r.game.state == State.SelectCardToLose
            && r.game.currentPlayer == g.actionPlayer
            && r.game.loseCardState == Some(State.SelectAction)
            && r.game.players == g.players
            && r.game.currentHistory.Some?
            && r.game.currentHistory.value.blockSuccessful == Some(true)
  {
    var h := g.currentHistory.value.(blockingPlayer := Some(g.currentPlayer), blockSuccessful := Some(true));
    var g1 := g.(currentHistory := Some(h), state := State.SelectAction);
    assert Engine.DecideToBlock(g, true) == LoseCard(g1, g.actionPlayer);
  }

  /** Income (lines 74-75, 96-99 reached through 137 and 190-192): the actor
      gains one coin, one history entry is committed and the turn passes. */
  lemma IncomeResolves(g: Game)
    requires WellFormed(g) && Admissible(g, Income)
    ensures var r := Engine.SelectAction(g, Income, None);
            && r.Moved?
            && r.game.players[g.actionPlayer].coins == g.players[g.actionPlayer].coins + 1
            && r.game.state == State.SelectAction
            && r.game.actionPlayer == r.game.currentPlayer == Next(g.players, g.actionPlayer)
            && r.game.history == g.history + [Some(EmptyHistory.(action := Some(Income), actionPlayer := Some(g.currentPlayer)))]
            && r.game.currentAction.None?
  {
    var h := EmptyHistory.(action := Some(Income), actionPlayer := Some(g.currentPlayer));
    var g1 := g.(currentAction := Some(Income), currentHistory := Some(h));
    assert Engine.SelectAction(g, Income, None) == DetermineCounteract(g1);
    assert DetermineCounteract(g1) == PlayAction(g1);
    var g2 := Pay(g1, Income);
    var g3 := Credit(g2, g.actionPlayer, 1);
    assert Benefit(g2, Income, g.actionPlayer) == Moved(g3);
    assert PlayAction(g1) == Settle(Moved(g3));
  }

  /** The last card of the second-to-last player (lines 318-327): the game is
      finished and the one player left in game is the winner. */
  lemma LastCardEndsGame(g: Game, card: Card)
    requires WellFormed(g) && g.state == State.SelectCardToLose
    requires g.players[g.currentPlayer].cards == [card] && g.players[g.currentPlayer].inGame
    requires InGameCount(g.players) == 2
    ensures var r := Engine.SelectCardToLose(g, card);
            && r.Moved?
            && r.game.state == State.GameFinished
            && r.game.winningPlayer.Some?
            && r.game.winningPlayer.value != g.currentPlayer
            && r.game.players[r.game.winningPlayer.value].inGame
            && !r.game.players[g.currentPlayer].inGame
            && r.game.history == g.history + [g.currentHistory]
  {
    var g1 := DiscardCard(g, g.currentPlayer, card);
    assert |RemoveFirst([card], card)| == 0;
    assert InGameCount(g1.players) == 1;
  }

  /** A lost card that ends a turn (lines 314-319 then 331-336): exactly that
      card moves from hand to discard pile, the player is out when the hand
      empties, the entry is committed and the next player in game acts. The
      attack target is not cleared on this path. */
  lemma LoseCardEndsTurn(g: Game, card: Card)
    requires WellFormed(g) && g.state == State.SelectCardToLose
    requires g.loseCardState == Some(State.SelectAction) || g.loseCardState == Some(State.DecideToBlockCounteract)
    requires card in g.players[g.currentPlayer].cards
    requires InGameCount(g.players) >= 3 || |g.players[g.currentPlayer].cards| >= 2
    ensures var r := Engine.SelectCardToLose(g, card);
            && r.Moved? && |r.game.players| == |g.players|
            && var p := r.game.players[g.currentPlayer];
            && multiset(p.cards) + multiset{card} == multiset(g.players[g.currentPlayer].cards)
            && |p.cards| == |g.players[g.currentPlayer].cards| - 1
            && p.discard == g.players[g.currentPlayer].discard + [card]
            && p.inGame == (|p.cards| > 0 && g.players[g.currentPlayer].inGame)
            && (forall j :: 0 <= j < |g.players| && j != g.currentPlayer ==> r.game.players[j] == g.players[j])
            && r.game.state == State.SelectAction
            && r.game.history == g.history + [g.currentHistory]
            && NextPlayer(r.game.players, g.actionPlayer) == Some(r.game.actionPlayer)
            && r.game.currentPlayer == r.game.actionPlayer
            && r.game.attackPlayer == g.attackPlayer
            && r.game.currentHistory.None?
  {
    var g1 := DiscardCard(g, g.currentPlayer, card);
    DiscardStaysLive(g, card);
    ResumeEndsTurn(g1);
  }

  /** The discard of lines 314-319 leaves at least two players in game, so no
      winner is declared and play resumes. */
  lemma DiscardStaysLive(g: Game, card: Card)
    requires WellFormed(g) && g.state == State.SelectCardToLose
    requires card in g.players[g.currentPlayer].cards
    requires InGameCount(g.players) >= 3 || |g.players[g.currentPlayer].cards| >= 2
    ensures var g1 := DiscardCard(g, g.currentPlayer, card);
            && WellFormed(g1) && Live(g1) && g1.state == State.SelectCardToLose
            && Engine.SelectCardToLose(g, card) == ResumeAfterLoss(g1)
  {
    var g1 := DiscardCard(g, g.currentPlayer, card);
    DiscardShape(g, card);
    if |g.players[g.currentPlayer].cards| >= 2 {
      assert |g1.players[g.currentPlayer].cards| >= 1;
      assert InGameCount(g1.players) == InGameCount(g.players);
    }
    assert InGameCount(g1.players) >= 2;
    assert DetermineWinner(g1.players).None?;
  }

  /** Lines 331-336: a loss that interrupted the choice of an action or the
      challenge of a counteraction ends the turn. */
  lemma ResumeEndsTurn(g: Game)
    requires WellFormed(g) && Live(g) && g.state == State.SelectCardToLose
    requires g.loseCardState == Some(State.SelectAction) || g.loseCardState == Some(State.DecideToBlockCounteract)
    ensures var np := Next(g.players, g.actionPlayer);
            ResumeAfterLoss(g) == Moved(Commit(g).(actionPlayer := np, currentPlayer := np, state := State.SelectAction))
  {
  }

  /** A player's only card lost while a turn is being resolved: the player is
      out, the entry is committed and the seat after the actor acts. */
  lemma OnlyCardLost(g: Game, t: nat)
    requires WellFormed(g) && g.state == State.SelectAction
    requires t < |g.players| && g.players[t].inGame && |g.players[t].cards| == 1
    requires InGameCount(g.players) >= 3
    ensures var r := LoseCard(g, t);
            && r.Moved? && |r.game.players| == |g.players|
            && !r.game.players[t].inGame
            && (forall j :: 0 <= j < |g.players| && j != t ==> r.game.players[j] == g.players[j])
            && r.game.state == State.SelectAction
            && r.game.history == g.history + [g.currentHistory]
            && r.game.currentHistory.None?
            && NextPlayer(r.game.players, g.actionPlayer) == Some(r.game.actionPlayer)
  {
    var card := g.players[t].cards[0];
    var g3 := g.(loseCardState := Some(State.SelectAction), loseCardPlayer := Some(g.currentPlayer),
                 currentPlayer := t, state := State.SelectCardToLose);
    assert LoseCard(g, t) == Engine.SelectCardToLose(g3, card);
    LoseCardEndsTurn(g3, card);
  }

  /** Nested card loss on a Coup (lines 75, 286-287, 331-336, 96-97): when the
      target's only card goes, the loss is resolved inside `__play_action`,
      which has already passed the turn; the loss passes it a second time and
      commits the entry, and `__play_action` then commits the cleared entry as
      None. */
  lemma CoupDoubleAdvance(g: Game, t: nat)
    requires WellFormed(g) && Admissible(g, Coup)
    requires t < |g.players| && t != g.actionPlayer
    requires g.players[t].inGame && |g.players[t].cards| == 1
    requires InGameCount(g.players) >= 3
    ensures var r := Engine.SelectAction(g, Coup, Some(t));
            && r.Moved? && |r.game.players| == |g.players|
            && !r.game.players[t].inGame
            && |r.game.history| == |g.history| + 2
            && r.game.history[|g.history|].Some?
            && r.game.history[|g.history| + 1].None?
            && NextPlayer(r.game.players, Next(g.players, g.actionPlayer)) == Some(r.game.actionPlayer)
            && r.game.players[g.actionPlayer].coins == g.players[g.actionPlayer].coins - 7
  {
    var h := EmptyHistory.(action := Some(Coup), actionPlayer := Some(g.currentPlayer), attackingPlayer := Some(t));
    var g1 := g.(currentAction := Some(Coup), currentHistory := Some(h), attackPlayer := Some(t));
    CoupGoesToLoss(g, t);
    var g2 := Pay(g1, Coup);
    OnlyCardLost(g2, t);
    var r2 := LoseCard(g2, t);
    assert Engine.SelectAction(g, Coup, Some(t)) == Moved(Commit(r2.game).(currentAction := None, attackPlayer := None));
  }

  /** A Coup is not countered (line 75): announced, it resolves at once by
      paying and taking a card from the target. */
  lemma CoupGoesToLoss(g: Game, t: nat)
    requires WellFormed(g) && Admissible(g, Coup) && Live(g)
    requires t < |g.players|
    ensures var h := EmptyHistory.(action := Some(Coup), actionPlayer := Some(g.currentPlayer), attackingPlayer := Some(t));
            var g1 := g.(currentAction := Some(Coup), currentHistory := Some(h), attackPlayer := Some(t));
            && WellFormed(g1) && Live(g1)
            && Engine.SelectAction(g, Coup, Some(t)) == Settle(LoseCard(Pay(g1, Coup), t))
  {
    var h := EmptyHistory.(action := Some(Coup), actionPlayer := Some(g.currentPlayer), attackingPlayer := Some(t));
    var g1 := g.(currentAction := Some(Coup), currentHistory := Some(h), attackPlayer := Some(t));
    assert Engine.SelectAction(g, Coup, Some(t)) == DetermineCounteract(g1);
    assert DetermineCounteract(g1) == PlayAction(g1);
    var g2 := Pay(g1, Coup);
    assert PlayAction(g1) == Settle(Effect(g2, Coup, g.actionPlayer));
    assert Effect(g2, Coup, g.actionPlayer) == LoseCard(g2, t);
  }

  /** The redraw that a genuine counter-claim triggers when challenged: the
      first card of the action's counter list, with the record updated. */
  function CounterRedraw(g: Game): (r: Outcome)
    requires WellFormed(g) && g.currentHistory.Some? && g.counteractPlayer.Some? && g.currentAction.Some?
    requires Counters(g.currentAction.value).Some?
    ensures r.Moved? <==> Counters(g.currentAction.value).value[0] in g.players[g.counteractPlayer.value].cards
  {
    var h := g.currentHistory.value.(counteractPlayer := Some(g.currentPlayer), counteractBlockSuccessful := Some(false));
    ReturnAndRedraw(g.(currentHistory := Some(h)), g.counteractPlayer.value, Counters(g.currentAction.value).value[0])
  }

  lemma CounterChallengeUnfold(g: Game)
    requires WellFormed(g) && g.state == State.DecideToBlockCounteract
    requires g.currentHistory.Some? && g.counteractPlayer.Some? && g.currentAction.Some?
    requires Counters(g.currentAction.value).Some?
    requires Counters(g.currentAction.value).value[0] in g.players[g.counteractPlayer.value].cards
    ensures CounterRedraw(g).Moved?
    ensures Engine.DecideToBlockCounteract(g, true) == LoseCard(CounterRedraw(g).game, g.currentPlayer)
  {
    var cp := g.counteractPlayer.value;
    var cs := Counters(g.currentAction.value).value;
    assert cs[0] in HeldCounters(g.players[cp].cards, cs);
    var h := g.currentHistory.value.(counteractPlayer := Some(g.currentPlayer), counteractBlockSuccessful := Some(false));
    var r3 := ReturnAndRedraw(g.(currentHistory := Some(h)), cp, cs[0]);
    assert CounterRedraw(g) == r3;
    assert Engine.DecideToBlockCounteract(g, true) == ChallengeCounteract(g);
    assert ChallengeCounteract(g) == LoseCard(r3.game, g.currentPlayer);
  }

  /** A challenged counter-claim that is genuine (lines 234-249): the record
      gets the stray attribute `counteract_player` set to the challenger while
      the declared `counteract_block_player` stays as it was, and the
      challenger, who has two cards, must choose one to lose. */
  lemma CounterChallengeFails(g: Game)
    requires WellFormed(g) && g.state == State.DecideToBlockCounteract
    requires g.currentHistory.Some? && g.counteractPlayer.Some? && g.currentAction.Some?
    requires Counters(g.currentAction.value).Some?
    requires Counters(g.currentAction.value).value[0] in g.players[g.counteractPlayer.value].cards
    requires g.players[g.currentPlayer].inGame && |g.players[g.currentPlayer].cards| >= 2
    requires g.currentPlayer != g.counteractPlayer.value
    ensures var r := Engine.DecideToBlockCounteract(g, true);
            && r.Moved?
            && r.game.state == State.SelectCardToLose
            && r.game.currentPlayer == g.currentPlayer
            && r.game.currentHistory.Some?
            && r.game.currentHistory.value.counteractPlayer == Some(g.currentPlayer)
            && r.game.currentHistory.value.counteractBlockPlayer == g.currentHistory.value.counteractBlockPlayer
            && r.game.currentHistory.value.counteractBlockSuccessful == Some(false)
  {
    CounterChallengeUnfold(g);
    var h := g.currentHistory.value.(counteractPlayer := Some(g.currentPlayer), counteractBlockSuccessful := Some(false));
    var g2 := g.(currentHistory := Some(h));
    var r3 := CounterRedraw(g);
    assert r3.game.currentHistory == Some(h);
    assert r3.game.players[g.currentPlayer] == g.players[g.currentPlayer];
  }

  /** The actor is asked last in the Foreign Aid counter round (lines 219-223):
      when the player before the actor passes, the actor is polled next. */
  lemma ActorPolledOnForeignAid(g: Game)
    requires WellFormed(g) && g.state == State.DecideToCounteract
    requires g.attackPlayer.None? && g.currentPlayer != g.actionPlayer
    requires Next(g.players, g.currentPlayer) == g.actionPlayer
    ensures Engine.DecideToCounteract(g, false) == Moved(g.(currentPlayer := g.actionPlayer))
  {
  }

  /** The challenger's only card is discarded and, with the loss having
      interrupted a challenge, the action goes on to be resolved (lines
      314-330, 190-192). */
  lemma ChallengerOut(g: Game, c: nat)
    requires WellFormed(g) && g.state == State.DecideToBlock
    requires g.currentAction == Some(Tax) && c == g.currentPlayer
    requires g.players[c].inGame && |g.players[c].cards| == 1
    requires InGameCount(g.players) >= 3
    ensures var g2 := DiscardCard(g.(loseCardState := Some(State.DecideToBlock), loseCardPlayer := Some(c),
                                     currentPlayer := c, state := State.SelectCardToLose), c, g.players[c].cards[0]);
            && WellFormed(g2) && Live(g2)
            && LoseCard(g, c) == PlayAction(g2)
            && |g2.players[c].cards| == 0
  {
    var card := g.players[c].cards[0];
    var g1 := g.(loseCardState := Some(State.DecideToBlock), loseCardPlayer := Some(c),
                 currentPlayer := c, state := State.SelectCardToLose);
    assert LoseCard(g, c) == Engine.SelectCardToLose(g1, card);
    var g2 := DiscardCard(g1, c, card);
    assert |RemoveFirst([card], card)| == 0;
    assert InGameCount(g2.players) == InGameCount(g.players) - 1;
    assert DetermineWinner(g2.players).None?;
    assert Engine.SelectCardToLose(g1, card) == ResumeAfterLoss(g2);
    assert ResumeAfterLoss(g2) == DetermineCounteract(g2);
  }

  /** `__play_action` for a Tax (lines 69-84, 96-99): three coins to the
      actor, the turn passes to somebody else, the entry is committed, and no
      hand changes. */
  lemma TaxResolves(g: Game)
    requires WellFormed(g) && Live(g) && g.currentAction == Some(Tax)
    ensures var r := Commit(Credit(Pay(g, Tax), g.actionPlayer, 3));
            && |r.players| == |g.players|
            && r.actionPlayer != g.actionPlayer
            && r.players[g.actionPlayer].coins == g.players[g.actionPlayer].coins + 3
            && (forall j :: 0 <= j < |g.players| ==> r.players[j].cards == g.players[j].cards)
            && r.history == g.history + [g.currentHistory]
  {
    NextIsOther(g.players, g.actionPlayer);
  }

  lemma TaxPlay(g: Game)
    requires WellFormed(g) && Live(g) && g.currentAction == Some(Tax)
    ensures PlayAction(g) ==
              Moved(Commit(Credit(Pay(g, Tax), g.actionPlayer, 3)).(currentAction := None, attackPlayer := None))
  {
    CoinBenefit(Pay(g, Tax), Tax, g.actionPlayer);
  }

  /** The coin-only effects of lines 79-84. */
  lemma CoinBenefit(g: Game, a: Action, actor: nat)
    requires WellFormed(g) && Live(g) && actor < |g.players|
    requires a == Income || a == ForeignAid || a == Tax
    ensures Benefit(g, a, actor) == Moved(Credit(g, actor, if a == Income then 1 else if a == ForeignAid then 2 else 3))
  {
  }

  /** With two or more players in game, the next player is somebody else. */
  lemma NextIsOther(ps: seq<Player>, p: nat)
    requires p < |ps| && InGameCount(ps) >= 2
    ensures Next(ps, p) != p
  {
    var idx := InGameIndices(ps);
    InGameIndicesAscend(ps);
    assert idx[0] < idx[1];
    var o := if idx[0] != p then idx[0] else idx[1];
    assert ps[o].inGame && o != p;
    var k := OffsetTo(|ps|, p, o);
    assert k < |ps|;
  }

  /** The shape of `decide_to_block(True)` when the actor holds the claimed
      card (lines 157-170): the challenger's loss first, then the swap on
      whoever is the action player by then. */
  lemma GenuineChallengeSteps(g: Game)
    requires WellFormed(g) && g.state == State.DecideToBlock
    requires g.currentAction.Some? && g.currentHistory.Some?
    requires Claim(g.currentAction.value).Some?
    requires Claim(g.currentAction.value).value in g.players[g.actionPlayer].cards
    ensures var h := g.currentHistory.value.(blockingPlayer := Some(g.currentPlayer), blockSuccessful := Some(false));
            var r2 := LoseCard(g.(currentHistory := Some(h)), g.currentPlayer);
            Engine.DecideToBlock(g, true) ==
              if r2.Raised? then r2
              else ReturnAndRedraw(r2.game, r2.game.actionPlayer, Claim(g.currentAction.value).value)
  {
  }

  /** The claimed card is swapped on the wrong player (lines 160-170): once
      the challenger's only card is gone the Tax has resolved and passed the
      turn, so the swap acts on the NEW action player's hand; when nobody but
      the original actor holds a Duke the removal raises after the deck has
      grown by that Duke, and the actor keeps the Duke and the three coins. */
  lemma WrongPlayerSwap(g: Game)
    requires WellFormed(g) && g.state == State.DecideToBlock
    requires g.currentAction == Some(Tax) && g.currentHistory.Some?
    requires Duke in g.players[g.actionPlayer].cards
    requires g.currentPlayer != g.actionPlayer
    requires g.players[g.currentPlayer].inGame && |g.players[g.currentPlayer].cards| == 1
    requires InGameCount(g.players) >= 3
    requires forall j :: 0 <= j < |g.players| && j != g.actionPlayer ==> Duke !in g.players[j].cards
    ensures var r := Engine.DecideToBlock(g, true);
            && r.Raised? && r.fault == RemoveMissing
            && |r.game.players| == |g.players|
            && r.game.actionPlayer != g.actionPlayer
            && r.game.players[g.actionPlayer].cards == g.players[g.actionPlayer].cards
            && r.game.players[g.actionPlayer].coins == g.players[g.actionPlayer].coins + 3
            && AllCards(r.game) == AllCards(g) + multiset{Duke}
  {
    var c := g.currentPlayer;
    var h := g.currentHistory.value.(blockingPlayer := Some(c), blockSuccessful := Some(false));
    var g1 := g.(currentHistory := Some(h));
    TaxChallengerOut(g1, c);
    var r2 := LoseCard(g1, c);
    var a1 := r2.game.actionPlayer;
    assert Duke !in r2.game.players[a1].cards;
    GenuineChallengeSteps(g);
    assert Engine.DecideToBlock(g, true) == ReturnAndRedraw(r2.game, a1, Duke);
  }

  /** The challenger's only card lost to a genuine Tax claim (lines 160-162,
      314-330, 190-192, 69-84): the Tax resolves, the actor has three more
      coins, the turn has passed, and no hand but the challenger's changed. */
  lemma TaxChallengerOut(g: Game, c: nat)
    requires WellFormed(g) && g.state == State.DecideToBlock
    requires g.currentAction == Some(Tax) && c == g.currentPlayer && c != g.actionPlayer
    requires g.players[c].inGame && |g.players[c].cards| == 1
    requires InGameCount(g.players) >= 3
    ensures var r := LoseCard(g, c);
            && r.Moved? && |r.game.players| == |g.players|
            && r.game.actionPlayer != g.actionPlayer
            && r.game.players[g.actionPlayer].coins == g.players[g.actionPlayer].coins + 3
            && |r.game.players[c].cards| == 0
            && (forall j :: 0 <= j < |g.players| && j != c ==> r.game.players[j].cards == g.players[j].cards)
            && AllCards(r.game) == AllCards(g)
  {
    ChallengerOut(g, c);
    var g2 := DiscardCard(g.(loseCardState := Some(State.DecideToBlock), loseCardPlayer := Some(c),
                             currentPlayer := c, state := State.SelectCardToLose), c, g.players[c].cards[0]);
    TaxPlay(g2);
    TaxResolves(g2);
    var r := Commit(Credit(Pay(g2, Tax), g.actionPlayer, 3));
    assert LoseCard(g, c) == Moved(r.(currentAction := None, attackPlayer := None));
    forall j | 0 <= j < |g.players| && j != c ensures r.players[j].cards == g.players[j].cards {
      assert g2.players[j] == g.players[j];
    }
  }
}
