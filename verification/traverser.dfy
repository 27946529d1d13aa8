/** One node of the recursive game-tree walk of the three Deep CFR
    traversers: `Traverser.traverse` of countercoup/trainer/traverser.py,
    its Timid-biased variant (countercoup/trainer/traversers/timid_biased.py)
    and its outcome-sampling variant (countercoup/trainer/traversers/outcome.py).
    A node decides what to explore from the game alone; the values of the
    children it explores are then passed back in to finish it, so the model
    needs no termination argument for the recursion itself. */
module Traversal {
  import opened Util
  import opened Items
  import opened Engine
  import opened Hands
  import opened GameInfo
  import opened Strategy
  import opened Sums
  import opened Weighing
  import opened Tools
  import opened Networks
  import opened Regret
  import opened Regrets
  import opened Agents
  import opened Infosets

  /** The base traverser, the one that falls back on Timid's strategy for
      opponents without regrets, and the one that samples a single child. */
  datatype Variant = Robust | TimidBiased | OutcomeSampling

  /** A game this long is declared a draw (not by outcome sampling). */
  const DrawLength: nat := 50

  /** Before this length the own action and discard nodes explore wider. */
  const EarlyLength: nat := 16

  /** What a node does before its children are walked. */
  datatype Visit =
    | Payoff(value: real)                                    // finished game
    | Draw                                                   // too long, worth 0
    | Explore(strategy: Dist, sampled: seq<Key>, rest: seq<nat>)  // own node: sampled children
    | Follow(strategy: Dist, choice: Option<Key>)            // opponent node: one child

  /** The network whose outputs a state is scored by: the action net, the
      lose net for both card choices, a block or counteract net otherwise. */
  function NetworkOutputs(s: State): seq<Key> {
    match s
    case SelectAction => ActionOutputs
    case SelectCardsToDiscard => LoseOutputs
    case SelectCardToLose => LoseOutputs
    case _ => DecisionOutputs
  }

  /** The `filt` argument the node passes: the legal pairs, the discard
      choices or the single cards of the current player, nothing for the
      true/false decisions. */
  function Filter(g: Game): Result<Option<seq<Key>>> {
    match g.state
    case SelectAction =>
      (match GetActions(g) case Err(e) => Err(e) case Ok(acts) => Ok(Some(acts)))
    case SelectCardsToDiscard =>
      (match CurrPlayer(g) case Err(e) => Err(e) case Ok(p) => Ok(Some(HandKeys(GetAllHands(p.cards)))))
    case SelectCardToLose =>
      (match CurrPlayer(g) case Err(e) => Err(e) case Ok(p) => Ok(Some(HandKeys(SingularHands(p.cards)))))
    case _ => Ok(None)
  }

  /** The Timid agent's strategy for the decision the game waits for, the
      `zero_data` the Timid-biased traverser hands to opponents' nodes. */
  function TimidZeroData(g: Game): Result<Dist> {
    match g.state
    case SelectAction => TimidAction(g)
    case DecideToBlock => Ok(TimidBlock())
    case DecideToCounteract => TimidCounteract(g)
    case DecideToBlockCounteract => Ok(TimidBlock())
    case SelectCardsToDiscard => DiscardStrategy(g)
    case SelectCardToLose => LoseCardStrategy(g)
    case GameFinished => Ok([])
  }

  /** The `zero_data` an opponent's node passes: only the Timid-biased
      traverser passes any. */
  function OpponentZeroData(v: Variant, g: Game): Result<Option<Dist>> {
    if v == TimidBiased then
      match TimidZeroData(g) case Err(e) => Err(e) case Ok(z) => Ok(Some(z))
    else Ok(None)
  }

  /** How many keys an own node samples out of n. */
  function SampleSize(v: Variant, s: State, length: nat, n: nat): nat {
    if v == OutcomeSampling then 1
    else if s == State.SelectAction then Min(if length < EarlyLength then 3 else 1, n)
    else if s == State.SelectCardsToDiscard then Min(if length < EarlyLength then 2 else 1, n)
    else 1
  }

  /** Keys that are pairwise unequal under Python equality differ. */
  lemma UnequalKeysDiffer(keys: seq<Key>)
    requires KeysDistinct(keys)
    ensures Distinct(keys)
  {
    forall a, b | 0 <= a < b < |keys| ensures keys[a] != keys[b] {
      if keys[a] == keys[b] {
        if keys[a].Cards? {
          HandEqEquivalence();
        }
        assert KeyEq(keys[a], keys[b]);
      }
    }
  }

  /** Keys drawn without repeats from a list of pairwise unequal keys are
      pairwise unequal too. */
  lemma SubKeysDistinct(keys: seq<Key>, sub: seq<Key>)
    requires KeysDistinct(keys) && Distinct(sub)
    requires forall i :: 0 <= i < |sub| ==> sub[i] in keys
    ensures KeysDistinct(sub)
  {
    forall a, b | 0 <= a < b < |sub| ensures !KeyEq(sub[a], sub[b]) {
      var x :| 0 <= x < |keys| && keys[x] == sub[a];
      var y :| 0 <= y < |keys| && keys[y] == sub[b];
      if y < x && KeyEq(sub[a], sub[b]) {
        KeyEqSymmetric(sub[a], sub[b]);
      }
    }
  }

  /** The player's own node in a state of the given length: the strategy
      is regret matching without zero_data, and `random.sample` picks the
      keys to explore, a ValueError when asked for more keys than there
      are. The strategy is a probability distribution, and the sample takes
      distinct keys of it: up to three (one once the game has 16 history
      entries) at a choice of action, up to two (one late) at a choice of
      discard, and exactly one everywhere else and everywhere under outcome
      sampling. */
  function OwnNode(v: Variant, s: State, length: nat, iteration: int, result: seq<real>, filt: Option<seq<Key>>,
                   picks: seq<nat>): (r: Result<Visit>)
    requires |result| == |NetworkOutputs(s)|
    ensures r.Err? ==> r.error == ValueError
    ensures r.Ok? ==> r.value.Explore?
    ensures r.Ok? ==> var n := r.value;
            IsDict(n.strategy) && NonNegative(n.strategy) && (|n.strategy| > 0 ==> Total(n.strategy) == 1.0) &&
            KeysDistinct(n.sampled) && (forall i :: 0 <= i < |n.sampled| ==> n.sampled[i] in Keys(n.strategy))
    ensures r.Ok? && v != OutcomeSampling && s == State.SelectAction ==>
              |r.value.sampled| == Min(if length < EarlyLength then 3 else 1, |r.value.strategy|)
    ensures r.Ok? && v != OutcomeSampling && s == State.SelectCardsToDiscard ==>
              |r.value.sampled| == Min(if length < EarlyLength then 2 else 1, |r.value.strategy|)
    ensures r.Ok? && (v == OutcomeSampling || (s != State.SelectAction && s != State.SelectCardsToDiscard)) ==>
              |r.value.sampled| == 1
    ensures r.Err? <==> (v == OutcomeSampling || (s != State.SelectAction && s != State.SelectCardsToDiscard)) &&
                        |GetRegretStrategy(iteration, NetworkOutputs(s), result, filt, None)| == 0
  {
    OwnStrategy(iteration, NetworkOutputs(s), result, filt);
    var strategy := GetRegretStrategy(iteration, NetworkOutputs(s), result, filt, None);
    SampleSizeCases(v, s, length, |strategy|);
    SampleNode(strategy, SampleSize(v, s, length, |strategy|), picks)
  }

  /** The sample size by case: it exceeds the number of keys only when one
      key is wanted from none. */
  lemma SampleSizeCases(v: Variant, s: State, length: nat, n: nat)
    ensures v != OutcomeSampling && s == State.SelectAction ==>
              SampleSize(v, s, length, n) == Min(if length < EarlyLength then 3 else 1, n)
    ensures v != OutcomeSampling && s == State.SelectCardsToDiscard ==>
              SampleSize(v, s, length, n) == Min(if length < EarlyLength then 2 else 1, n)
    ensures v == OutcomeSampling || (s != State.SelectAction && s != State.SelectCardsToDiscard) ==>
              SampleSize(v, s, length, n) == 1
    ensures SampleSize(v, s, length, n) > n <==>
              (v == OutcomeSampling || (s != State.SelectAction && s != State.SelectCardsToDiscard)) && n == 0
  {
  }

  /** `random.sample(list(strategy.keys()), k)`: a ValueError when k exceeds
      the number of keys, otherwise k distinct keys of the strategy. */
  function SampleNode(strategy: Dist, k: nat, picks: seq<nat>): (r: Result<Visit>)
    requires IsDict(strategy)
    ensures r.Err? <==> k > |strategy|
    ensures r.Err? ==> r.error == ValueError
    ensures r.Ok? ==> r.value.Explore? && r.value.strategy == strategy && |r.value.sampled| == k
    ensures r.Ok? ==> KeysDistinct(r.value.sampled) &&
                      forall i :: 0 <= i < |r.value.sampled| ==> r.value.sampled[i] in Keys(strategy)
  {
    var keys := Keys(strategy);
    if k > |keys| then Err(ValueError)
    else
      SampledKeys(keys, k, picks);
      var p := Sample(keys, k, picks);
      Ok(Explore(strategy, p.0, p.1))
  }

  /** The strategy of an own node is a probability distribution. */
  lemma OwnStrategy(iteration: int, outputs: seq<Key>, result: seq<real>, filt: Option<seq<Key>>)
    requires |result| == |outputs|
    ensures var r := GetRegretStrategy(iteration, outputs, result, filt, None);
            IsDict(r) && NonNegative(r) && (|r| > 0 ==> Total(r) == 1.0)
  {
    var r := GetRegretStrategy(iteration, outputs, result, filt, None);
    assert Keys(r) == Keys(RegretOutput(iteration, outputs, result, filt));
  }

  /** `random.sample` of a dict's keys draws distinct keys of it. */
  lemma SampledKeys(keys: seq<Key>, k: nat, picks: seq<nat>)
    requires KeysDistinct(keys) && k <= |keys|
    ensures var p := Sample(keys, k, picks);
            KeysDistinct(p.0) && forall i :: 0 <= i < |p.0| ==> p.0[i] in keys
  {
    var p := Sample(keys, k, picks);
    forall i | 0 <= i < |p.0| ensures p.0[i] in keys {
      assert p.0[i] in multiset(p.0);
    }
    UnequalKeysDiffer(keys);
    SubKeysDistinct(keys, p.0);
  }

  /** The first half of `traverse(game, curr_play)`. A finished game pays 1
      to the winner and -1 otherwise; a game of 50 or more history entries
      is a draw; otherwise the node builds its strategy from the network's
      output `result` by regret matching. The player's own node samples
      the keys to explore (`random.sample` with the picks, a ValueError
      when asked for more keys than there are); an opponent's node records
      its strategy and follows one key chosen by `select_from_strategy`
      with `draw` for `random()`. */
  function Node(v: Variant, g: Game, currPlay: nat, iteration: int, result: seq<real>, picks: seq<nat>, draw: real): (r: Result<Visit>)
    requires g.state != State.GameFinished ==> |result| == |NetworkOutputs(g.state)|
    ensures g.state == State.GameFinished ==> r == Ok(Payoff(if g.winningPlayer == Some(currPlay) then 1.0 else -1.0))
    ensures g.state != State.GameFinished && v != OutcomeSampling && GameLength(g) >= DrawLength ==> r == Ok(Draw)
    ensures r.Ok? && r.value.Draw? ==> v != OutcomeSampling && GameLength(g) >= DrawLength
    ensures r.Ok? && r.value.Explore? ==> g.state != State.GameFinished && g.currentPlayer == currPlay
    ensures r.Ok? && r.value.Follow? ==> g.state != State.GameFinished && g.currentPlayer != currPlay
    ensures r.Ok? && g.state != State.GameFinished && (v == OutcomeSampling || GameLength(g) < DrawLength) ==>
              (r.value.Explore? <==> g.currentPlayer == currPlay) && (r.value.Follow? <==> g.currentPlayer != currPlay)
    ensures g.state != State.GameFinished && (v == OutcomeSampling || GameLength(g) < DrawLength) && MakeInfoset(g).Err? ==>
              r == Err(MakeInfoset(g).error)
    ensures r.Ok? && (r.value.Explore? || r.value.Follow?) ==> MakeInfoset(g).Ok?
  {
    if g.state == State.GameFinished then Ok(Payoff(if g.winningPlayer == Some(currPlay) then 1.0 else -1.0))
    else if v != OutcomeSampling && GameLength(g) >= DrawLength then Ok(Draw)
    else
      match MakeInfoset(g)
      case Err(e) => Err(e)
      case Ok(_) =>
        match Filter(g)
        case Err(e) => Err(e)
        case Ok(filt) =>
          var outputs := NetworkOutputs(g.state);
          if g.currentPlayer == currPlay then OwnNode(v, g.state, GameLength(g), iteration, result, filt, picks)
          else
            match OpponentZeroData(v, g)
            case Err(e) => Err(e)
            case Ok(zero) =>
              var strategy := GetRegretStrategy(iteration, outputs, result, filt, zero);
              Ok(Follow(strategy, SelectFromStrategy(strategy, draw)))
  }

  /** Python truth of a key passed where a decision is expected: a bool is
      itself, and a tuple or a hand is always true. */
  function Truthy(key: Key): bool {
    match key
    case Choice(b) => b
    case _ => true
  }

  /** Whether a key has the shape the state's move takes: an action with,
      if it attacks, the index of an opponent; a hand at the card choices;
      anything at the decisions, which only test its truth. */
  predicate KeyFits(g: Game, key: Key) {
    match g.state
    case SelectAction =>
      key.Move? && (Targeted(key.action) ==> key.target.Some? && key.target.value < |g.players| - 1)
    case SelectCardsToDiscard => key.Cards?
    case SelectCardToLose => key.Cards?
    case _ => true
  }

  /** The move an action key makes: its action, against the opponent its
      index names when the action attacks. `choice[0]` of a bool or a hand,
      or `get_opponents()[None]`, is a TypeError; an index past the
      opponents an IndexError. */
  function ActionChild(g: Game, key: Key): (r: Result<Outcome>)
    requires WellFormed(g) && g.state == State.SelectAction
    ensures r.Ok? <==> KeyFits(g, key)
    ensures key.Move? && !Targeted(key.action) ==> r == Ok(Engine.SelectAction(g, key.action, None))
    ensures key.Move? && Targeted(key.action) && key.target.Some? && key.target.value < |g.players| - 1 ==>
              var t := key.target.value;
              r == Ok(Engine.SelectAction(g, key.action, Some(if t < g.currentPlayer then t else t + 1)))
    ensures key.Move? && Targeted(key.action) && key.target.Some? && key.target.value >= |g.players| - 1 ==>
              r == Err(IndexError)
    ensures (!key.Move? || (Targeted(key.action) && key.target.None?)) ==> r == Err(TypeError)
  {
    match key
    case Move(a, t) =>
      if !Targeted(a) then Ok(Engine.SelectAction(g, a, None))
      else if t.None? then Err(TypeError)
      else
        var opp := Opponents(g);
        if t.value < |opp| then
          SeatsExceptAt(|g.players|, g.currentPlayer, t.value);
          Ok(Engine.SelectAction(g, a, Some(opp[t.value])))
        else Err(IndexError)
    case _ => Err(TypeError)
  }

  /** The move a hand key makes: discard both its cards, or lose its first.
      `None not in cards` always holds, so a one-card hand is refused as a
      discard; asking a tuple or a bool for `card1` is an AttributeError. */
  function CardChild(g: Game, key: Key): (r: Result<Outcome>)
    requires WellFormed(g) && (g.state == State.SelectCardsToDiscard || g.state == State.SelectCardToLose)
    ensures r.Ok? <==> key.Cards?
    ensures !key.Cards? ==> r == Err(AttributeError)
    ensures g.state == State.SelectCardsToDiscard && key.Cards? && key.hand.card2.Some? ==>
              r == Ok(Engine.SelectCardsToDiscard(g, key.hand.card1, key.hand.card2.value))
    ensures g.state == State.SelectCardsToDiscard && key.Cards? && key.hand.card2.None? ==>
              r == Ok(Raised(IllegalMove(CardNotHeld), g))
    ensures g.state == State.SelectCardToLose && key.Cards? ==> r == Ok(Engine.SelectCardToLose(g, key.hand.card1))
  {
    match key
    case Cards(h) =>
      if g.state == State.SelectCardToLose then Ok(Engine.SelectCardToLose(g, h.card1))
      else if h.card2.Some? then Ok(Engine.SelectCardsToDiscard(g, h.card1, h.card2.value))
      else Ok(Raised(IllegalMove(CardNotHeld), g))
    case _ => Err(AttributeError)
  }

  /** The child game a chosen key leads to (the moves of `traverse` after
      sampling). A decision key decides by its Python truth; the others go
      through ActionChild and CardChild. A key of the wrong shape raises
      instead of moving, and a move that succeeds keeps the game well formed. */
  function Child(g: Game, key: Key): (r: Result<Outcome>)
    requires WellFormed(g) && g.state != State.GameFinished
    ensures r.Ok? <==> KeyFits(g, key)
    ensures g.state == State.DecideToBlock ==> r == Ok(Engine.DecideToBlock(g, Truthy(key)))
    ensures g.state == State.DecideToCounteract ==> r == Ok(Engine.DecideToCounteract(g, Truthy(key)))
    ensures g.state == State.DecideToBlockCounteract ==> r == Ok(Engine.DecideToBlockCounteract(g, Truthy(key)))
    ensures r.Ok? && r.value.Moved? ==> Preserved(g, r.value.game)
  {
    match g.state
    case SelectAction => ActionChild(g, key)
    case DecideToBlock => Ok(Engine.DecideToBlock(g, Truthy(key)))
    case DecideToCounteract => Ok(Engine.DecideToCounteract(g, Truthy(key)))
    case DecideToBlockCounteract => Ok(Engine.DecideToBlockCounteract(g, Truthy(key)))
    case SelectCardsToDiscard => CardChild(g, key)
    case SelectCardToLose => CardChild(g, key)
  }

  /** What an opponent's node raises when `select_from_strategy` finds no
      key (its running sum never reaches the draw, so it returns None):
      `choice[0]` at the choice of action is a TypeError, `choice.card1` at
      the card choices an AttributeError; the decisions take None as false
      and raise nothing. */
  function NoChoiceError(s: State): Option<PyError> {
    match s
    case SelectAction => Some(TypeError)
    case SelectCardsToDiscard => Some(AttributeError)
    case SelectCardToLose => Some(AttributeError)
    case _ => None
  }

  /** The move of an opponent's node: the chosen key's child, or, when no
      key was chosen, a false decision or the error NoChoiceError names. */
  function FollowChild(g: Game, choice: Option<Key>): (r: Result<Outcome>)
    requires WellFormed(g) && g.state != State.GameFinished
    ensures choice.Some? ==> r == Child(g, choice.value)
    ensures choice.None? ==> (r.Ok? <==> NoChoiceError(g.state).None?)
    ensures choice.None? && g.state == State.SelectAction ==> r == Err(TypeError)
    ensures choice.None? && (g.state == State.SelectCardsToDiscard || g.state == State.SelectCardToLose) ==>
              r == Err(AttributeError)
    ensures choice.None? && g.state == State.DecideToBlock ==> r == Ok(Engine.DecideToBlock(g, false))
    ensures choice.None? && g.state == State.DecideToCounteract ==> r == Ok(Engine.DecideToCounteract(g, false))
    ensures choice.None? && g.state == State.DecideToBlockCounteract ==>
              r == Ok(Engine.DecideToBlockCounteract(g, false))
  {
    match choice
    case Some(key) => Child(g, key)
    case None =>
      match g.state
      case DecideToBlock => Ok(Engine.DecideToBlock(g, false))
      case DecideToCounteract => Ok(Engine.DecideToCounteract(g, false))
      case DecideToBlockCounteract => Ok(Engine.DecideToBlockCounteract(g, false))
      case SelectAction => Err(TypeError)
      case SelectCardsToDiscard => Err(AttributeError)
      case SelectCardToLose => Err(AttributeError)
  }

  /** At a decision, no choice plays exactly like the key False; elsewhere
      no choice raises, while every key of the strategy has a child. */
  lemma NoChoiceActsAsFalse(g: Game)
    requires WellFormed(g) && g.state != State.GameFinished
    ensures NoChoiceError(g.state).None? ==> FollowChild(g, None) == Child(g, Choice(false))
    ensures NoChoiceError(g.state).Some? ==> FollowChild(g, None) == Err(NoChoiceError(g.state).value)
  {
  }

  /** Every key `get_actions` offers leads to a child: an attacking key's
      index names a live opponent, never the player who attacks. */
  lemma ActionKeyTargets(g: Game, key: Key)
    requires WellFormed(g) && g.state == State.SelectAction
    requires GetActions(g).Ok? && key in GetActions(g).value
    ensures Child(g, key).Ok?
    ensures Targeted(key.action) ==>
              exists p :: 0 <= p < |g.players| && p != g.currentPlayer && g.players[p].inGame &&
                          Child(g, key) == Ok(Engine.SelectAction(g, key.action, Some(p)))
    ensures !Targeted(key.action) ==> Child(g, key) == Ok(Engine.SelectAction(g, key.action, None))
  {
    assert key == Move(key.action, key.target);
    if Targeted(key.action) {
      var t := key.target.value;
      assert t < |Opponents(g)|;
      var p := Opponents(g)[t];
      assert p != g.currentPlayer && g.players[p].inGame;
      SeatsExceptAt(|g.players|, g.currentPlayer, t);
    }
  }

  /** Every key of the strategy a node builds leads to a child without a
      Python exception: the legal actions, both decisions, and the hands of
      the current player. */
  lemma NodeKeysHaveChildren(g: Game, key: Key)
    requires WellFormed(g) && g.state != State.GameFinished
    requires Filter(g).Ok?
    requires KeyIn(key, if Filter(g).value.Some? then Filter(g).value.value else NetworkOutputs(g.state))
    ensures Child(g, key).Ok?
  {
    match g.state
    case SelectAction =>
      var acts := GetActions(g).value;
      assert Filter(g) == Ok(Some(acts));
      var k :| 0 <= k < |acts| && KeyEq(acts[k], key);
      assert acts[k] == key;
      assert KeyFits(g, key);
    case SelectCardsToDiscard =>
      var p := CurrPlayer(g).value;
      assert Filter(g) == Ok(Some(HandKeys(GetAllHands(p.cards))));
    case SelectCardToLose =>
      var p := CurrPlayer(g).value;
      assert Filter(g) == Ok(Some(HandKeys(SingularHands(p.cards))));
    case _ =>
  }

  /** How many child values a node at state s needs: none for an
      opponent's node whose missing choice raises before any child is walked. */
  function Children(n: Visit, s: State): nat {
    match n
    case Payoff(_) => 0
    case Draw => 0
    case Explore(_, sampled, _) => |sampled|
    case Follow(_, choice) => if choice.None? && NoChoiceError(s).Some? then 0 else 1
  }

  /** The `values` dict of an own node: each sampled key with its child's value. */
  function ValuesOf(keys: seq<Key>, vals: seq<real>): (d: Dist)
    requires |keys| == |vals|
    ensures Keys(d) == keys
    ensures forall i :: 0 <= i < |d| ==> d[i].1 == vals[i]
  {
    seq(|keys|, i requires 0 <= i < |keys| => (keys[i], vals[i]))
  }

  /** What a node returns and what it appends: to the advantage memory of
      the player (own nodes) or to the strategy memory (opponents' nodes). */
  datatype Backed = Backed(value: real, advantage: seq<Dist>, strategies: seq<Dist>)

  /** The second half of `traverse` at a node of state s: an own node
      returns the instantaneous regret of `calculate_regrets` and appends
      its regret dict; an opponent's node appends its strategy and returns
      its child's value, unless it chose nothing where a move needs a key,
      which raises. */
  function Back(n: Visit, s: State, vals: seq<real>): (r: Result<Backed>)
    requires |vals| == Children(n, s)
    ensures r.Ok? && !n.Explore? ==> r.value.advantage == []
    ensures n.Payoff? ==> r == Ok(Backed(n.value, [], []))
    ensures n.Draw? ==> r == Ok(Backed(0.0, [], []))
    ensures n.Follow? && (n.choice.Some? || NoChoiceError(s).None?) ==> r == Ok(Backed(vals[0], [], [n.strategy]))
    ensures n.Follow? && n.choice.None? && s == State.SelectAction ==> r == Err(TypeError)
    ensures n.Follow? && n.choice.None? && (s == State.SelectCardsToDiscard || s == State.SelectCardToLose) ==>
              r == Err(AttributeError)
    ensures n.Explore? && r.Ok? ==>
              |r.value.advantage| == 1 && Keys(r.value.advantage[0]) == Keys(n.strategy) && r.value.strategies == []
    ensures n.Explore? && |n.sampled| == 0 ==> r == Err(ZeroDivisionError)
  {
    match n
    case Payoff(p) => Ok(Backed(p, [], []))
    case Draw => Ok(Backed(0.0, [], []))
    case Follow(strategy, choice) =>
      if choice.None? && NoChoiceError(s).Some? then Err(NoChoiceError(s).value)
      else Ok(Backed(vals[0], [], [strategy]))
    case Explore(strategy, sampled, _) =>
      match CalculateRegrets(ValuesOf(sampled, vals), strategy)
      case Err(e) => Err(e)
      case Ok(res) => Ok(Backed(res.0, [res.1], []))
  }

  /** An own node explores distinct keys of its strategy, which is a
      probability distribution built without zero_data: up to three keys
      (one once the game has 16 history entries) at a choice of action, up
      to two (one late) at a choice of discard, and exactly one everywhere
      else and everywhere under outcome sampling. */
  lemma ExploreSamples(v: Variant, g: Game, currPlay: nat, iteration: int, result: seq<real>, picks: seq<nat>, draw: real)
    requires g.state != State.GameFinished ==> |result| == |NetworkOutputs(g.state)|
    requires Node(v, g, currPlay, iteration, result, picks, draw).Ok?
    requires Node(v, g, currPlay, iteration, result, picks, draw).value.Explore?
    ensures var n := Node(v, g, currPlay, iteration, result, picks, draw).value;
            IsDict(n.strategy) && NonNegative(n.strategy) && (|n.strategy| > 0 ==> Total(n.strategy) == 1.0) &&
            KeysDistinct(n.sampled) && (forall i :: 0 <= i < |n.sampled| ==> n.sampled[i] in Keys(n.strategy))
    ensures var n := Node(v, g, currPlay, iteration, result, picks, draw).value;
            v != OutcomeSampling && g.state == State.SelectAction ==>
              |n.sampled| == Min(if GameLength(g) < EarlyLength then 3 else 1, |n.strategy|)
    ensures var n := Node(v, g, currPlay, iteration, result, picks, draw).value;
            v != OutcomeSampling && g.state == State.SelectCardsToDiscard ==>
              |n.sampled| == Min(if GameLength(g) < EarlyLength then 2 else 1, |n.strategy|)
    ensures var n := Node(v, g, currPlay, iteration, result, picks, draw).value;
            v == OutcomeSampling || (g.state != State.SelectAction && g.state != State.SelectCardsToDiscard) ==>
              |n.sampled| == 1
  {
    assert Node(v, g, currPlay, iteration, result, picks, draw) ==
           OwnNode(v, g.state, GameLength(g), iteration, result, Filter(g).value, picks);
  }

  /** A sampled key of the strategy finds its weight, so an own node that
      explored something records its regrets, and against its strategy
      the recorded regrets balance to 0. */
  lemma ExploreBalances(n: Visit, s: State, vals: seq<real>)
    requires n.Explore? && |vals| == |n.sampled| > 0
    requires IsDict(n.strategy) && Total(n.strategy) == 1.0 && KeysDistinct(n.sampled)
    requires forall i :: 0 <= i < |n.sampled| ==> n.sampled[i] in Keys(n.strategy)
    ensures Back(n, s, vals).Ok?
    ensures Back(n, s, vals).value.value == InstantRegret(ValuesOf(n.sampled, vals), n.strategy).value
    ensures Dot(Values(n.strategy), Values(Back(n, s, vals).value.advantage[0])) == 0.0
  {
    var values := ValuesOf(n.sampled, vals);
    forall i | 0 <= i < |values| ensures Lookup(n.strategy, values[i].0).Some? {
      var j :| 0 <= j < |n.strategy| && Keys(n.strategy)[j] == n.sampled[i];
      LookupEntry(n.strategy, j, values[i].0);
    }
    WeightedFails(values, n.strategy);
    assert IsDict(values);
    RegretsBalance(values, n.strategy);
  }

  /** The Timid-biased traverser treats the player's own nodes exactly like
      the base traverser: zero_data only ever reaches opponents' nodes. */
  lemma OwnNodeIgnoresZeroData(g: Game, currPlay: nat, iteration: int, result: seq<real>, picks: seq<nat>, draw: real)
    requires g.state != State.GameFinished ==> |result| == |NetworkOutputs(g.state)|
    requires g.currentPlayer == currPlay
    ensures Node(TimidBiased, g, currPlay, iteration, result, picks, draw) == Node(Robust, g, currPlay, iteration, result, picks, draw)
  {
    if g.state != State.GameFinished && GameLength(g) < DrawLength && MakeInfoset(g).Ok? && Filter(g).Ok? {
      SameSampleSize(g.state, GameLength(g), iteration, result, Filter(g).value, picks);
    }
  }

  /** The robust and Timid-biased traversers sample an own node alike. */
  lemma SameSampleSize(s: State, length: nat, iteration: int, result: seq<real>, filt: Option<seq<Key>>, picks: seq<nat>)
    requires |result| == |NetworkOutputs(s)|
    ensures OwnNode(TimidBiased, s, length, iteration, result, filt, picks) ==
            OwnNode(Robust, s, length, iteration, result, filt, picks)
  {
    var strategy := GetRegretStrategy(iteration, NetworkOutputs(s), result, filt, None);
    assert SampleSize(TimidBiased, s, length, |strategy|) == SampleSize(Robust, s, length, |strategy|);
  }

  /** Outcome sampling differs from the base traverser only by having no
      draw rule and by exploring one key early in the game: an opponent's
      node, and an own node once the game has 16 entries, come out the same
      whenever outcome sampling does not fail. */
  lemma OutcomeMatchesRobustLate(g: Game, currPlay: nat, iteration: int, result: seq<real>, picks: seq<nat>, draw: real)
    requires g.state != State.GameFinished ==> |result| == |NetworkOutputs(g.state)|
    requires GameLength(g) < DrawLength
    requires g.currentPlayer != currPlay || GameLength(g) >= EarlyLength
    requires Node(OutcomeSampling, g, currPlay, iteration, result, picks, draw).Ok?
    ensures Node(OutcomeSampling, g, currPlay, iteration, result, picks, draw) == Node(Robust, g, currPlay, iteration, result, picks, draw)
  {
  }

  /** On the first iteration every output is 0, so the Timid-biased
      traverser's opponents play Timid's own strategy. */
  lemma TimidOpponentsFirstIteration(g: Game, currPlay: nat, result: seq<real>, picks: seq<nat>, draw: real)
    requires g.state != State.GameFinished && |result| == |NetworkOutputs(g.state)|
    requires GameLength(g) < DrawLength && g.currentPlayer != currPlay
    requires MakeInfoset(g).Ok? && Filter(g).Ok? && TimidZeroData(g).Ok?
    ensures var z := TimidZeroData(g).value;
            Node(TimidBiased, g, currPlay, 1, result, picks, draw) == Ok(Follow(z, SelectFromStrategy(z, draw)))
  {
    var z := TimidZeroData(g).value;
    FirstIterationFollowsZeroData(NetworkOutputs(g.state), result, Filter(g).value, z);
    assert OpponentZeroData(TimidBiased, g) == Ok(Some(z));
  }

  /** Once the network gives some key a positive advantage, the Timid-biased
      traverser's opponents play exactly like the base traverser's. */
  lemma TimidOpponentsWithRegrets(g: Game, currPlay: nat, iteration: int, result: seq<real>, picks: seq<nat>, draw: real)
    requires g.state != State.GameFinished && |result| == |NetworkOutputs(g.state)|
    requires GameLength(g) < DrawLength && g.currentPlayer != currPlay
    requires Filter(g).Ok? && TimidZeroData(g).Ok?
    requires PositiveTotal(RegretOutput(iteration, NetworkOutputs(g.state), result, Filter(g).value)) > 0.0
    ensures Node(TimidBiased, g, currPlay, iteration, result, picks, draw) == Node(Robust, g, currPlay, iteration, result, picks, draw)
  {
    var filt := Filter(g).value;
    var outputs := NetworkOutputs(g.state);
    assert OpponentZeroData(TimidBiased, g) == Ok(Some(TimidZeroData(g).value));
    assert GetRegretStrategy(iteration, outputs, result, filt, Some(TimidZeroData(g).value)) ==
           GetRegretStrategy(iteration, outputs, result, filt, None);
  }

  /** An opponent's node appends nothing to the advantage memory: with a
      child it hands the child's value up unchanged and appends its
      strategy; without one it raises what NoChoiceError names. */
  lemma OpponentPassesValue(n: Visit, s: State, vals: seq<real>)
    requires n.Follow? && |vals| == Children(n, s)
    ensures |vals| == 1 ==> Back(n, s, vals) == Ok(Backed(vals[0], [], [n.strategy]))
    ensures |vals| == 0 ==> NoChoiceError(s).Some? && Back(n, s, vals) == Err(NoChoiceError(s).value)
  {
  }

  /** The legacy payoffs are the current ones moved to the scale 0 to 1. */
  lemma LegacyPayoffRescaled(v: Variant, g: Game, currPlay: nat, iteration: int, result: seq<real>, picks: seq<nat>, draw: real)
    requires g.state == State.GameFinished
    ensures Node(v, g, currPlay, iteration, result, picks, draw).Ok?
    ensures LegacyPayoff(g, currPlay) == (Node(v, g, currPlay, iteration, result, picks, draw).value.value + 1.0) / 2.0
  {
  }

  /** The terminal payoff of the legacy `Trainer.traverse`: 1 for a win and
      0 otherwise. */
  function LegacyPayoff(g: Game, currPlay: nat): (r: real)
    requires g.state == State.GameFinished
    ensures r == 1.0 <==> g.winningPlayer == Some(currPlay)
    ensures r == 0.0 <==> g.winningPlayer != Some(currPlay)
  {
    if g.winningPlayer == Some(currPlay) then 1.0 else 0.0
  }
}
