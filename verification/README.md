# CounterCoup core in Dafny

A model of the CounterCoup core: the Coup rules engine, and the Deep CFR
(counterfactual regret minimisation) trainer logic that learns to play it.
The engine is `Game` with its moves. Those are `select_action`, `decide_to_block`,
`decide_to_counteract`, `decide_to_block_counteract`, `select_card_to_lose` and
`select_cards_to_discard`, plus the private helpers they share. Around the engine
the model has these parts:

- the read-only game view (`GameInfoSet`);
- hands and `get_all_hands`;
- the action catalogue;
- the information-set encoding;
- the network output tables and the dicts built from them;
- the regret-matching strategy;
- `calculate_regrets`;
- the legacy trainer's normaliser and regret formula;
- the Timid and Random heuristic agents;
- the bounded sample memory and its batch view;
- one node of `traverse` in each of its three variants: robust sampling,
  Timid-biased and outcome sampling.

Everything is pure. A move takes a `Game` and returns `Moved(game)`, or
`Raised(fault, game)` with the game as Python leaves it when the move raises.
Python's random number generator is a stream of picks carried in the game.
Dicts are lists of `(Key, real)` pairs whose keys are compared with Python's `==`.
For hands that comparison is `Hand.__eq__`, so two hands holding the same
cards are one key.

Modules and files:

| file | module | models |
|---|---|---|
| util.dfy | Util | Result/Option, list removal, `random.sample`, `random.shuffle` |
| items.dfy | Items | cards, actions, states, history entries |
| hand.dfy | Hands | `Hand`, its equality and hash, `get_all_hands` |
| game.dfy | Engine | `Game` and its moves |
| game_props.dfy | EngineProps | multi-step behaviours of the engine |
| game_info.dfy | GameInfo | `GameInfoSet` accessors |
| strategy.dfy | Strategy | dict keys, lookup, store, uniform dicts |
| tools.dfy | Tools | `select_from_strategy`, `get_actions` |
| infoset.dfy | Infosets | `Infoset` fixed and history vectors |
| networks.dfy | Networks | output tables, `get_output`, `create_output`, `create_train_data` |
| regret.dfy | Regret | regret matching, `get_regret_strategy` |
| sums.dfy, weighing.dfy | Sums, Weighing | weighted sums over dicts |
| calculate.dfy | Regrets | `calculate_regrets` |
| legacy.dfy | Legacy | `Trainer.normalize` and the legacy regrets |
| agents.dfy | Agents | Timid and Random agents |
| memory.dfy | Memories, BatchMemories | `Memory`, `BatchMemory` |
| traverser.dfy | Traversal | one node of `traverse` |

## Model

| member | source | states |
|---|---|---|
| Items.Cost | countercoup/model/items/actions.py:5-64 | Coup costs 7, Assassinate 3, every other action 0 |
| Items.Claim | countercoup/model/items/actions.py:5-64 | Tax claims Duke, Assassinate Assassin, Steal Captain, Exchange Ambassador; Income, Foreign Aid and Coup claim nothing |
| Items.Counters | countercoup/model/items/actions.py:5-64 | Foreign Aid is countered by Duke, Assassinate by Contessa, Steal by Captain or Ambassador; Income, Coup, Tax and Exchange keep the base class's None (no counter list at all), and no action has an empty list |
| Items.Targeted | countercoup/model/items/actions.py:5-64 | exactly Coup, Assassinate and Steal name a target |
| Items.NoActionHasEmptyCounters | countercoup/model/game.py:134 | no action has an empty counter list, so the branch for "neither claimed nor counterable" can never be taken |
| Hands.MakeHand | countercoup/model/hand.py:14-18 | an empty card list raises IndexError; otherwise the first card, and the second if there is one |
| Hands.HandEqIsSameCards | countercoup/model/hand.py:20-26 | two hands are equal exactly when they hold the same multiset of cards |
| Hands.HandEqEquivalence | countercoup/model/hand.py:20-26 | hand equality is reflexive, symmetric and transitive |
| Hands.SwappedHandsEqual | countercoup/model/hand.py:20-26 | a two-card hand equals the same cards in the other order |
| Hands.EqualHandsHashAlike | countercoup/model/hand.py:28-31 | equal hands have equal hashes, whatever the card hashes are |
| Hands.GetAllHands | countercoup/model/hand.py:33-47 | pairwise unequal hands, each equal to the hand of some pair of positions and every such hand represented; two cards give their one hand |
| Hands.PairsCount | countercoup/model/hand.py:33-47 | n cards make n(n-1)/2 pairs |
| Hands.DedupedPairsSound | countercoup/model/hand.py:33-47 | every returned hand equals some pair of the cards |
| Hands.DedupedPairsComplete | countercoup/model/hand.py:33-47 | every pair of the cards equals some returned hand |
| Hands.SingularHandsMembers | countercoup/trainer/trainer.py:137 | the single-card hands are exactly the one-card hands of held cards |
| Engine.NextPlayer | countercoup/model/game.py:44-56 | the first seat after p, going round the table, whose player is in game; p itself when nobody else is; none when nobody is |
| Engine.SameSeats | countercoup/model/game.py:44-56 | the next player depends only on which seats are in game |
| Engine.NewGame | countercoup/model/game.py:18-42 | for 2 to 7 players, n well-formed seats of two cards each with starting coins and empty discards, the rest of the deck (15 - 2n cards) left over, player 0 to act, no history |
| Engine.NewGameCards | countercoup/model/game.py:22-28 | a new game holds exactly the fifteen cards of the starting deck |
| Engine.DealConserves | countercoup/model/game.py:25-28 | dealing moves cards from the deck to the seats and loses none |
| Engine.Pay | countercoup/model/game.py:58-69 | the cost leaves the actor's coins and nobody else's; the turn passes to the next player in game unless the action is an Exchange, which goes to the discard choice |
| Engine.StealCoins | countercoup/model/game.py:87-90 | the actor gains and the target loses min(2, target's coins) |
| Engine.DrawTwo | countercoup/model/game.py:92-94 | the deck is shuffled and its top two cards join the actor's hand; no card is lost |
| Engine.Settle | countercoup/model/game.py:96-99 | the entry is committed and the action cleared, unless the effect raised |
| Engine.SelectAction | countercoup/model/game.py:101-142 | outside its state, without the coins, or with 10 coins and not a Coup it raises and changes nothing; a targeted action without a target raises with the action already recorded; a claimed action opens the challenge round with the next player polled and the target stored; every move that succeeds keeps the game well-formed and its cards |
| Engine.DecideToBlock | countercoup/model/game.py:144-183 | outside its state it raises; a pass polls the next player while the round has not come back to the actor; every move that succeeds keeps the game well-formed and its cards |
| Engine.DecideToCounteract | countercoup/model/game.py:202-223 | outside its state it raises; a counter-claim records the counteracting player and opens the window for challenging it; a pass on an untargeted action polls the next player; every move that succeeds keeps the game well-formed and its cards |
| Engine.DecideToBlockCounteract | countercoup/model/game.py:225-268 | outside its state it raises; every move that succeeds keeps the game well-formed and its cards |
| Engine.ChallengeCounteract | countercoup/model/game.py:234-255 | a challenged counter-claim that succeeds as a move keeps the game well-formed and its cards |
| Engine.StealCounterMisreturned | countercoup/model/game.py:237-247 | a challenged counter to Steal backed by an Ambassador and no Captain puts a Captain in the deck and then raises on removing it, leaving one card more in the game |
| Engine.CounterUnchallenged | countercoup/model/game.py:256-268 | an unchallenged counteraction cancels the action, commits the entry and passes the turn, with the hands unchanged |
| Engine.DetermineCounteract | countercoup/model/game.py:185-200 | every move that succeeds keeps the game well-formed and its cards |
| Engine.LoseCard | countercoup/model/game.py:270-287 | every move that succeeds keeps the game well-formed and its cards |
| Engine.DetermineWinner | countercoup/model/game.py:289-300 | a winner exactly when one player is left in game, and it is that player |
| Engine.SelectCardToLose | countercoup/model/game.py:302-345 | outside its state it raises; a card not held raises and changes nothing; every move that succeeds keeps the game well-formed and its cards |
| Engine.DiscardCard | countercoup/model/game.py:314-319 | the card leaves the hand for the discard pile, a player left with no cards is out, nobody else changes and no card is lost |
| Engine.DiscardShape | countercoup/model/game.py:314-327 | after the discard the game is well-formed, and either finished with the winner recorded or still in play |
| Engine.ResumeAfterLoss | countercoup/model/game.py:329-345 | every move that succeeds keeps the game well-formed and its cards |
| Engine.SelectCardsToDiscard | countercoup/model/game.py:347-368 | outside its state it raises; a card not held raises and changes nothing; a move succeeds exactly when both cards can be removed in turn, and then they leave the hand for the bottom of the deck and the turn passes |
| Engine.ReturnTwo | countercoup/model/game.py:356-360 | each card in turn leaves the hand for the deck, and the second removal raises after the first card is already back |
| EngineProps.ThreeOfEach | countercoup/model/game.py:22-23 | the starting deck holds three copies of each character |
| EngineProps.GenuineChallenge | countercoup/model/game.py:160-170 | challenging a genuine claim records a failed challenge and makes the challenger lose a card, while the actor keeps as many cards and coins |
| EngineProps.GenuineChallengeSteps | countercoup/model/game.py:160-170 | a genuine claim challenged: the challenger loses a card first, then the claimed card is swapped |
| EngineProps.BluffChallenge | countercoup/model/game.py:172-177 | challenging a bluff records a successful challenge and makes the actor lose a card, with no hand changed yet |
| EngineProps.IncomeResolves | countercoup/model/game.py:74-75 | Income gives the actor one coin, records its entry and passes the turn |
| EngineProps.CoinBenefit | countercoup/model/game.py:79-84 | Income, Foreign Aid and Tax credit 1, 2 and 3 coins |
| EngineProps.TaxResolves | countercoup/model/game.py:69-84 | a resolved Tax gives the actor three coins, passes the turn and commits the entry, with no hand changed |
| EngineProps.TaxPlay | countercoup/model/game.py:58-99 | playing a Tax pays, credits three coins, commits and clears the action |
| EngineProps.LastCardEndsGame | countercoup/model/game.py:318-327 | the last card of the second-to-last player finishes the game with the other player as winner |
| EngineProps.LoseCardEndsTurn | countercoup/model/game.py:314-336 | a lost card that ends a turn moves only that card and passes the turn, leaving the attack player as it was |
| EngineProps.DiscardStaysLive | countercoup/model/game.py:314-330 | with three players in game, or a second card in hand, the discard leaves the game live and play resumes |
| EngineProps.ResumeEndsTurn | countercoup/model/game.py:331-336 | a loss that interrupted the choice of an action or the challenge of a counter-claim ends the turn |
| EngineProps.OnlyCardLost | countercoup/model/game.py:270-336 | a player losing their only card mid-turn is out, the entry is committed and the turn passes |
| EngineProps.CoupDoubleAdvance | countercoup/model/game.py:75 | when a Coup target's last card is lost the turn advances twice and a None entry is recorded |
| EngineProps.CoupGoesToLoss | countercoup/model/game.py:75 | a Coup is never countered: announced, it is paid and the target must lose a card |
| EngineProps.CounterRedraw | countercoup/model/game.py:241-247 | the redraw succeeds exactly when the first counter card is in the counteractor's hand |
| EngineProps.CounterChallengeUnfold | countercoup/model/game.py:237-249 | a genuine counter-claim challenged: the counter card is redrawn, then the challenger loses a card |
| EngineProps.CounterChallengeFails | countercoup/model/game.py:234-249 | a genuine counter-claim challenged: the challenger is written over the counteracting player of the record, the challenge is recorded as failed and the challenger loses a card |
| EngineProps.ActorPolledOnForeignAid | countercoup/model/game.py:219-223 | in the Foreign Aid counter round the actor is polled last |
| EngineProps.ChallengerOut | countercoup/model/game.py:270-287 | a challenger losing their only card is discarded at once and play of the action goes on |
| EngineProps.NextIsOther | countercoup/model/game.py:44-56 | with two or more players in game, the next player is somebody else |
| EngineProps.WrongPlayerSwap | countercoup/model/game.py:160-170 | once the challenger's loss passes the turn, the Duke is swapped on the new action player, who does not hold it, and the move raises with an extra Duke in the deck |
| EngineProps.TaxChallengerOut | countercoup/model/game.py:160-162 | a challenger knocked out by a genuine Tax claim lets the Tax resolve and the turn pass |
| GameInfo.PlayerAt | countercoup/model/game_info.py:17-36 | `players[i]`: past the end raises IndexError, an unset seat raises TypeError |
| GameInfo.CurrPlayer | countercoup/model/game_info.py:17-22 | the current player's record, or the fault reading it raises |
| GameInfo.ActionPlayerOf | countercoup/model/game_info.py:24-29 | the action player's record, or the fault reading it raises |
| GameInfo.CounteractPlayerOf | countercoup/model/game_info.py:31-36 | the counteracting player's record; fails while nobody has been polled |
| GameInfo.OpponentsAreOthers | countercoup/model/game_info.py:38-49 | every other seat, each once, ascending, never the current player |
| GameInfo.SeatsExceptAt | countercoup/model/game_info.py:38-49 | the k-th opponent is seat k below the current player and seat k+1 from it on |
| GameInfo.GameLength | countercoup/model/game_info.py:51-56 | one per recorded history entry, None entries included |
| Strategy.KeyEqEquivalence | countercoup/model/hand.py:20-26 | key equality is an equivalence, so dict lookups are well defined |
| Strategy.Lookup | countercoup/trainer/traverser.py:279-280 | `d[k]` finds the value under a key equal to k, and a missing key is a KeyError |
| Strategy.LookupRespects | countercoup/model/hand.py:20-31 | equal keys look up the same value |
| Strategy.Store | countercoup/trainer/traverser.py:287-293 | `d[k] = v` keeps an equal key in place with the new value, otherwise appends |
| Strategy.StoreOther | countercoup/trainer/traverser.py:287-293 | storing under k leaves every unequal key's value as it was |
| Strategy.StoreKeys | countercoup/trainer/traverser.py:287-293 | after the store the keys are those of d plus k, up to equality |
| Strategy.DedupKeys | countercoup/trainer/traverser.py:262 | a dict built from a list keeps the first key of each equality class, in order, pairwise unequal |
| Strategy.Uniform | countercoup/trainer/traverser.py:262 | one entry per distinct key, each worth 1/len(list); an empty list gives an empty dict |
| Strategy.UniformTotal | countercoup/trainer/traverser.py:262 | a uniform dict over a list without repeats sums to 1; with repeats, to the fraction of distinct keys |
| Strategy.UniformTwice | countercoup/player/agents/timid.py:30-32 | a uniform dict over a key listed twice has one entry worth 1/2 |
| Tools.SelectFromStrategy | countercoup/shared/tools.py:12-27 | the chosen key is the key of the first entry at which the running sum of values reaches the draw (val minus those values drops to 0 or below); none is chosen exactly when every running sum stays below the draw |
| Tools.SelectNoneIffShort | countercoup/shared/tools.py:12-27 | with nonnegative values nothing is chosen exactly when the values sum to less than the draw |
| Tools.SelectFromNormalised | countercoup/shared/tools.py:12-27 | a strategy summing to 1 always yields a key for a draw in [0, 1) |
| Tools.GetActions | countercoup/shared/tools.py:29-53 | exactly the affordable pairs, only Coup at 10 coins or more, each targeted action once per in-game opponent position; an action player out of range raises |
| Tools.GetActionsDistinct | countercoup/shared/tools.py:29-53 | no (action, target) pair is offered twice |
| Tools.IncomeOffered | countercoup/shared/tools.py:29-53 | below 10 coins Income is always offered, at 10 or more never |
| Tools.LegacyGetActions | countercoup/trainer/trainer.py:225-248 | the legacy enumeration reads `in_game` from player indices, which raises AttributeError |
| Tools.LegacyGetActionsFails | countercoup/trainer/trainer.py:235 | the legacy enumeration fails on every game with two or more seats |
| Infosets.CardCounts | countercoup/shared/infoset.py:19-63 | `cards.count(x)` for each character in the card order |
| Infosets.FixedVector | countercoup/shared/infoset.py:19-63 | fails exactly when the current player is out of range, and otherwise holds 8n+7 entries for n players |
| Infosets.FixedVectorLayout | countercoup/shared/infoset.py:19-63 | n players give 8n+7 entries, with the action block starting at 6n |
| Infosets.HandCountsSum | countercoup/shared/infoset.py:19-63 | the first five entries add up to the current hand's size |
| Infosets.ActionBlockOneHot | countercoup/shared/infoset.py:19-63 | the action block has a single 1 during an action and is all zeros otherwise |
| Infosets.OpponentBlocksAscend | countercoup/shared/infoset.py:33-37 | the k-th discard block, at 5 + 5k, counts the discard of the k-th opponent in seat order: seat k below the current player, seat k + 1 from it on |
| Infosets.HandSection | countercoup/shared/infoset.py:28-31 | the first five entries count the current player's cards, one count per character |
| Infosets.DiscardSection | countercoup/shared/infoset.py:33-37 | entries 5 to 5n are the opponents' discard counts, block after block in seat order |
| Infosets.CoinSection | countercoup/shared/infoset.py:39-45 | entries 5n to 6n are the current player's coins and then each opponent's in seat order |
| Infosets.FlagSection | countercoup/shared/infoset.py:51-59 | entries 6n+7 and 6n+8 are the current player's acting and counteracting flags, and the opponents' flag pairs fill the rest in seat order |
| Infosets.OpponentCoinsAscend | countercoup/shared/infoset.py:39-45 | entry 5n is the current player's coins and entry 5n+1+k the coins of the k-th opponent, seat k below the current player and seat k + 1 from it on |
| Infosets.OpponentFlagsAscend | countercoup/shared/infoset.py:51-59 | entries 6n+7 and 6n+8 flag whether the current player acts and whether it counteracts; entries 6n+9+2k and 6n+10+2k flag the same for the k-th opponent in seat order |
| Infosets.EntryRows | countercoup/shared/infoset.py:80-92 | an entry gives the acting player's row first and, only when someone counteracted, a second row tagged with the counteracting player |
| Infosets.FlatHistory | countercoup/shared/infoset.py:72-92 | a None entry raises AttributeError; otherwise one 12-wide row per entry, plus one per countered entry |
| Infosets.FlatHistoryPrefix | countercoup/shared/infoset.py:80-92 | the rows of a prefix of the history are a prefix of the rows of the whole history |
| Infosets.FlatHistoryEntry | countercoup/shared/infoset.py:80-92 | entry i's acting row, tagged with its acting player, sits at i plus the number of earlier countered entries, and its counteraction row, tagged with the counteracting player, right after it |
| Infosets.RowsOfMembers | countercoup/shared/infoset.py:94-100 | a row is among player p's rows exactly when the flat history carries it tagged with p |
| Infosets.HistoryRowsFiled | countercoup/shared/infoset.py:80-100 | every entry's acting row is among its acting player's rows and its counteraction row among the counteracting player's rows |
| Infosets.HistoryVectors | countercoup/shared/infoset.py:64-102 | the current player's rows first, then the k-th sequence holds the rows tagged with the k-th opponent in seat order, every row 12 wide; fails exactly on a None entry |
| Infosets.HistoryVectorsPerPlayer | countercoup/shared/infoset.py:64-102 | one row sequence per player |
| Infosets.MakeInfoset | countercoup/shared/infoset.py:13-17 | IndexError for a current player out of range, AttributeError for a None history entry, and otherwise a fixed vector of 8n+7 entries and one history sequence per player |
| Networks.ActionOutputsTable | countercoup/shared/networks/action_net.py:8-9 | 13 pairwise unequal entries: untargeted actions once, targeted ones at 0, 1 and 2 |
| Networks.ActionOutputsCoverGetActions | countercoup/shared/networks/action_net.py:8-9 | with at most four players every pair `get_actions` offers is a row of the table |
| Networks.LoseOutputsTable | countercoup/shared/networks/lose_net.py:8-13 | every hand equals exactly one row of the lose table |
| Networks.LoseOutputsCoverAllHands | countercoup/shared/networks/lose_net.py:8-13 | every hand `get_all_hands` can return is a row of the lose table |
| Networks.GetOutput | countercoup/shared/network.py:26-41 | each output the filter keeps appears under its key, and no other key appears |
| Networks.GetOutputValue | countercoup/shared/network.py:37-39 | in a table without repeats every kept output has the value at its own position |
| Networks.CreateOutput | countercoup/trainer/network.py:64-79 | one entry per table row, the dict's value or 0 when the row is missing |
| Networks.OutputRoundTrip | countercoup/trainer/network.py:64-79 | laying out the unfiltered output dict gives back the network's vector |
| Networks.TargetRoundTrip | countercoup/trainer/network.py:64-79 | reading back a laid-out dict gives each key its value and every other row 0 |
| Networks.CreateTrainData | countercoup/shared/network.py:72-91 | the infoset's vectors as input, the laid-out dict as target and the iteration as weight |
| Networks.FixedInputWidth | countercoup/trainer/network.py:31-61 | the fixed vector of a four-player game has width 39 |
| Regret.RegretMatch | countercoup/trainer/traverser.py:259-264 | with no positive value zero_data when given, otherwise (on a nonempty dict) 1/len for every key; with some, each key's positive part over the positive total, positive exactly where the output is |
| Regret.RegretMatchIsDistribution | countercoup/trainer/traverser.py:259-264 | on a nonempty dict the result is a probability distribution over the same keys |
| Regret.GetRegretStrategy | countercoup/trainer/traverser.py:243-264 | regret matching on iteration 1's zero output or the network's filtered output: nonnegative, the same keys, summing to 1 when nonempty, each key's positive part over the positive total; when nothing is positive, zero_data if given and otherwise 1/len for every key, on any iteration |
| Regret.FirstIterationUniform | countercoup/trainer/traverser.py:254-262 | iteration 1 without zero_data gives the uniform strategy over the filter |
| Regret.ZeroOutputUniform | countercoup/trainer/traverser.py:259-262 | an all-zero output turns into the uniform strategy over its keys |
| Regret.FirstIterationFollowsZeroData | countercoup/trainer/traversers/timid_biased.py:237-260 | iteration 1 with zero_data gives zero_data itself |
| Weighing.Weighted | countercoup/trainer/traverser.py:277-280 | the weighted loop fails only with KeyError |
| Weighing.WeightedFails | countercoup/trainer/traverser.py:277-280 | the loop fails exactly when some sampled key is missing from the strategy |
| Weighing.WeightedIsSum | countercoup/trainer/traverser.py:277-280 | a loop that finishes has summed strategy weight times value over the sampled keys |
| Weighing.MassIsValue | countercoup/trainer/traverser.py:277-280 | in a dict the mass on a key is the value stored under it, 0 for a missing key |
| Regrets.CalculateRegrets | countercoup/trainer/traverser.py:266-297 | fails exactly on an empty values dict (ZeroDivisionError) or a sampled key missing from the strategy; the instantaneous regret is len(strategy)/len(values) times the sum over sampled keys of strategy weight times value; the regret dict has the strategy's keys, a sampled key's regret is its value times len(strategy)/len(values) less that, an unsampled key's the negated instantaneous regret |
| Regrets.SampledRegrets | countercoup/trainer/traverser.py:288-293 | a sampled key's regret is its own scaled value less the instantaneous regret; an unsampled key's is the instantaneous regret negated |
| Regrets.RegretsFor | countercoup/trainer/traverser.py:288-293 | a sampled key's regret is its scaled value less the instantaneous regret; an unsampled key's is its negation |
| Regrets.InstantRegretIsScaledWeight | countercoup/trainer/traverser.py:277-286 | the instantaneous regret is the scale factor times the strategy's weight on the sampled values |
| Regrets.RegretsBalance | countercoup/trainer/traverser.py:266-297 | against a strategy summing to 1 the strategy-weighted sum of the recorded regrets is 0 |
| Legacy.Normalize | countercoup/trainer/trainer.py:213-222 | keeps the keys; a nonempty dict normalises to total 1; one summing to 0 becomes uniform; otherwise every entry keeps its key in order and becomes its value over the sum, signs kept |
| Legacy.NormalizeIdempotent | countercoup/trainer/trainer.py:213-222 | normalising twice changes nothing |
| Legacy.LegacyRegrets | countercoup/trainer/trainer.py:81-82 | a missing key raises KeyError; otherwise the regret of each key is its new advantage less the strategy-weighted sum of all the new advantages |
| Legacy.LegacyRegretsBalance | countercoup/trainer/trainer.py:81-82 | with the strategy normalised from the same advantages the legacy regrets balance |
| Agents.TimidAction | countercoup/player/agents/timid.py:12-15 | uniform over the legal pairs that claim nothing or claim a card the current player holds, each worth 1/len, summing to 1 |
| Agents.TimidBlock | countercoup/player/agents/timid.py:17-18 | never challenge |
| Agents.TimidCounteract | countercoup/player/agents/timid.py:20-25 | counteract with certainty exactly when a counter card of the action is in hand |
| Agents.LoseCardStrategy | countercoup/player/agents/timid.py:30-32 | uniform over one single-card hand per held card |
| Agents.DiscardStrategy | countercoup/player/agents/timid.py:34-36 | uniform over `get_all_hands` of the hand |
| Agents.DoubledCardHalvesLoseStrategy | countercoup/player/agents/random.py:25-27 | a hand with two copies of a card gives a single entry worth 1/2, so the strategy sums to 1/2 |
| Agents.DistinctCardsLoseStrategy | countercoup/player/agents/random.py:25-27 | two different cards give two entries of 1/2 |
| Agents.RandomAction | countercoup/player/agents/random.py:12-14 | uniform over every legal pair |
| Agents.RandomDecision | countercoup/player/agents/random.py:16-23 | a fair coin over yes and no |
| Agents.TimidWithinRandom | countercoup/player/agents/timid.py:12-15 | Timid only plays pairs that Random could play too |
| Agents.TimidNeverChallenges | countercoup/player/agents/timid.py:17-18 | with a draw in (0, 1] Timid's challenge strategy always passes |
| Memories.NewMemory | countercoup/shared/memory.py:9-12 | a new memory holds nothing |
| Memories.Add | countercoup/shared/memory.py:14-26 | appends while not full; once full, keeps the length and replaces only slot `drawn`, and only if it is below size-1 |
| Memories.AddBulk | countercoup/shared/memory.py:28-34 | the counter grows by the number of items and the memory stays valid |
| Memories.GetItem | countercoup/shared/memory.py:39-40 | Python list indexing: negatives count from the end, anything else out of range is IndexError |
| Memories.LastSlotKept | countercoup/shared/memory.py:20-26 | slot size-1 of a full memory never changes, whatever is drawn |
| Memories.OtherSlotsReplaceable | countercoup/shared/memory.py:20-26 | every other slot of a full memory is replaced by some draw |
| Memories.AddBulkSplit | countercoup/shared/memory.py:28-34 | splitting the items splits the run of adds |
| Memories.FillAppends | countercoup/shared/memory.py:28-34 | while not full, `add_bulk` appends the items in order |
| Memories.FullKeepsLast | countercoup/shared/memory.py:28-34 | once full, `add_bulk` keeps the length and the last slot |
| BatchMemories.NewBatch | countercoup/shared/batch_memory.py:11-19 | the data is a permutation of the memory's, and reading starts at 0 |
| BatchMemories.BatchGetItem | countercoup/shared/batch_memory.py:24-28 | an index past the batch is IndexError, an empty memory divides by zero, otherwise the item idx places past the start, wrapping round |
| BatchMemories.BatchServes | countercoup/shared/batch_memory.py:21-28 | over a nonempty memory an index is served exactly when it is below `len`, and the item served is in the data |
| BatchMemories.OnEpochEnd | countercoup/shared/batch_memory.py:30-31 | an empty memory raises ZeroDivisionError; otherwise the start moves batch_size on and stays in range |
| BatchMemories.EpochContinues | countercoup/shared/batch_memory.py:24-31 | after an epoch ends, index idx reads the item batch_size + idx places past the old start |
| BatchMemories.BatchReadsDistinct | countercoup/shared/batch_memory.py:24-28 | within a batch that fits in the memory no slot is read twice |
| Traversal.OwnNode | countercoup/trainer/traverser.py:76-168 | the strategy is a distribution and the sampled keys are distinct keys of it; before length 16 three actions or two discards are explored, later one, never more than the strategy holds; outcome sampling and the other states explore one; it fails only with ValueError, exactly when one key is to be sampled from an empty strategy |
| Traversal.Node | countercoup/trainer/traverser.py:41-241 | a finished game pays 1 to the winner and -1 otherwise; robust and Timid-biased traversal call a draw at length 50; past those tests an Infoset that cannot be built (a missing history entry, a bad current player) raises its error before any decision; the player's own nodes explore and the others follow one choice |
| Traversal.ActionChild | countercoup/trainer/traverser.py:86-89 | an untargeted action key is played without a target; a targeted key with index t plays against seat t below the current player and seat t + 1 from it on; a missing index is a TypeError, one past the opponents an IndexError, and a non-action key a TypeError |
| Traversal.CardChild | countercoup/trainer/traverser.py:147-161 | a hand key discards both its cards or loses its first; a one-card hand is refused as a discard with the card-not-held error; any other key is an AttributeError |
| Traversal.Child | countercoup/trainer/traverser.py:84-241 | a key leads to a child exactly when it has the state's shape; block, counteract and block-counteract keys decide by their Python truth; a successful move keeps the game well formed, with the same seats and cards |
| Traversal.ActionKeyTargets | countercoup/shared/tools.py:39-49 | every key `get_actions` offers leads to a child, and an attacking key names a live opponent, never the current player |
| Traversal.NodeKeysHaveChildren | countercoup/trainer/traverser.py:76-241 | every key of the strategy a node builds (legal actions, both decisions, the current player's hands) leads to a child without an exception |
| Traversal.Back | countercoup/trainer/traverser.py:90-241 | only an explored node appends advantages, over its strategy's keys; a followed node passes its child's value and appends the strategy; a followed node with no choice raises TypeError at the choice of action and AttributeError at the card choices; an empty sample divides by zero |
| Traversal.FollowChild | countercoup/trainer/traverser.py:179-241 | a chosen key plays that key's move; with no choice the three decisions are taken as false, the choice of action raises TypeError and the card choices raise AttributeError |
| Traversal.NoChoiceActsAsFalse | countercoup/shared/tools.py:12-26 | a missing choice plays exactly like the key False at every decision, and raises the state's error everywhere else |
| Traversal.SampleNode | countercoup/trainer/traverser.py:83 | `random.sample` of the strategy's keys: a ValueError exactly when more keys are asked for than the strategy has, otherwise that many distinct keys of it |
| Traversal.ExploreSamples | countercoup/trainer/traverser.py:83 | the explored keys are distinct keys of a probability distribution, as many as the sample size allows |
| Traversal.ExploreBalances | countercoup/trainer/traverser.py:90-97 | an explored node records regrets that balance against its strategy |
| Traversal.OwnNodeIgnoresZeroData | countercoup/trainer/traversers/timid_biased.py:57-150 | the Timid-biased traverser treats the player's own nodes exactly like the base traverser |
| Traversal.OutcomeMatchesRobustLate | countercoup/trainer/traversers/outcome.py:20-215 | before length 50, at an opponent's node or at the player's own node from length 16 on, outcome sampling builds the same node as robust sampling |
| Traversal.TimidOpponentsFirstIteration | countercoup/trainer/traversers/timid_biased.py:152-235 | on iteration 1 the Timid-biased traverser's opponents follow the Timid agent's strategy, choosing with the draw |
| Traversal.TimidOpponentsWithRegrets | countercoup/trainer/traversers/timid_biased.py:237-260 | once the network gives some key a positive advantage, the Timid-biased traverser's opponents play exactly as the base traverser's |
| Traversal.OpponentPassesValue | countercoup/trainer/traverser.py:170-241 | an opponent's node with a child appends no advantage and returns its child's value; one without a child had no choice and raises that state's error |
| Traversal.LegacyPayoff | countercoup/trainer/trainer.py:56-61 | the legacy trainer pays 1 for a win and 0 otherwise |
| Traversal.LegacyPayoffRescaled | countercoup/trainer/trainer.py:56-61 | the legacy payoffs are the current ones moved to the range 0 to 1 |

## Left out

- Python floats (network outputs, strategies, regrets) are modelled as `real`. Rounding is not modelled.
- Randomness (`random.shuffle`, `random.sample`, `random.random`) is a stream of natural-number picks. An exhausted stream reads as 0. The draw of `random.random()` is a parameter.
- Engine.SelectAction: leaves out the `c_action_cards == []` branch of countercoup/model/game.py:134. No action has an empty counter list (lemma Items.NoActionHasEmptyCounters), so the branch is dead.
- GameInfo.: `class Game` in countercoup/model/game.py neither inherits from nor imports `GameInfoSet` (countercoup/model/game_info.py:1), so in Python `get_game_length`, `get_opponents` and `get_curr_player` called on a `Game` by the traversers, the agents and `Tools.get_actions` raise AttributeError. The model reads them as accessors of the game, the meaning every caller relies on, and does not model that AttributeError.
- Engine.NewGame: assumes players start with 2 coins and `in_game` set to True, because countercoup/model/player.py is not part of this model.
- Engine.NewGame: requires 2 to 7 players. Python deals 8 or more players into an IndexError at `deck.pop(0)` once the 15 cards run out, and builds a game of 0 or 1 players that is over before it starts; no caller asks for either.
- Engine.SelectAction: the model raises TargetOutOfRange when the target is at or past the number of players at announcement. Python stores any target. Assassinate and Steal then proceed, and Coup raises IndexError at countercoup/model/game.py:67 with the attack player already set. Negative targets cannot be written, because the target is a `nat`. No caller produces such a target.
- Traversal.Node: the block-counteract network's output table is not part of this model. Its outputs are taken as `[True, False]`.
- Hands.GetAllHands: Python's `get_all_hands` (countercoup/model/hand.py:33-47) returns a set whose order comes from the hashes. The model fixes the order of the pair combinations. This changes which key `select_from_strategy` picks from a discard strategy, but not which keys it can pick.
- Traversal.Node: the network is a parameter. The Infoset is built, and its failures are modelled, but the network's output vector for it is passed in, and the training data appended to memory is the regret dict, not its formatted vector.
- Traversal.Child: defined only for a game that is not finished, because `traverse` returns at a finished game before choosing a move.
- Hands.SingularHands: `Hand.get_singular_hands` is called by the agents and traversers but is not defined in countercoup/model/hand.py, so in Python the call raises AttributeError. The model gives it the meaning countercoup/trainer/trainer.py:137 writes out: one single-card hand per held card.
- Traversal.OwnNode: `random.sample` on the keys of a strategy dict is a sample of its key list.
- Trainer statistics (`TrainerStats`), network training, Keras, saving and loading files, and `deepcopy` of games are left out.
- Memories.Add: keeps the source's comparison `i < size - 1` as written. The last slot of a full memory is never replaced (lemma Memories.LastSlotKept).
- Python's `players[-1]` style negative player indices are not modelled. Every index the engine reads is a seat number.

