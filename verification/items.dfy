/** The fixed vocabulary of the game: the five character cards, the seven
    actions with their costs, claims and counters, the decision states, and
    the history record the engine writes for each action. */
module Items {
  import opened Util

  datatype Card = Duke | Assassin | Ambassador | Captain | Contessa

  /** The decision phases of the engine; exactly one is active at a time. */
  datatype State =
    | SelectAction
    | DecideToBlock
    | DecideToCounteract
    | SelectCardsToDiscard
    | GameFinished
    | DecideToBlockCounteract
    | SelectCardToLose

  datatype Action = Income | ForeignAid | Coup | Tax | Assassinate | Exchange | Steal

  /** The catalogue order used when the source enumerates every action. */
  const AllActions: seq<Action> := [Income, ForeignAid, Coup, Tax, Assassinate, Exchange, Steal]

  /** The coins paid to play the action. */
  function Cost(a: Action): (c: nat)
    ensures c > 0 <==> a == Coup || a == Assassinate
    ensures a == Coup ==> c == 7
    ensures a == Assassinate ==> c == 3
  {
    match a
    case Coup => 7
    case Assassinate => 3
    case _ => 0
  }

  /** The character the actor claims to hold (`action_card`); None for the
      actions anybody may play. */
  function Claim(a: Action): (c: Option<Card>)
    ensures c.None? <==> a in {Income, ForeignAid, Coup}
    ensures a == Assassinate ==> c == Some(Assassin)
    ensures a == Steal ==> c == Some(Captain)
    ensures a == Tax ==> c == Some(Duke)
    ensures a == Exchange ==> c == Some(Ambassador)
  {
    match a
    case Assassinate => Some(Assassin)
    case Steal => Some(Captain)
    case Tax => Some(Duke)
    case Exchange => Some(Ambassador)
    case _ => None
  }

  /** The characters that counteract the action (`c_action_cards`). Actions
      that cannot be countered inherit None, never the empty list. */
  function Counters(a: Action): (cs: Option<seq<Card>>)
    ensures cs.None? <==> a in {Income, Coup, Tax, Exchange}
    ensures cs.Some? ==> |cs.value| > 0
    ensures a == Assassinate ==> cs == Some([Contessa])
    ensures a == Steal ==> cs == Some([Captain, Ambassador])
    ensures a == ForeignAid ==> cs == Some([Duke])
  {
    match a
    case Assassinate => Some([Contessa])
    case Steal => Some([Captain, Ambassador])
    case ForeignAid => Some([Duke])
    case _ => None
  }

  /** Whether the action names a player to attack (`attack_action`). */
  function Targeted(a: Action): (t: bool)
    ensures t <==> a in {Coup, Assassinate, Steal}
  {
    a == Coup || a == Assassinate || a == Steal
  }

  /** The record the engine fills in while one action is resolved. The last
      field is the attribute `counteract_player` that the engine writes when a
      counter-claim is challenged; the declared `counteract_block_player`
      keeps its default None. */
  datatype History = History(
    action: Option<Action>,
    actionPlayer: Option<nat>,
    attackingPlayer: Option<nat>,
    blockingPlayer: Option<nat>,
    blockSuccessful: Option<bool>,
    counteractingPlayer: Option<nat>,
    counteractBlockPlayer: Option<nat>,
    counteractBlockSuccessful: Option<bool>,
    counteractPlayer: Option<nat>)

  /** `History()`: every field None. */
  const EmptyHistory := History(None, None, None, None, None, None, None, None, None)

  /** No action has an empty counter list, so the engine's test for
      "neither claimed nor counterable" (an empty list and no claim) never
      holds; Income and Coup reach resolution through the counteraction step. */
  lemma NoActionHasEmptyCounters(a: Action)
    ensures !(Counters(a) == Some([]) && Claim(a).None?)
  {
  }
}
