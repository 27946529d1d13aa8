/** The two heuristic agents, countercoup/player/agents/timid.py and
    countercoup/player/agents/random.py: pure functions from a game to a
    strategy dict. Timid never bluffs and never challenges, and counteracts
    whenever it holds a counter card; Random is uniform everywhere. */
module Agents {
  import opened Util
  import opened Items
  import opened Engine
  import opened Hands
  import opened GameInfo
  import opened Strategy
  import opened Tools

  /** `{True: yes, False: no}`. */
  function Decision(yes: real, no: real): (r: Dist)
    ensures IsDict(r) && |r| == 2
    ensures Lookup(r, Choice(true)) == Some(yes) && Lookup(r, Choice(false)) == Some(no)
  {
    var r := [(Choice(true), yes), (Choice(false), no)];
    assert Keys(r) == [Choice(true), Choice(false)];
    assert r[1..] == [(Choice(false), no)];
    assert FindKey(r[1..], Choice(false)) == Some(0);
    assert FindKey(r, Choice(false)) == Some(1);
    r
  }

  /** Hands as dict keys. */
  function HandKeys(hs: seq<Hand>): (r: seq<Key>)
    ensures |r| == |hs|
    ensures forall i :: 0 <= i < |hs| ==> r[i] == Cards(hs[i])
    ensures HandsDistinct(hs) ==> KeysDistinct(r)
    ensures forall k :: KeyIn(k, r) <==> k.Cards? && HandIn(k.hand, hs)
  {
    var r := seq(|hs|, i requires 0 <= i < |hs| => Cards(hs[i]));
    forall k ensures KeyIn(k, r) <==> k.Cards? && HandIn(k.hand, hs) {
      if KeyIn(k, r) {
        var i :| 0 <= i < |r| && KeyEq(r[i], k);
        assert HandEq(hs[i], k.hand);
      }
      if k.Cards? && HandIn(k.hand, hs) {
        var i :| 0 <= i < |hs| && HandEq(hs[i], k.hand);
        assert KeyEq(r[i], k);
      }
    }
    r
  }

  /** Pairs that are pairwise different are pairwise unequal as keys. */
  lemma MovesDistinct(s: seq<Key>)
    requires Distinct(s)
    requires forall i :: 0 <= i < |s| ==> s[i].Move?
    ensures KeysDistinct(s)
  {
  }

  // ------------------------------------------------------------------ Timid

  /** The legal pairs whose action claims nothing or claims a card in hand. */
  function Honest(acts: seq<Key>, hand: seq<Card>): (r: seq<Key>)
    ensures forall k :: k in r <==> k in acts && k.Move? && (Claim(k.action).None? || Claim(k.action).value in hand)
    ensures Distinct(acts) ==> Distinct(r)
  {
    if |acts| == 0 then []
    else
      var rest := Honest(acts[1..], hand);
      var k := acts[0];
      if k.Move? && (Claim(k.action).None? || Claim(k.action).value in hand) then
        assert Distinct(acts) ==> k !in acts[1..];
        assert Distinct(acts) ==> Distinct(acts[1..]) by {
          if Distinct(acts) {
            forall i, j | 0 <= i < j < |acts[1..]| ensures acts[1..][i] != acts[1..][j] {
              assert acts[1..][i] == acts[i + 1];
            }
          }
        }
        if Distinct(acts) then DistinctCons(k, rest); [k] + rest else [k] + rest
      else
        assert Distinct(acts) ==> Distinct(acts[1..]) by {
          if Distinct(acts) {
            forall i, j | 0 <= i < j < |acts[1..]| ensures acts[1..][i] != acts[1..][j] {
              assert acts[1..][i] == acts[i + 1];
            }
          }
        }
        rest
  }

  /** `Timid.get_action_strategy`: uniform over the legal pairs whose claim
      the current player can back. The hand is read only while filtering, so
      an empty list of legal pairs never touches the current player. */
  function TimidAction(g: Game): (r: Result<Dist>)
    ensures GetActions(g).Err? ==> r == Err(GetActions(g).error)
    ensures r.Ok? ==> IsDict(r.value) && NonNegative(r.value)
    ensures r.Ok? && g.currentPlayer >= |g.players| ==> r.value == []
    ensures r.Ok? && g.currentPlayer < |g.players| ==> forall k :: k in Keys(r.value) <==>
              k in GetActions(g).value && (Claim(k.action).None? || Claim(k.action).value in g.players[g.currentPlayer].cards)
    ensures r.Ok? && |r.value| > 0 ==> Total(r.value) == 1.0
    ensures r.Ok? && g.currentPlayer < |g.players| && |Honest(GetActions(g).value, g.players[g.currentPlayer].cards)| > 0 ==>
              forall i :: 0 <= i < |r.value| ==> r.value[i].1 == 1.0 / |Honest(GetActions(g).value, g.players[g.currentPlayer].cards)| as real
  {
    match GetActions(g)
    case Err(e) => Err(e)
    case Ok(acts) =>
      if |acts| > 0 && g.currentPlayer >= |g.players| then Err(IndexError)
      else if |acts| == 0 then Ok([])
      else
        var held := Honest(acts, g.players[g.currentPlayer].cards);
        GetActionsDistinct(g);
        if |held| > 0 then
          MovesDistinct(held);
          UniformOver(held);
          UniformShares(held, |held|);
          Ok(Uniform(held))
        else Ok([])
  }

  /** `Timid.get_block_strategy` and `get_block_counteract_strategy`: never
      challenge. */
  function TimidBlock(): (r: Dist)
    ensures Lookup(r, Choice(true)) == Some(0.0) && Lookup(r, Choice(false)) == Some(1.0)
  {
    Decision(0.0, 1.0)
  }

  /** `Timid.get_counteract_strategy`: counteract with certainty exactly when
      a counter card of the current action is in hand. No current action is
      an attribute error and an uncounterable action (counters None) a type
      error, both raised while building the list. */
  function TimidCounteract(g: Game): (r: Result<Dist>)
    ensures r.Ok? <==> g.currentAction.Some? && Counters(g.currentAction.value).Some? && g.currentPlayer < |g.players|
    ensures g.currentAction.None? ==> r == Err(AttributeError)
    ensures r.Ok? ==> IsDict(r.value) && NonNegative(r.value) && Total(r.value) == 1.0
    ensures r.Ok? ==>
              (Lookup(r.value, Choice(true)) == Some(1.0) <==>
               exists c :: c in Counters(g.currentAction.value).value && c in g.players[g.currentPlayer].cards)
  {
    if g.currentAction.None? then Err(AttributeError)
    else
      var cs := Counters(g.currentAction.value);
      if cs.None? then Err(TypeError)
      else if g.currentPlayer >= |g.players| then Err(IndexError)
      else
        var held := HeldCounters(cs.value, g.players[g.currentPlayer].cards);
        if |held| > 0 then
          assert held[0] in held;
          Ok(Decision(1.0, 0.0))
        else
          Ok(Decision(0.0, 1.0))
  }

  /** `get_lose_card_strategy` of both agents: uniform over one single-card
      hand per held card. A card held twice yields equal hands, which the
      dict keeps once while each value stays 1/len. */
  function LoseCardStrategy(g: Game): (r: Result<Dist>)
    ensures r.Ok? <==> g.currentPlayer < |g.players|
    ensures r.Ok? ==> IsDict(r.value) && NonNegative(r.value)
    ensures r.Ok? ==> forall k :: KeyIn(k, Keys(r.value)) <==>
              k.Cards? && k.hand.card2.None? && k.hand.card1 in g.players[g.currentPlayer].cards
    ensures r.Ok? && |g.players[g.currentPlayer].cards| > 0 ==>
              forall i :: 0 <= i < |r.value| ==> r.value[i].1 == 1.0 / |g.players[g.currentPlayer].cards| as real
  {
    if g.currentPlayer >= |g.players| then Err(IndexError)
    else
      var cards := g.players[g.currentPlayer].cards;
      var keys := HandKeys(SingularHands(cards));
      forall h ensures HandIn(h, SingularHands(cards)) <==> h.card2.None? && h.card1 in cards {
        SingularHandsMembers(cards, h);
      }
      UniformShares(keys, |cards|);
      Ok(Uniform(keys))
  }

  /** `get_discard_strategy` of both agents: uniform over `get_all_hands`. */
  function DiscardStrategy(g: Game): (r: Result<Dist>)
    ensures r.Ok? <==> g.currentPlayer < |g.players|
    ensures r.Ok? ==> IsDict(r.value) && NonNegative(r.value)
    ensures r.Ok? ==> forall k :: KeyIn(k, Keys(r.value)) <==>
              k.Cards? && (exists i, j :: 0 <= i < j < |g.players[g.currentPlayer].cards| &&
                             HandEq(PairAt(g.players[g.currentPlayer].cards, i, j), k.hand))
    ensures r.Ok? && |g.players[g.currentPlayer].cards| >= 2 ==> Total(r.value) == 1.0
    ensures r.Ok? && |GetAllHands(g.players[g.currentPlayer].cards)| > 0 ==> forall i :: 0 <= i < |r.value| ==>
              r.value[i].1 == 1.0 / |GetAllHands(g.players[g.currentPlayer].cards)| as real
  {
    if g.currentPlayer >= |g.players| then Err(IndexError)
    else
      var cards := g.players[g.currentPlayer].cards;
      var hs := GetAllHands(cards);
      var keys := HandKeys(hs);
      var r := Uniform(keys);
      UniformShares(keys, |hs|);
      if |cards| >= 2 then
        assert PairAt(cards, 0, 1) == Hand(cards[0], Some(cards[1]));
        HandEqEquivalence();
        assert HandIn(PairAt(cards, 0, 1), hs);
        assert Keys(r) == keys;
        UniformTotal(keys);
        Ok(r)
      else Ok(r)
  }

  /** A hand holding two copies of one card gives a lose strategy of a single
      entry worth 1/2, so its values do not sum to 1. */
  lemma DoubledCardHalvesLoseStrategy(g: Game, c: Card)
    requires g.currentPlayer < |g.players|
    requires g.players[g.currentPlayer].cards == [c, c]
    ensures LoseCardStrategy(g) == Ok([(Cards(Hand(c, None)), 0.5)])
    ensures Total(LoseCardStrategy(g).value) == 0.5
  {
    var x := Cards(Hand(c, None));
    var keys := HandKeys(SingularHands([c, c]));
    assert keys == [x, x];
    UniformTwice(x);
    assert LoseCardStrategy(g) == Ok(Uniform(keys));
  }

  /** Two different cards give a lose strategy of two entries of 1/2. */
  lemma DistinctCardsLoseStrategy(g: Game, a: Card, b: Card)
    requires g.currentPlayer < |g.players| && a != b
    requires g.players[g.currentPlayer].cards == [a, b]
    ensures Total(LoseCardStrategy(g).value) == 1.0
  {
    var keys := HandKeys(SingularHands([a, b]));
    assert keys == [Cards(Hand(a, None)), Cards(Hand(b, None))];
    assert KeysDistinct(keys);
    UniformOver(keys);
  }

  // ----------------------------------------------------------------- Random

  /** `Random.get_action_strategy`: uniform over every legal pair. */
  function RandomAction(g: Game): (r: Result<Dist>)
    ensures r.Ok? <==> GetActions(g).Ok?
    ensures r.Ok? ==> IsDict(r.value) && NonNegative(r.value) && Keys(r.value) == GetActions(g).value
    ensures r.Ok? && |r.value| > 0 ==> Total(r.value) == 1.0
    ensures r.Ok? && |GetActions(g).value| > 0 ==> forall i :: 0 <= i < |r.value| ==> r.value[i].1 == 1.0 / |GetActions(g).value| as real
  {
    match GetActions(g)
    case Err(e) => Err(e)
    case Ok(acts) =>
      GetActionsDistinct(g);
      MovesDistinct(acts);
      UniformShares(acts, |acts|);
      var r := Uniform(acts);
      if |acts| > 0 then
        UniformTotal(acts);
        Ok(r)
      else Ok(r)
  }

  /** `Random.get_block_strategy`, `get_counteract_strategy` and
      `get_block_counteract_strategy`: a fair coin. */
  function RandomDecision(): (r: Dist)
    ensures Lookup(r, Choice(true)) == Some(0.5) && Lookup(r, Choice(false)) == Some(0.5)
    ensures Total(r) == 1.0
  {
    Decision(0.5, 0.5)
  }

  /** Timid only ever plays pairs that Random could play too. */
  lemma TimidWithinRandom(g: Game)
    requires TimidAction(g).Ok?
    ensures RandomAction(g).Ok?
    ensures forall k :: k in Keys(TimidAction(g).value) ==> k in Keys(RandomAction(g).value)
  {
  }

  /** With a draw of `random()` in (0, 1], Timid's challenge strategy always
      passes; only a draw of exactly 0 picks the zero-weight True entry. */
  lemma TimidNeverChallenges(val: real)
    ensures 0.0 < val ==> SelectFromStrategy(TimidBlock(), val) == Some(Choice(false)) || 1.0 < val
    ensures val <= 0.0 ==> SelectFromStrategy(TimidBlock(), val) == Some(Choice(true))
  {
    var d := TimidBlock();
    assert d == [(Choice(true), 0.0), (Choice(false), 1.0)];
    assert d[1..] == [(Choice(false), 1.0)];
    if 0.0 < val <= 1.0 {
      assert SelectIndex(d[1..], val) == Some(0);
      assert SelectIndex(d, val) == Some(1);
    }
  }
}
