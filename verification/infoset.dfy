/** The information-set encoding of countercoup/shared/infoset.py: a fixed
    vector of counts, coins and flags seen from the current player, and one
    sequence of 12-wide history rows per player, the current player's first.
    numpy arrays become sequences of integers. */
module Infosets {
  import opened Util
  import opened Items
  import opened Engine
  import opened GameInfo

  /** The card order of every per-card block. */
  const CardOrder: seq<Card> := [Duke, Assassin, Ambassador, Captain, Contessa]

  /** The characters a counteraction row distinguishes. */
  const CounterOrder: seq<Action> := [ForeignAid, Steal, Assassinate]

  function Flag(b: bool): (r: int)
    ensures r == 0 || r == 1
    ensures r == 1 <==> b
  {
    if b then 1 else 0
  }

  /** `cards.count(x)` for each card of the card order. */
  function CardCounts(cs: seq<Card>): (r: seq<int>)
    ensures |r| == 5
    ensures forall i :: 0 <= i < 5 ==> r[i] == multiset(cs)[CardOrder[i]]
  {
    seq(5, i requires 0 <= i < 5 => multiset(cs)[CardOrder[i]])
  }

  /** The blocks laid end to end. */
  function Concat(bs: seq<seq<int>>): seq<int> {
    if |bs| == 0 then [] else Concat(bs[..|bs| - 1]) + bs[|bs| - 1]
  }

  /** Blocks of one width w laid end to end take w entries each. */
  lemma {:induction false} ConcatLength(bs: seq<seq<int>>, w: nat)
    requires forall k :: 0 <= k < |bs| ==> |bs[k]| == w
    ensures |Concat(bs)| == w * |bs|
  {
    if |bs| > 0 {
      ConcatLength(bs[..|bs| - 1], w);
      assert w * (|bs| - 1) + w == w * |bs|;
    }
  }

  /** Entry j of block k lies at offset w * k + j. */
  lemma {:induction false} ConcatIndex(bs: seq<seq<int>>, w: nat, k: nat, j: nat)
    requires forall k :: 0 <= k < |bs| ==> |bs[k]| == w
    requires k < |bs| && j < w
    ensures w * k + j < |Concat(bs)|
    ensures Concat(bs)[w * k + j] == bs[k][j]
  {
    var init := bs[..|bs| - 1];
    ConcatLength(init, w);
    ConcatLength(bs, w);
    if k == |bs| - 1 {
      assert Concat(bs) == Concat(init) + bs[k];
    } else {
      assert init[k] == bs[k];
      ConcatIndex(init, w, k, j);
      MulLess(w, k, j, |init|);
    }
  }

  /** The offset of an entry of block k is below the end of block k + 1. */
  lemma MulLess(w: nat, k: nat, j: nat, n: nat)
    requires k < n && j < w
    ensures w * k + j < w * n
  {
    assert w * k + w <= w * n by {
      assert w * (k + 1) <= w * n;
    }
  }

  /** The discard counts of every opponent, ascending. */
  function OpponentDiscards(g: Game): (r: seq<seq<int>>)
    ensures |r| == |Opponents(g)|
    ensures forall k :: 0 <= k < |r| ==> r[k] == CardCounts(g.players[Opponents(g)[k]].discard)
    ensures |Concat(r)| == 5 * |r|
  {
    var opp := Opponents(g);
    var r := seq(|opp|, k requires 0 <= k < |opp| => CardCounts(g.players[opp[k]].discard));
    ConcatLength(r, 5);
    r
  }

  /** The coin counts of every opponent, ascending. */
  function OpponentCoins(g: Game): (r: seq<int>)
    ensures |r| == |Opponents(g)|
    ensures forall k :: 0 <= k < |r| ==> r[k] == g.players[Opponents(g)[k]].coins
  {
    var opp := Opponents(g);
    seq(|opp|, k requires 0 <= k < |opp| => g.players[opp[k]].coins)
  }

  /** The action and counteraction flags of every opponent, ascending. */
  function OpponentFlags(g: Game): (r: seq<seq<int>>)
    ensures |r| == |Opponents(g)|
    ensures forall k :: 0 <= k < |r| ==>
              r[k] == [Flag(g.actionPlayer == Opponents(g)[k]), Flag(g.counteractPlayer == Some(Opponents(g)[k]))]
    ensures |Concat(r)| == 2 * |r|
  {
    var opp := Opponents(g);
    var r := seq(|opp|, k requires 0 <= k < |opp| =>
                   [Flag(g.actionPlayer == opp[k]), Flag(g.counteractPlayer == Some(opp[k]))]);
    ConcatLength(r, 2);
    r
  }

  /** One entry per action of the catalogue order: 1 for the action under way. */
  function ActionBits(a: Option<Action>, order: seq<Action>): (r: seq<int>)
    ensures |r| == |order|
    ensures forall i :: 0 <= i < |order| ==> r[i] == Flag(a == Some(order[i]))
  {
    seq(|order|, i requires 0 <= i < |order| => Flag(a == Some(order[i])))
  }

  /** The current player's own action and counteraction flags. */
  function OwnFlags(g: Game): (r: seq<int>)
    ensures |r| == 2
  {
    [Flag(g.currentPlayer == g.actionPlayer), Flag(g.counteractPlayer == Some(g.currentPlayer))]
  }

  /** `__return_fixed_vector`: the current hand's card counts, each
      opponent's discard counts, the current and then the opponents' coins,
      the current action one-hot, and the action/counteraction flags of the
      current player and then of each opponent. Reading the current player
      outside the list raises IndexError. The layout lemmas below locate
      each section. */
  function FixedVector(g: Game): (r: Result<seq<int>>)
    ensures r.Err? <==> g.currentPlayer >= |g.players|
    ensures r.Ok? ==> |r.value| == 8 * |g.players| + 7
  {
    if g.currentPlayer >= |g.players| then Err(IndexError)
    else
      var me := g.players[g.currentPlayer];
      Ok(CardCounts(me.cards) + Concat(OpponentDiscards(g)) + [me.coins] + OpponentCoins(g)
         + ActionBits(g.currentAction, AllActions) + OwnFlags(g) + Concat(OpponentFlags(g)))
  }

  /** The first of seven sections laid end to end. */
  lemma SevenFirst(a: seq<int>, b: seq<int>, x: int, c: seq<int>, d: seq<int>, e: seq<int>, f: seq<int>)
    ensures (a + b + [x] + c + d + e + f)[..|a|] == a
  {
    assert (a + b + [x] + c + d + e + f)[..|a|] == a;
  }

  /** The second of seven sections laid end to end. */
  lemma SevenSecond(a: seq<int>, b: seq<int>, x: int, c: seq<int>, d: seq<int>, e: seq<int>, f: seq<int>)
    ensures (a + b + [x] + c + d + e + f)[|a| .. |a| + |b|] == b
  {
    assert (a + b + [x] + c + d + e + f)[|a| .. |a| + |b|] == b;
  }

  /** The third and fourth of seven sections laid end to end. */
  lemma SevenThird(a: seq<int>, b: seq<int>, x: int, c: seq<int>, d: seq<int>, e: seq<int>, f: seq<int>)
    ensures (a + b + [x] + c + d + e + f)[|a| + |b| .. |a| + |b| + 1 + |c|] == [x] + c
  {
    assert (a + b + [x] + c + d + e + f)[|a| + |b| .. |a| + |b| + 1 + |c|] == [x] + c;
  }

  /** The fifth of seven sections laid end to end. */
  lemma SevenFifth(a: seq<int>, b: seq<int>, x: int, c: seq<int>, d: seq<int>, e: seq<int>, f: seq<int>)
    ensures var j := |a| + |b| + 1 + |c|; (a + b + [x] + c + d + e + f)[j .. j + |d|] == d
  {
    var j := |a| + |b| + 1 + |c|;
    assert (a + b + [x] + c + d + e + f)[j .. j + |d|] == d;
  }

  /** The last two of seven sections laid end to end. */
  lemma SevenLast(a: seq<int>, b: seq<int>, x: int, c: seq<int>, d: seq<int>, e: seq<int>, f: seq<int>)
    ensures var l := |a| + |b| + 1 + |c| + |d|;
            (a + b + [x] + c + d + e + f)[l .. l + |e|] == e && (a + b + [x] + c + d + e + f)[l + |e| ..] == f
  {
    var l := |a| + |b| + 1 + |c| + |d|;
    assert (a + b + [x] + c + d + e + f)[l .. l + |e|] == e;
    assert (a + b + [x] + c + d + e + f)[l + |e| ..] == f;
  }

  /** The first five entries count the current hand. */
  lemma HandSection(g: Game)
    requires g.currentPlayer < |g.players|
    ensures FixedVector(g).value[..5] == CardCounts(g.players[g.currentPlayer].cards)
  {
    var me := g.players[g.currentPlayer];
    SevenFirst(CardCounts(me.cards), Concat(OpponentDiscards(g)), me.coins, OpponentCoins(g),
               ActionBits(g.currentAction, AllActions), OwnFlags(g), Concat(OpponentFlags(g)));
  }

  /** The opponents' discard blocks follow the five hand counts. */
  lemma DiscardSection(g: Game)
    requires g.currentPlayer < |g.players|
    ensures FixedVector(g).value[5 .. 5 * |g.players|] == Concat(OpponentDiscards(g))
  {
    var me := g.players[g.currentPlayer];
    SevenSecond(CardCounts(me.cards), Concat(OpponentDiscards(g)), me.coins, OpponentCoins(g),
               ActionBits(g.currentAction, AllActions), OwnFlags(g), Concat(OpponentFlags(g)));
  }

  /** The coin counts of the current player and then of each opponent
      follow the discard blocks, at 5n. */
  lemma CoinSection(g: Game)
    requires g.currentPlayer < |g.players|
    ensures FixedVector(g).value[5 * |g.players| .. 6 * |g.players|] ==
            [g.players[g.currentPlayer].coins] + OpponentCoins(g)
  {
    var me := g.players[g.currentPlayer];
    SevenThird(CardCounts(me.cards), Concat(OpponentDiscards(g)), me.coins, OpponentCoins(g),
               ActionBits(g.currentAction, AllActions), OwnFlags(g), Concat(OpponentFlags(g)));
  }

  /** The action block sits at 6n. */
  lemma ActionSection(g: Game)
    requires g.currentPlayer < |g.players|
    ensures FixedVector(g).value[6 * |g.players| .. 6 * |g.players| + 7] == ActionBits(g.currentAction, AllActions)
  {
    var me := g.players[g.currentPlayer];
    SevenFifth(CardCounts(me.cards), Concat(OpponentDiscards(g)), me.coins, OpponentCoins(g),
               ActionBits(g.currentAction, AllActions), OwnFlags(g), Concat(OpponentFlags(g)));
  }

  /** The current player's flags sit at 6n + 7, and the opponents' flag
      pairs fill the rest. */
  lemma FlagSection(g: Game)
    requires g.currentPlayer < |g.players|
    ensures FixedVector(g).value[6 * |g.players| + 7 .. 6 * |g.players| + 9] == OwnFlags(g)
    ensures FixedVector(g).value[6 * |g.players| + 9 ..] == Concat(OpponentFlags(g))
  {
    var me := g.players[g.currentPlayer];
    SevenLast(CardCounts(me.cards), Concat(OpponentDiscards(g)), me.coins, OpponentCoins(g),
               ActionBits(g.currentAction, AllActions), OwnFlags(g), Concat(OpponentFlags(g)));
  }

  /** Each entry of a section laid out from offset off sits at off + i. */
  lemma SectionEntries(v: seq<int>, off: nat, xs: seq<int>)
    requires off + |xs| <= |v| && v[off .. off + |xs|] == xs
    ensures forall i :: 0 <= i < |xs| ==> v[off + i] == xs[i]
  {
    forall i | 0 <= i < |xs| ensures v[off + i] == xs[i] {
      assert v[off + i] == v[off .. off + |xs|][i];
    }
  }

  /** The fixed vector of n players has 8n + 7 entries, and its action block
      starts at 6n. */
  lemma FixedVectorLayout(g: Game)
    requires g.currentPlayer < |g.players|
    ensures |FixedVector(g).value| == 8 * |g.players| + 7
    ensures forall i :: 0 <= i < 7 ==>
              FixedVector(g).value[6 * |g.players| + i] == Flag(g.currentAction == Some(AllActions[i]))
  {
    ActionSection(g);
    SectionEntries(FixedVector(g).value, 6 * |g.players|, ActionBits(g.currentAction, AllActions));
  }

  /** The first five entries count the current hand, so they add up to its size. */
  lemma HandCountsSum(g: Game)
    requires g.currentPlayer < |g.players|
    ensures var v := FixedVector(g).value;
            v[0] + v[1] + v[2] + v[3] + v[4] == |g.players[g.currentPlayer].cards|
  {
    HandSection(g);
    HandSum(FixedVector(g).value, g.players[g.currentPlayer].cards);
  }

  /** Any vector that starts with the counts of a hand starts with five
      entries adding up to the hand's size. */
  lemma HandSum(v: seq<int>, cs: seq<Card>)
    requires 5 <= |v| && v[..5] == CardCounts(cs)
    ensures v[0] + v[1] + v[2] + v[3] + v[4] == |cs|
  {
    CountsAddUp(cs);
    assert v[0] == v[..5][0] && v[1] == v[..5][1] && v[2] == v[..5][2] && v[3] == v[..5][3] && v[4] == v[..5][4];
  }

  /** Every card is one of the five characters. */
  lemma {:induction false} CountsAddUp(cs: seq<Card>)
    ensures multiset(cs)[Duke] + multiset(cs)[Assassin] + multiset(cs)[Ambassador] +
            multiset(cs)[Captain] + multiset(cs)[Contessa] == |cs|
  {
    if |cs| > 0 {
      var init := cs[..|cs| - 1];
      CountsAddUp(init);
      assert cs == init + [cs[|cs| - 1]];
      var x := cs[|cs| - 1];
      assert multiset(cs) == multiset(init) + multiset{x};
      match x
      case Duke =>
      case Assassin =>
      case Ambassador =>
      case Captain =>
      case Contessa =>
    }
  }

  /** The current-action block has a single 1 when an action is under way
      and is all zeros otherwise. */
  lemma ActionBlockOneHot(g: Game)
    requires g.currentPlayer < |g.players|
    ensures var v := FixedVector(g).value; var b := 6 * |g.players|;
            |v| == 8 * |g.players| + 7 &&
            v[b] + v[b + 1] + v[b + 2] + v[b + 3] + v[b + 4] + v[b + 5] + v[b + 6] ==
            (if g.currentAction.Some? then 1 else 0)
  {
    ActionSection(g);
    ActionBitsOneHot(g.currentAction);
    SevenSum(FixedVector(g).value, 6 * |g.players|, ActionBits(g.currentAction, AllActions));
  }

  /** A seven-entry section laid out from offset b adds up to the sum of
      its entries. */
  lemma SevenSum(v: seq<int>, b: nat, xs: seq<int>)
    requires |xs| == 7 && b + 7 <= |v| && v[b .. b + 7] == xs
    ensures v[b] + v[b + 1] + v[b + 2] + v[b + 3] + v[b + 4] + v[b + 5] + v[b + 6] ==
            xs[0] + xs[1] + xs[2] + xs[3] + xs[4] + xs[5] + xs[6]
  {
    SectionEntries(v, b, xs);
    assert v[b + 0] == xs[0];
  }

  /** Each action appears once in the catalogue order. */
  lemma ActionBitsOneHot(a: Option<Action>)
    ensures var bits := ActionBits(a, AllActions);
            bits[0] + bits[1] + bits[2] + bits[3] + bits[4] + bits[5] + bits[6] == if a.Some? then 1 else 0
  {
    if a.Some? {
      match a.value
      case Income =>
      case ForeignAid =>
      case Coup =>
      case Tax =>
      case Assassinate =>
      case Exchange =>
      case Steal =>
    }
  }

  /** The k-th discard block belongs to the k-th opponent: seat k below the
      current player, seat k + 1 from it on. */
  lemma OpponentBlocksAscend(g: Game, k: nat)
    requires g.currentPlayer < |g.players| && k < |g.players| - 1
    ensures |FixedVector(g).value| == 8 * |g.players| + 7
    ensures var seat := if k < g.currentPlayer then k else k + 1;
            FixedVector(g).value[5 + 5 * k .. 10 + 5 * k] == CardCounts(g.players[seat].discard)
  {
    DiscardSection(g);
    DiscardsAt(g, k, FixedVector(g).value);
  }

  /** Any vector whose discard blocks are laid out from offset 5 holds the
      k-th opponent's block at 5 + 5k. */
  lemma DiscardsAt(g: Game, k: nat, v: seq<int>)
    requires g.currentPlayer < |g.players| && k < |g.players| - 1
    requires 5 * |g.players| <= |v| && v[5 .. 5 * |g.players|] == Concat(OpponentDiscards(g))
    ensures var seat := if k < g.currentPlayer then k else k + 1;
            v[5 + 5 * k .. 10 + 5 * k] == CardCounts(g.players[seat].discard)
  {
    SeatsExceptAt(|g.players|, g.currentPlayer, k);
    BlockAt(v, OpponentDiscards(g), k);
  }

  /** Block k of five-wide blocks laid out from offset 5 sits at 5 + 5k. */
  lemma BlockAt(v: seq<int>, bs: seq<seq<int>>, k: nat)
    requires forall i :: 0 <= i < |bs| ==> |bs[i]| == 5
    requires 5 + |Concat(bs)| <= |v| && v[5..5 + |Concat(bs)|] == Concat(bs)
    requires k < |bs|
    ensures 10 + 5 * k <= |v| && v[5 + 5 * k .. 10 + 5 * k] == bs[k]
  {
    var c := Concat(bs);
    ConcatIndex(bs, 5, k, 4);
    forall j | 0 <= j < 5 ensures v[5 + 5 * k + j] == bs[k][j] {
      ConcatIndex(bs, 5, k, j);
      assert v[5 + 5 * k + j] == v[5..5 + |c|][5 * k + j];
    }
  }

  /** Entry 5n holds the current player's coins and entry 5n + 1 + k those
      of the k-th opponent: seat k below the current player, seat k + 1
      from it on. */
  lemma OpponentCoinsAscend(g: Game, k: nat)
    requires g.currentPlayer < |g.players| && k < |g.players| - 1
    ensures |FixedVector(g).value| == 8 * |g.players| + 7
    ensures FixedVector(g).value[5 * |g.players|] == g.players[g.currentPlayer].coins
    ensures var seat := if k < g.currentPlayer then k else k + 1;
            FixedVector(g).value[5 * |g.players| + 1 + k] == g.players[seat].coins
  {
    CoinSection(g);
    CoinsAt(g, k, FixedVector(g).value);
  }

  /** Any vector whose coin section is laid out at 5n holds the k-th
      opponent's coins at 5n + 1 + k. */
  lemma CoinsAt(g: Game, k: nat, v: seq<int>)
    requires g.currentPlayer < |g.players| && k < |g.players| - 1
    requires 6 * |g.players| <= |v|
    requires v[5 * |g.players| .. 6 * |g.players|] == [g.players[g.currentPlayer].coins] + OpponentCoins(g)
    ensures v[5 * |g.players|] == g.players[g.currentPlayer].coins
    ensures var seat := if k < g.currentPlayer then k else k + 1;
            v[5 * |g.players| + 1 + k] == g.players[seat].coins
  {
    SeatsExceptAt(|g.players|, g.currentPlayer, k);
    HeadThenEntryAt(v, 5 * |g.players|, g.players[g.currentPlayer].coins, OpponentCoins(g), k);
  }

  /** In a section [x] + ys laid out from offset off, x sits at off and
      ys[k] at off + 1 + k. */
  lemma HeadThenEntryAt(v: seq<int>, off: nat, x: int, ys: seq<int>, k: nat)
    requires off + 1 + |ys| <= |v| && v[off .. off + 1 + |ys|] == [x] + ys && k < |ys|
    ensures v[off] == x && v[off + 1 + k] == ys[k]
  {
    assert v[off] == v[off .. off + 1 + |ys|][0];
    assert v[off + 1 + k] == v[off .. off + 1 + |ys|][1 + k];
  }

  /** The current player's flags sit at 6n + 7 and 6n + 8; the k-th flag
      pair after them tells whether the k-th opponent (seat k below the
      current player, seat k + 1 from it on) is the acting player and
      whether it is the counteracting player. */
  lemma OpponentFlagsAscend(g: Game, k: nat)
    requires g.currentPlayer < |g.players| && k < |g.players| - 1
    ensures |FixedVector(g).value| == 8 * |g.players| + 7
    ensures var v := FixedVector(g).value; var n := |g.players|;
            v[6 * n + 7] == Flag(g.currentPlayer == g.actionPlayer) &&
            v[6 * n + 8] == Flag(g.counteractPlayer == Some(g.currentPlayer))
    ensures var v := FixedVector(g).value; var n := |g.players|;
            var seat := if k < g.currentPlayer then k else k + 1;
            v[6 * n + 9 + 2 * k] == Flag(g.actionPlayer == seat) &&
            v[6 * n + 10 + 2 * k] == Flag(g.counteractPlayer == Some(seat))
  {
    FlagSection(g);
    OwnFlagsAt(g, FixedVector(g).value);
    FlagsAt(g, k, FixedVector(g).value);
  }

  /** Any vector that holds the current player's flags at 6n + 7 holds
      them at 6n + 7 and 6n + 8. */
  lemma OwnFlagsAt(g: Game, v: seq<int>)
    requires 6 * |g.players| + 9 <= |v|
    requires v[6 * |g.players| + 7 .. 6 * |g.players| + 9] == OwnFlags(g)
    ensures v[6 * |g.players| + 7] == Flag(g.currentPlayer == g.actionPlayer)
    ensures v[6 * |g.players| + 8] == Flag(g.counteractPlayer == Some(g.currentPlayer))
  {
    var b := 6 * |g.players| + 7;
    assert v[b] == v[b .. b + 2][0];
    assert v[b + 1] == v[b .. b + 2][1];
  }

  /** Any vector that ends with the opponents' flag pairs from 6n + 9 holds
      the k-th opponent's pair at 6n + 9 + 2k. */
  lemma FlagsAt(g: Game, k: nat, v: seq<int>)
    requires g.currentPlayer < |g.players| && k < |g.players| - 1
    requires 6 * |g.players| + 9 <= |v| && v[6 * |g.players| + 9 ..] == Concat(OpponentFlags(g))
    ensures var n := |g.players|; var seat := if k < g.currentPlayer then k else k + 1;
            v[6 * n + 9 + 2 * k] == Flag(g.actionPlayer == seat) &&
            v[6 * n + 10 + 2 * k] == Flag(g.counteractPlayer == Some(seat))
  {
    SeatsExceptAt(|g.players|, g.currentPlayer, k);
    FlagPairAt(v, 6 * |g.players| + 9, OpponentFlags(g), k);
  }

  /** Pair k of two-wide blocks laid out from offset off to the end sits
      at off + 2k. */
  lemma FlagPairAt(v: seq<int>, off: nat, bs: seq<seq<int>>, k: nat)
    requires forall i :: 0 <= i < |bs| ==> |bs[i]| == 2
    requires off <= |v| && v[off..] == Concat(bs) && k < |bs|
    ensures off + 2 * k + 1 < |v|
    ensures v[off + 2 * k] == bs[k][0] && v[off + 2 * k + 1] == bs[k][1]
  {
    ConcatIndex(bs, 2, k, 0);
    ConcatIndex(bs, 2, k, 1);
    assert v[off + 2 * k] == v[off..][2 * k];
    assert v[off + 2 * k + 1] == v[off..][2 * k + 1];
  }

  // ---------------------------------------------------------------- history

  /** The row of the acting player: the action one-hot, three blank
      counteraction slots, whether anyone challenged and whether the
      challenge succeeded. */
  function ActionRow(h: History): (r: seq<int>)
    ensures |r| == 12
  {
    ActionBits(h.action, AllActions) + [0, 0, 0] +
    [Flag(h.blockingPlayer.Some?), Flag(h.blockSuccessful == Some(true))]
  }

  /** The row of the counteracting player: seven blank action slots, the
      countered action over Foreign Aid, Steal and Assassinate, and the
      counter-challenge flags (read from the declared fields). */
  function CounterRow(h: History): (r: seq<int>)
    ensures |r| == 12
  {
    [0, 0, 0, 0, 0, 0, 0] + ActionBits(h.action, CounterOrder) +
    [Flag(h.counteractBlockPlayer.Some?), Flag(h.counteractBlockSuccessful == Some(true))]
  }

  /** The rows of one history entry, each tagged with the player it belongs to. */
  function EntryRows(h: History): (r: seq<(Option<nat>, seq<int>)>)
    ensures |r| == if h.counteractingPlayer.Some? then 2 else 1
    ensures r[0] == (h.actionPlayer, ActionRow(h))
    ensures h.counteractingPlayer.Some? ==> r[1] == (h.counteractingPlayer, CounterRow(h))
  {
    [(h.actionPlayer, ActionRow(h))] +
    (if h.counteractingPlayer.Some? then [(h.counteractingPlayer, CounterRow(h))] else [])
  }

  /** The number of entries with a counteracting player. */
  function Countered(hist: seq<Option<History>>): nat {
    if |hist| == 0 then 0
    else Countered(hist[..|hist| - 1]) +
         (if hist[|hist| - 1].Some? && hist[|hist| - 1].value.counteractingPlayer.Some? then 1 else 0)
  }

  /** The tagged rows of the whole history, in order. Reading a field of a
      None entry raises AttributeError. */
  function FlatHistory(hist: seq<Option<History>>): (r: Result<seq<(Option<nat>, seq<int>)>>)
    ensures r.Err? <==> exists i :: 0 <= i < |hist| && hist[i].None?
    ensures r.Err? ==> r.error == AttributeError
    ensures r.Ok? ==> |r.value| == |hist| + Countered(hist)
    ensures r.Ok? ==> forall i :: 0 <= i < |r.value| ==> |r.value[i].1| == 12
  {
    if |hist| == 0 then Ok([])
    else
      var init := FlatHistory(hist[..|hist| - 1]);
      var last := hist[|hist| - 1];
      assert forall i :: 0 <= i < |hist| - 1 ==> hist[..|hist| - 1][i] == hist[i];
      if init.Err? then Err(AttributeError)
      else if last.None? then Err(AttributeError)
      else Ok(init.value + EntryRows(last.value))
  }

  /** The rows of a prefix of the history are a prefix of its rows. */
  lemma {:induction false} FlatHistoryPrefix(hist: seq<Option<History>>, m: nat)
    requires FlatHistory(hist).Ok? && m <= |hist|
    ensures FlatHistory(hist[..m]).Ok? && FlatHistory(hist[..m]).value <= FlatHistory(hist).value
    decreases |hist|
  {
    if m == |hist| {
      assert hist[..m] == hist;
    } else {
      var init := hist[..|hist| - 1];
      assert init[..m] == hist[..m];
      FlatHistoryPrefix(init, m);
    }
  }

  /** Entry i contributes its rows at offset i plus the number of earlier
      countered entries: first the acting player's row, then, when someone
      counteracted, the counteracting player's row. */
  lemma FlatHistoryEntry(hist: seq<Option<History>>, i: nat)
    requires FlatHistory(hist).Ok? && i < |hist|
    ensures hist[i].Some?
    ensures var flat := FlatHistory(hist).value; var h := hist[i].value; var off := i + Countered(hist[..i]);
            off < |flat| && flat[off] == (h.actionPlayer, ActionRow(h)) &&
            (h.counteractingPlayer.Some? ==> off + 1 < |flat| && flat[off + 1] == (h.counteractingPlayer, CounterRow(h)))
  {
    FlatHistoryPrefix(hist, i + 1);
    var pre := hist[..i + 1];
    assert pre[..i] == hist[..i];
    assert pre[i] == hist[i];
  }

  /** The rows tagged with player p, in order. */
  function RowsOf(flat: seq<(Option<nat>, seq<int>)>, p: nat): (r: seq<seq<int>>)
    ensures |r| <= |flat|
    ensures (forall i :: 0 <= i < |flat| ==> |flat[i].1| == 12) ==> Width12(r)
  {
    if |flat| == 0 then []
    else
      var init := RowsOf(flat[..|flat| - 1], p);
      assert forall i :: 0 <= i < |flat| - 1 ==> flat[..|flat| - 1][i] == flat[i];
      if flat[|flat| - 1].0 == Some(p) then init + [flat[|flat| - 1].1] else init
  }

  /** Every row is 12 wide. */
  predicate Width12(rows: seq<seq<int>>) {
    forall i :: 0 <= i < |rows| ==> |rows[i]| == 12
  }

  /** The rows of each seat of a list, in the list's order. */
  function SeatRows(flat: seq<(Option<nat>, seq<int>)>, seats: seq<nat>): (r: seq<seq<seq<int>>>)
    ensures |r| == |seats|
    ensures forall k :: 0 <= k < |seats| ==> r[k] == RowsOf(flat, seats[k])
  {
    seq(|seats|, k requires 0 <= k < |seats| => RowsOf(flat, seats[k]))
  }

  /** A row is among player p's rows exactly when some tagged row of the
      flat history carries it with p's tag. */
  lemma {:induction false} RowsOfMembers(flat: seq<(Option<nat>, seq<int>)>, p: nat, x: seq<int>)
    ensures x in RowsOf(flat, p) <==> exists j :: 0 <= j < |flat| && flat[j] == (Some(p), x)
  {
    if |flat| > 0 {
      var init := flat[..|flat| - 1];
      RowsOfMembers(init, p, x);
      if x in RowsOf(flat, p) && x !in RowsOf(init, p) {
        assert flat[|flat| - 1] == (Some(p), x);
      }
      if exists j :: 0 <= j < |flat| && flat[j] == (Some(p), x) {
        var j :| 0 <= j < |flat| && flat[j] == (Some(p), x);
        if j < |flat| - 1 {
          assert init[j] == flat[j];
        }
      }
    }
  }

  /** `__return_history_vectors`: the current player's rows, then each
      opponent's, ascending. */
  function HistoryVectors(g: Game): (r: Result<seq<seq<seq<int>>>>)
    ensures r.Err? <==> exists i :: 0 <= i < |g.history| && g.history[i].None?
    ensures r.Ok? ==> |r.value| == 1 + |Opponents(g)|
    ensures r.Ok? ==> r.value[0] == RowsOf(FlatHistory(g.history).value, g.currentPlayer)
    ensures r.Ok? ==> forall k :: 0 <= k < |Opponents(g)| ==>
              r.value[k + 1] == RowsOf(FlatHistory(g.history).value, Opponents(g)[k])
    ensures r.Ok? ==> forall s :: 0 <= s < |r.value| ==> Width12(r.value[s])
  {
    match FlatHistory(g.history)
    case Err(e) => Err(e)
    case Ok(flat) =>
      Ok([RowsOf(flat, g.currentPlayer)] + SeatRows(flat, Opponents(g)))
  }

  /** Each entry's acting row is filed under the acting player and its
      counteraction row under the counteracting player. */
  lemma HistoryRowsFiled(g: Game, i: nat)
    requires HistoryVectors(g).Ok? && i < |g.history|
    ensures FlatHistory(g.history).Ok? && g.history[i].Some?
    ensures var h := g.history[i].value; var flat := FlatHistory(g.history).value;
            (h.actionPlayer.Some? ==> ActionRow(h) in RowsOf(flat, h.actionPlayer.value)) &&
            (h.counteractingPlayer.Some? ==> CounterRow(h) in RowsOf(flat, h.counteractingPlayer.value))
  {
    var flat := FlatHistory(g.history).value;
    FlatHistoryEntry(g.history, i);
    var h := g.history[i].value;
    var off := i + Countered(g.history[..i]);
    if h.actionPlayer.Some? {
      RowsOfMembers(flat, h.actionPlayer.value, ActionRow(h));
      assert flat[off] == (Some(h.actionPlayer.value), ActionRow(h));
    }
    if h.counteractingPlayer.Some? {
      RowsOfMembers(flat, h.counteractingPlayer.value, CounterRow(h));
      assert flat[off + 1] == (Some(h.counteractingPlayer.value), CounterRow(h));
    }
  }

  /** With the current player seated, there is one sequence per player. */
  lemma HistoryVectorsPerPlayer(g: Game)
    requires g.currentPlayer < |g.players|
    requires HistoryVectors(g).Ok?
    ensures |HistoryVectors(g).value| == |g.players|
  {
    OpponentsAreOthers(g);
  }

  datatype Infoset = Infoset(fixed: seq<int>, history: seq<seq<seq<int>>>)

  /** `Infoset(g)`: the fixed vector first, then the history vectors. */
  function MakeInfoset(g: Game): (r: Result<Infoset>)
    ensures r.Ok? <==> g.currentPlayer < |g.players| && forall i :: 0 <= i < |g.history| ==> g.history[i].Some?
    ensures r.Err? ==> r.error == if g.currentPlayer >= |g.players| then IndexError else AttributeError
    ensures r.Ok? ==> |r.value.fixed| == 8 * |g.players| + 7 && |r.value.history| == |g.players|
  {
    Assemble(FixedVector(g), HistoryVectors(g))
  }

  /** The first error of the two parts, or the infoset of both. */
  function Assemble(fixed: Result<seq<int>>, history: Result<seq<seq<seq<int>>>>): (r: Result<Infoset>)
    ensures r.Ok? <==> fixed.Ok? && history.Ok?
    ensures r.Ok? ==> r.value == Infoset(fixed.value, history.value)
    ensures r.Err? ==> r.error == if fixed.Err? then fixed.error else history.error
  {
    match fixed
    case Err(e) => Err(e)
    case Ok(f) =>
      match history
      case Err(e) => Err(e)
      case Ok(h) => Ok(Infoset(f, h))
  }
}
