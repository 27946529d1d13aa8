/** The helpers of countercoup/shared/tools.py: sampling a key from a
    strategy with a running subtraction, and enumerating the legal
    (action, target) pairs of the action player. Also the legacy action
    enumeration of countercoup/trainer/trainer.py. */
module Tools {
  import opened Util
  import opened Items
  import opened Engine
  import opened GameInfo
  import opened Strategy

  // --------------------------------------------------------------- sampling

  /** The sum of the first j values. */
  function Prefix(d: Dist, j: nat): real
    requires j <= |d|
  {
    Total(d[..j])
  }

  /** The sum of the values up to and including position j: what
      `select_from_strategy` has subtracted from val after entry j. */
  function Running(d: Dist, j: nat): real
    requires j < |d|
  {
    Prefix(d, j + 1)
  }

  /** The running sum of a list is its first value plus the running sum of the rest. */
  lemma RunningStep(d: Dist, j: nat)
    requires 0 < j < |d|
    ensures Running(d, j) == d[0].1 + Running(d[1..], j - 1)
  {
    assert d[..j + 1][1..] == d[1..][..j];
  }

  /** The position `select_from_strategy` stops at: val is decreased by each
      value in turn and the first entry that brings it to 0 or below is
      chosen. The running subtraction is the running sum compared with val. */
  function SelectIndex(d: Dist, val: real): (r: Option<nat>)
    ensures r.Some? ==> r.value < |d| && Running(d, r.value) >= val
    ensures r.Some? ==> forall j :: 0 <= j < r.value ==> Running(d, j) < val
    ensures r.None? ==> forall j :: 0 <= j < |d| ==> Running(d, j) < val
  {
    if |d| == 0 then None
    else
      assert d[..1][1..] == [];
      assert Total(d[..1]) == d[0].1 + Total(d[..1][1..]);
      assert Running(d, 0) == d[0].1;
      if val - d[0].1 <= 0.0 then Some(0)
      else
        var r := SelectIndex(d[1..], val - d[0].1);
        assert forall j :: 0 < j < |d| ==> Running(d, j) == d[0].1 + Running(d[1..], j - 1) by {
          forall j | 0 < j < |d| ensures Running(d, j) == d[0].1 + Running(d[1..], j - 1) {
            RunningStep(d, j);
          }
        }
        if r.Some? then Some(r.value + 1) else None
  }

  /** `select_from_strategy(dist)` with `random()` passed in as val: the key
      chosen, or None when the values run out before val does. */
  function SelectFromStrategy(d: Dist, val: real): (r: Option<Key>)
    ensures r.Some? ==> r.value in Keys(d)
    ensures r.Some? ==> exists i :: 0 <= i < |d| && r.value == d[i].0 && Running(d, i) >= val &&
                                     forall j :: 0 <= j < i ==> Running(d, j) < val
    ensures r.None? <==> forall j :: 0 <= j < |d| ==> Running(d, j) < val
  {
    var i := SelectIndex(d, val);
    if i.Some? then Some(d[i.value].0) else None
  }

  /** With nonnegative values the prefix sums only grow. */
  lemma {:induction false} PrefixBelowTotal(d: Dist, j: nat)
    requires NonNegative(d) && j <= |d|
    ensures Prefix(d, j) <= Total(d)
    decreases |d|
  {
    if |d| > 0 {
      assert NonNegative(d[1..]) by {
        forall i | 0 <= i < |d[1..]| ensures d[1..][i].1 >= 0.0 { assert d[1..][i] == d[i + 1]; }
      }
      if j > 0 {
        assert d[..j][1..] == d[1..][..j - 1];
        PrefixBelowTotal(d[1..], j - 1);
        assert Prefix(d, j) == d[0].1 + Prefix(d[1..], j - 1);
      } else {
        PrefixBelowTotal(d[1..], 0);
        assert Prefix(d[1..], 0) == 0.0;
      }
    }
  }

  /** For a strategy with nonnegative values, nothing is chosen exactly when
      the values sum to less than val, or there are no values at all (where
      Python's loop never runs, even for val <= 0). */
  lemma SelectNoneIffShort(d: Dist, val: real)
    requires NonNegative(d)
    ensures SelectIndex(d, val).None? <==> (|d| == 0 || Total(d) < val)
  {
    if |d| > 0 {
      assert d[..|d|] == d;
      if Total(d) < val {
        forall j | 0 <= j < |d| ensures Running(d, j) < val {
          PrefixBelowTotal(d, j + 1);
        }
      }
    }
  }

  /** A strategy summing to 1 always yields a key for a draw of `random()`,
      which lies in [0, 1). */
  lemma SelectFromNormalised(d: Dist, val: real)
    requires NonNegative(d) && Total(d) == 1.0
    requires 0.0 <= val < 1.0
    ensures SelectFromStrategy(d, val).Some?
  {
    SelectNoneIffShort(d, val);
  }

  // ------------------------------------------------------------ enumeration

  /** The positions p < n in the opponent list whose player is still in,
      each as the key (a, p), ascending. */
  function LiveTargets(ps: seq<Player>, opp: seq<nat>, a: Action, n: nat): (r: seq<Key>)
    requires n <= |opp|
    requires forall k :: 0 <= k < |opp| ==> opp[k] < |ps|
    ensures forall k :: 0 <= k < |r| ==> r[k].Move? && r[k].action == a && r[k].target.Some? && r[k].target.value < n
    ensures forall p: nat :: Move(a, Some(p)) in r <==> p < n && ps[opp[p]].inGame
    ensures forall k, l :: 0 <= k < l < |r| ==> r[k].target.value < r[l].target.value
  {
    if n == 0 then []
    else
      var init := LiveTargets(ps, opp, a, n - 1);
      if ps[opp[n - 1]].inGame then init + [Move(a, Some(n - 1))] else init
  }

  /** The keys for the actions in acts that cost at most coins, in order. */
  function ActionsFor(ps: seq<Player>, opp: seq<nat>, acts: seq<Action>, coins: int): (r: seq<Key>)
    requires forall k :: 0 <= k < |opp| ==> opp[k] < |ps|
    ensures forall k :: 0 <= k < |r| ==> r[k].Move? && r[k].action in acts && Cost(r[k].action) <= coins
    ensures forall a, t: Option<nat> :: Move(a, t) in r <==>
              a in acts && Cost(a) <= coins &&
              (if Targeted(a) then t.Some? && t.value < |opp| && ps[opp[t.value]].inGame else t.None?)
  {
    if |acts| == 0 then []
    else
      var rest := ActionsFor(ps, opp, acts[1..], coins);
      var a := acts[0];
      var here := if Cost(a) > coins then []
                  else if Targeted(a) then LiveTargets(ps, opp, a, |opp|)
                  else [Move(a, None)];
      here + rest
  }

  /** `Tools.get_actions(g)`: with 10 coins or more only Coup is offered;
      every affordable action appears, untargeted ones once with target None
      and targeted ones once per opponent still in, the target being that
      opponent's position in `get_opponents()`. An action index outside the
      player list raises IndexError. */
  function GetActions(g: Game): (r: Result<seq<Key>>)
    ensures r.Err? <==> g.actionPlayer >= |g.players|
    ensures r.Ok? ==> forall k :: 0 <= k < |r.value| ==>
              r.value[k].Move? && Cost(r.value[k].action) <= g.players[g.actionPlayer].coins
    ensures r.Ok? && g.players[g.actionPlayer].coins >= 10 ==>
              forall k :: 0 <= k < |r.value| ==> r.value[k].action == Coup
    ensures r.Ok? ==> forall a, t: Option<nat> :: Move(a, t) in r.value <==>
              (g.players[g.actionPlayer].coins < 10 || a == Coup) &&
              Cost(a) <= g.players[g.actionPlayer].coins &&
              (if Targeted(a) then t.Some? && t.value < |Opponents(g)| && g.players[Opponents(g)[t.value]].inGame
               else t.None?)
  {
    if g.actionPlayer >= |g.players| then Err(IndexError)
    else
      var coins := g.players[g.actionPlayer].coins;
      var acts := if coins >= 10 then [Coup] else AllActions;
      Ok(ActionsFor(g.players, Opponents(g), acts, coins))
  }

  /** No (action, target) pair is offered twice. */
  lemma {:induction false} ActionsForDistinct(ps: seq<Player>, opp: seq<nat>, acts: seq<Action>, coins: int)
    requires forall k :: 0 <= k < |opp| ==> opp[k] < |ps|
    requires Distinct(acts)
    ensures Distinct(ActionsFor(ps, opp, acts, coins))
  {
    if |acts| > 0 {
      var rest := ActionsFor(ps, opp, acts[1..], coins);
      assert Distinct(acts[1..]) by {
        forall i, j | 0 <= i < j < |acts[1..]| ensures acts[1..][i] != acts[1..][j] {
          assert acts[1..][i] == acts[i + 1] && acts[1..][j] == acts[j + 1];
        }
      }
      ActionsForDistinct(ps, opp, acts[1..], coins);
      var a := acts[0];
      var here := if Cost(a) > coins then []
                  else if Targeted(a) then LiveTargets(ps, opp, a, |opp|)
                  else [Move(a, None)];
      assert Distinct(here) by {
        if Cost(a) <= coins && Targeted(a) {
          AscendingDistinct(here);
        }
      }
      assert a !in acts[1..];
      DistinctJoin(here, rest, a, acts[1..]);
      assert ActionsFor(ps, opp, acts, coins) == here + rest;
    }
  }

  /** Keys with strictly ascending targets are pairwise different. */
  lemma AscendingDistinct(s: seq<Key>)
    requires forall k :: 0 <= k < |s| ==> s[k].Move? && s[k].target.Some?
    requires forall k, l :: 0 <= k < l < |s| ==> s[k].target.value < s[l].target.value
    ensures Distinct(s)
  {
  }

  /** The keys of one action followed by keys of other actions. */
  lemma DistinctJoin(here: seq<Key>, rest: seq<Key>, a: Action, others: seq<Action>)
    requires Distinct(here) && Distinct(rest) && a !in others
    requires forall k :: 0 <= k < |here| ==> here[k].Move? && here[k].action == a
    requires forall k :: 0 <= k < |rest| ==> rest[k].Move? && rest[k].action in others
    ensures Distinct(here + rest)
  {
    var s := here + rest;
    forall i, j | 0 <= i < j < |s| ensures s[i] != s[j] {
      if j < |here| {
        assert s[i] == here[i] && s[j] == here[j];
      } else if i < |here| {
        assert s[i] == here[i] && s[j] == rest[j - |here|];
      } else {
        assert s[i] == rest[i - |here|] && s[j] == rest[j - |here|];
      }
    }
  }

  /** `get_actions` lists each pair once, so a uniform strategy over it sums to 1. */
  lemma GetActionsDistinct(g: Game)
    requires GetActions(g).Ok?
    ensures Distinct(GetActions(g).value)
  {
    var coins := g.players[g.actionPlayer].coins;
    var acts := if coins >= 10 then [Coup] else AllActions;
    ActionsForDistinct(g.players, Opponents(g), acts, coins);
  }

  /** Below 10 coins, Income is always on offer with target None; at 10 or
      more it never is. */
  lemma IncomeOffered(g: Game)
    requires g.actionPlayer < |g.players|
    requires g.players[g.actionPlayer].coins >= 0
    ensures Move(Income, None) in GetActions(g).value <==> g.players[g.actionPlayer].coins < 10
  {
  }

  /** The legacy `Trainer.get_actions`. It enumerates `get_opponents()` and
      reads `in_game` from each entry; the entries are player indices, so the
      attribute lookup fails as soon as there is an opponent. With no
      opponent the coin filters alone decide. */
  function LegacyGetActions(g: Game): (r: Result<seq<Key>>)
    ensures r.Err? <==> (|Opponents(g)| > 0 || g.actionPlayer >= |g.players|)
    ensures |Opponents(g)| > 0 ==> r == Err(AttributeError)
    ensures r.Ok? ==> forall k :: 0 <= k < |r.value| ==>
              r.value[k].Move? && r.value[k].target.None? && !Targeted(r.value[k].action) &&
              Cost(r.value[k].action) <= g.players[g.actionPlayer].coins &&
              (g.players[g.actionPlayer].coins < 10 || r.value[k].action == Coup)
  {
    if |Opponents(g)| > 0 then Err(AttributeError)
    else if g.actionPlayer >= |g.players| then Err(IndexError)
    else
      var coins := g.players[g.actionPlayer].coins;
      var acts := if coins >= 10 then [Coup] else AllActions;
      Ok(ActionsFor(g.players, [], acts, coins))
  }

  /** The legacy enumeration fails on every game with two or more seats. */
  lemma LegacyGetActionsFails(g: Game)
    requires |g.players| >= 2
    ensures LegacyGetActions(g) == Err(AttributeError)
  {
    assert |Opponents(g)| >= |g.players| - 1;
  }
}
