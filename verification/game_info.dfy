/** The accessors of countercoup/model/game_info.py that the trainer calls on a
    game: the player records behind the current, action and counteract
    indices, the ascending list of opponents of the current player, and the
    game length. */
module GameInfo {
  import opened Util
  import opened Engine

  /** `players[i]`: an index beyond the list raises IndexError and an unset
      index (None) raises TypeError. Python's negative indices never arise,
      as every index the engine stores is a natural number. */
  function PlayerAt(g: Game, i: Option<nat>): (r: Result<Player>)
    ensures r.Ok? <==> i.Some? && i.value < |g.players|
    ensures r.Ok? ==> r.value == g.players[i.value]
    ensures i.None? ==> r == Err(TypeError)
    ensures i.Some? && i.value >= |g.players| ==> r == Err(IndexError)
  {
    if i.None? then Err(TypeError)
    else if i.value < |g.players| then Ok(g.players[i.value])
    else Err(IndexError)
  }

  /** `get_curr_player`. */
  function CurrPlayer(g: Game): (r: Result<Player>)
    ensures r.Ok? <==> g.currentPlayer < |g.players|
    ensures r.Ok? ==> r.value == g.players[g.currentPlayer]
  {
    PlayerAt(g, Some(g.currentPlayer))
  }

  /** `get_action_player`. */
  function ActionPlayerOf(g: Game): (r: Result<Player>)
    ensures r.Ok? <==> g.actionPlayer < |g.players|
    ensures r.Ok? ==> r.value == g.players[g.actionPlayer]
  {
    PlayerAt(g, Some(g.actionPlayer))
  }

  /** `get_counteract_player`: fails while nobody has been polled. */
  function CounteractPlayerOf(g: Game): (r: Result<Player>)
    ensures r.Ok? <==> g.counteractPlayer.Some? && g.counteractPlayer.value < |g.players|
    ensures r.Ok? ==> r.value == g.players[g.counteractPlayer.value]
    ensures g.counteractPlayer.None? ==> r == Err(TypeError)
  {
    PlayerAt(g, g.counteractPlayer)
  }

  /** The seats 0..n-1 other than c, ascending. */
  function SeatsExcept(n: nat, c: nat): (r: seq<nat>)
    ensures forall k :: 0 <= k < |r| ==> r[k] < n && r[k] != c
    ensures forall k, l :: 0 <= k < l < |r| ==> r[k] < r[l]
    ensures |r| == if c < n then n - 1 else n
    decreases n
  {
    if n == 0 then []
    else
      var init := SeatsExcept(n - 1, c);
      if n - 1 == c then init else init + [n - 1]
  }

  /** `get_opponents`: every player index except the current one. */
  function Opponents(g: Game): (r: seq<nat>)
    ensures forall k :: 0 <= k < |r| ==> r[k] < |g.players|
    ensures g.currentPlayer < |g.players| ==> |r| == |g.players| - 1
  {
    SeatsExcept(|g.players|, g.currentPlayer)
  }

  /** The k-th opponent is seat k below the current player and seat k + 1
      from it on: the list skips exactly the current seat. */
  lemma {:induction false} SeatsExceptAt(n: nat, c: nat, k: nat)
    requires c < n && k < n - 1
    ensures k < |SeatsExcept(n, c)|
    ensures SeatsExcept(n, c)[k] == if k < c then k else k + 1
    decreases n
  {
    var init := SeatsExcept(n - 1, c);
    if n - 1 == c {
      SeatsNoneSkipped(n - 1, k);
    } else if k < n - 2 {
      SeatsExceptAt(n - 1, c, k);
    }
  }

  /** Without a seat to skip, the list is 0..n-1 itself. */
  lemma {:induction false} SeatsNoneSkipped(n: nat, k: nat)
    requires k < n
    ensures k < |SeatsExcept(n, n)|
    ensures SeatsExcept(n, n)[k] == k
    decreases n
  {
    SeatsPastEnd(n - 1, n);
    if k < n - 1 {
      SeatsNoneSkipped(n - 1, k);
      SeatsPastEnd(n - 1, n - 1);
      assert SeatsExcept(n - 1, n) == SeatsExcept(n - 1, n - 1) by {
        SeatsBeyondAlike(n - 1, n, n - 1);
      }
    }
  }

  /** A seat at or past n excludes nothing below n. */
  lemma {:induction false} SeatsBeyondAlike(n: nat, c: nat, d: nat)
    requires c >= n && d >= n
    ensures SeatsExcept(n, c) == SeatsExcept(n, d)
    decreases n
  {
    if n > 0 {
      SeatsBeyondAlike(n - 1, c, d);
    }
  }

  /** The list past the end has n entries. */
  lemma SeatsPastEnd(n: nat, c: nat)
    requires c >= n
    ensures |SeatsExcept(n, c)| == n
  {
  }

  /** `get_opponents` holds every other seat, each once, ascending, and no
      opponent is the current player. */
  lemma OpponentsAreOthers(g: Game)
    requires g.currentPlayer < |g.players|
    ensures |Opponents(g)| == |g.players| - 1
    ensures Distinct(Opponents(g))
    ensures forall i: nat :: i in Opponents(g) <==> i < |g.players| && i != g.currentPlayer
  {
    var r := Opponents(g);
    forall i: nat | i < |g.players| && i != g.currentPlayer ensures i in r {
      var k := if i < g.currentPlayer then i else i - 1;
      SeatsExceptAt(|g.players|, g.currentPlayer, k);
    }
  }

  /** `get_game_length`: one per recorded history entry, None entries included. */
  function GameLength(g: Game): (r: nat)
    ensures r == |g.history|
  {
    |g.history|
  }
}
