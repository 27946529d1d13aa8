/** The output side of the networks: the constant output tables of
    countercoup/shared/networks/action_net.py and lose_net.py, the filter loop
    that turns a raw output vector into a dict (`get_output` in both
    network.py files), and its inverse `create_output`, which lays a dict out
    in table order for training. The network itself is an oracle: its output
    vector is a parameter. */
module Networks {
  import opened Util
  import opened Items
  import opened Hands
  import opened Strategy
  import opened Engine
  import opened GameInfo
  import opened Tools
  import opened Infosets

  /** `ActionNet.outputs`: the untargeted actions once, the targeted ones at
      opponent positions 0, 1 and 2. */
  const ActionOutputs: seq<Key> := [
    Move(Income, None), Move(ForeignAid, None), Move(Coup, Some(0)), Move(Coup, Some(1)),
    Move(Coup, Some(2)), Move(Tax, None), Move(Assassinate, Some(0)), Move(Assassinate, Some(1)),
    Move(Assassinate, Some(2)), Move(Exchange, None), Move(Steal, Some(0)), Move(Steal, Some(1)),
    Move(Steal, Some(2))]

  /** `LoseNet.outputs`: the fifteen two-card hands, then the five one-card hands. */
  const LoseOutputs: seq<Key> := [
    Cards(Hand(Duke, Some(Duke))), Cards(Hand(Duke, Some(Assassin))), Cards(Hand(Duke, Some(Ambassador))),
    Cards(Hand(Duke, Some(Captain))), Cards(Hand(Duke, Some(Contessa))), Cards(Hand(Assassin, Some(Assassin))),
    Cards(Hand(Assassin, Some(Ambassador))), Cards(Hand(Assassin, Some(Captain))),
    Cards(Hand(Assassin, Some(Contessa))), Cards(Hand(Ambassador, Some(Ambassador))),
    Cards(Hand(Ambassador, Some(Captain))), Cards(Hand(Ambassador, Some(Contessa))),
    Cards(Hand(Captain, Some(Captain))), Cards(Hand(Captain, Some(Contessa))),
    Cards(Hand(Contessa, Some(Contessa))), Cards(Hand(Duke, None)), Cards(Hand(Assassin, None)),
    Cards(Hand(Ambassador, None)), Cards(Hand(Captain, None)), Cards(Hand(Contessa, None))]

  /** The outputs of the yes/no networks (block, counteract, block-counteract). */
  const DecisionOutputs: seq<Key> := [Choice(true), Choice(false)]

  // ------------------------------------------------------------------ tables

  /** The action table has 13 different entries: each untargeted action with
      target None, each targeted one with targets 0 to 2, nothing else. */
  lemma ActionOutputsTable()
    ensures |ActionOutputs| == 13
    ensures KeysDistinct(ActionOutputs)
    ensures forall a, t: Option<nat> :: Move(a, t) in ActionOutputs <==>
              if Targeted(a) then t.Some? && t.value < 3 else t.None?
  {
    ActionRowsDistinct();
    ActionRowsSound();
    forall a, t: Option<nat> | (if Targeted(a) then t.Some? && t.value < 3 else t.None?)
      ensures Move(a, t) in ActionOutputs
    {
      ActionRowFor(a, t);
    }
  }

  lemma ActionRowsDistinct()
    ensures KeysDistinct(ActionOutputs)
  {
    assert Distinct(ActionOutputs);
  }

  /** Each row targets exactly when its action does, at positions below 3. */
  lemma ActionRowsSound()
    ensures forall i :: 0 <= i < |ActionOutputs| ==> ActionOutputs[i].Move?
    ensures forall i :: 0 <= i < |ActionOutputs| && Targeted(ActionOutputs[i].action) ==>
              ActionOutputs[i].target.Some? && ActionOutputs[i].target.value < 3
    ensures forall i :: 0 <= i < |ActionOutputs| && !Targeted(ActionOutputs[i].action) ==>
              ActionOutputs[i].target.None?
  {
  }

  lemma ActionRowFor(a: Action, t: Option<nat>)
    requires if Targeted(a) then t.Some? && t.value < 3 else t.None?
    ensures Move(a, t) in ActionOutputs
  {
    var base := match a
      case Income => 0
      case ForeignAid => 1
      case Coup => 2
      case Tax => 5
      case Assassinate => 6
      case Exchange => 9
      case Steal => 10;
    var i := if Targeted(a) then base + t.value else base;
    assert ActionOutputs[i] == Move(a, t);
  }

  /** With at most four players, every pair `get_actions` offers is a row of
      the action table: targets are opponent positions, at most 2. */
  lemma ActionOutputsCoverGetActions(g: Game)
    requires g.currentPlayer < |g.players| <= 4
    requires GetActions(g).Ok?
    ensures forall k :: k in GetActions(g).value ==> k in ActionOutputs
  {
    ActionOutputsTable();
    OpponentsAreOthers(g);
    forall k | k in GetActions(g).value ensures k in ActionOutputs {
      assert k == Move(k.action, k.target);
    }
  }

  /** Every hand is equal to exactly one row of the lose table. */
  lemma LoseOutputsTable()
    ensures |LoseOutputs| == 20
    ensures KeysDistinct(LoseOutputs)
    ensures forall h :: KeyIn(Cards(h), LoseOutputs)
  {
    forall h ensures KeyIn(Cards(h), LoseOutputs) {
      assert KeyEq(LoseOutputs[Row(h)], Cards(h));
    }
    LoseRowsNumbered();
    forall i, j | 0 <= i < j < |LoseOutputs| ensures !KeyEq(LoseOutputs[i], LoseOutputs[j]) {
      if KeyEq(LoseOutputs[i], LoseOutputs[j]) {
        RowRespectsHandEq(LoseOutputs[i].hand, LoseOutputs[j].hand);
      }
    }
  }

  /** The position of a card in the table order. */
  function CardRank(c: Card): (r: nat)
    ensures r < 5 && c == [Duke, Assassin, Ambassador, Captain, Contessa][r]
  {
    match c
    case Duke => 0
    case Assassin => 1
    case Ambassador => 2
    case Captain => 3
    case Contessa => 4
  }

  /** The row of the lose table holding the cards of h: two-card hands by
      their lower- and higher-ranked card, one-card hands after them. */
  function Row(h: Hand): (r: nat)
    ensures r < 20 && KeyEq(LoseOutputs[r], Cards(h))
  {
    match h.card2
    case None => 15 + CardRank(h.card1)
    case Some(b) =>
      var a := h.card1;
      var lo := if CardRank(a) <= CardRank(b) then CardRank(a) else CardRank(b);
      var hi := if CardRank(a) <= CardRank(b) then CardRank(b) else CardRank(a);
      [0, 5, 9, 12, 14][lo] + hi - lo
  }

  /** Equal hands share a row. */
  lemma RowRespectsHandEq(x: Hand, y: Hand)
    requires HandEq(x, y)
    ensures Row(x) == Row(y)
  {
  }

  /** Each row of the lose table is numbered by its own position. */
  lemma LoseRowsNumbered()
    ensures forall i :: 0 <= i < |LoseOutputs| ==> Row(LoseOutputs[i].hand) == i
  {
    forall i | 0 <= i < |LoseOutputs| ensures Row(LoseOutputs[i].hand) == i {
      if i < 5 {
        assert LoseOutputs[i].hand == Hand(Duke, Some([Duke, Assassin, Ambassador, Captain, Contessa][i]));
      } else if i < 15 {
        assert Row(LoseOutputs[i].hand) == i;
      } else {
        assert LoseOutputs[i].hand == Hand([Duke, Assassin, Ambassador, Captain, Contessa][i - 15], None);
      }
    }
  }

  /** Every hand `get_all_hands` can return is a row of the lose table. */
  lemma LoseOutputsCoverAllHands(cards: seq<Card>)
    ensures forall h :: HandIn(h, GetAllHands(cards)) ==> KeyIn(Cards(h), LoseOutputs)
  {
    LoseOutputsTable();
  }

  // -------------------------------------------------------------- projection

  /** `filt is None or action in filt`. */
  predicate Kept(k: Key, filt: Option<seq<Key>>) {
    filt.None? || KeyIn(k, filt.value)
  }

  /** The dict built by the filter loop after the first n outputs. */
  function OutputPrefix(outputs: seq<Key>, result: seq<real>, filt: Option<seq<Key>>, n: nat): (r: Dist)
    requires |result| == |outputs| && n <= |outputs|
    ensures IsDict(r)
    ensures forall x :: KeyIn(x, Keys(r)) ==>
              exists j :: 0 <= j < n && Kept(outputs[j], filt) && KeyEq(outputs[j], x)
  {
    if n == 0 then []
    else
      var prev := OutputPrefix(outputs, result, filt, n - 1);
      var k := outputs[n - 1];
      if Kept(k, filt) then
        var r := Store(prev, k, result[n - 1]);
        assert forall x :: KeyIn(x, Keys(r)) ==>
                 exists j :: 0 <= j < n && Kept(outputs[j], filt) && KeyEq(outputs[j], x) by {
          forall x | KeyIn(x, Keys(r))
            ensures exists j :: 0 <= j < n && Kept(outputs[j], filt) && KeyEq(outputs[j], x)
          {
            StoreKeys(prev, k, result[n - 1], x);
            if !KeyIn(x, Keys(prev)) {
              assert Kept(outputs[n - 1], filt) && KeyEq(outputs[n - 1], x);
            }
          }
        }
        r
      else prev
  }

  /** `get_output(infoset, filt)` given the network's output vector: each
      output kept by the filter, under its own key, with the value at its
      position; a later equal output overwrites an earlier one. */
  function GetOutput(outputs: seq<Key>, result: seq<real>, filt: Option<seq<Key>>): (r: Dist)
    requires |result| == |outputs|
    ensures IsDict(r)
    ensures forall x :: KeyIn(x, Keys(r)) <==>
              exists j :: 0 <= j < |outputs| && Kept(outputs[j], filt) && KeyEq(outputs[j], x)
  {
    forall x | exists j :: 0 <= j < |outputs| && Kept(outputs[j], filt) && KeyEq(outputs[j], x)
      ensures KeyIn(x, Keys(OutputPrefix(outputs, result, filt, |outputs|)))
    {
      var j :| 0 <= j < |outputs| && Kept(outputs[j], filt) && KeyEq(outputs[j], x);
      OutputKeyKept(outputs, result, filt, |outputs|, j, x);
    }
    OutputPrefix(outputs, result, filt, |outputs|)
  }

  /** Every kept output is a key of the dict. */
  lemma {:induction false} OutputKeyKept(outputs: seq<Key>, result: seq<real>, filt: Option<seq<Key>>, n: nat, j: nat, x: Key)
    requires |result| == |outputs| && j < n <= |outputs|
    requires Kept(outputs[j], filt) && KeyEq(outputs[j], x)
    ensures KeyIn(x, Keys(OutputPrefix(outputs, result, filt, n)))
    decreases n
  {
    if j < n - 1 {
      OutputKeyKept(outputs, result, filt, n - 1, j, x);
      KeyStays(outputs, result, filt, n, x);
    } else {
      KeyAdded(outputs, result, filt, n, x);
    }
  }

  /** A key of the dict stays a key when the loop goes one output further. */
  lemma KeyStays(outputs: seq<Key>, result: seq<real>, filt: Option<seq<Key>>, n: nat, x: Key)
    requires |result| == |outputs| && 0 < n <= |outputs|
    requires KeyIn(x, Keys(OutputPrefix(outputs, result, filt, n - 1)))
    ensures KeyIn(x, Keys(OutputPrefix(outputs, result, filt, n)))
  {
    PrefixStep(outputs, result, filt, n);
    if Kept(outputs[n - 1], filt) {
      StoreKeys(OutputPrefix(outputs, result, filt, n - 1), outputs[n - 1], result[n - 1], x);
    }
  }

  /** A kept output becomes a key of the dict. */
  lemma KeyAdded(outputs: seq<Key>, result: seq<real>, filt: Option<seq<Key>>, n: nat, x: Key)
    requires |result| == |outputs| && 0 < n <= |outputs|
    requires Kept(outputs[n - 1], filt) && KeyEq(outputs[n - 1], x)
    ensures KeyIn(x, Keys(OutputPrefix(outputs, result, filt, n)))
  {
    PrefixStep(outputs, result, filt, n);
    StoreKeys(OutputPrefix(outputs, result, filt, n - 1), outputs[n - 1], result[n - 1], x);
  }

  /** One step of the filter loop. */
  lemma PrefixStep(outputs: seq<Key>, result: seq<real>, filt: Option<seq<Key>>, n: nat)
    requires |result| == |outputs| && 0 < n <= |outputs|
    ensures var prev := OutputPrefix(outputs, result, filt, n - 1);
            OutputPrefix(outputs, result, filt, n) ==
              if Kept(outputs[n - 1], filt) then Store(prev, outputs[n - 1], result[n - 1]) else prev
  {
  }

  /** In a table without repeats, every kept output finds the value at its own
      position. */
  lemma {:induction false} GetOutputValue(outputs: seq<Key>, result: seq<real>, filt: Option<seq<Key>>, j: nat)
    requires |result| == |outputs| && KeysDistinct(outputs)
    requires j < |outputs| && Kept(outputs[j], filt)
    ensures Lookup(GetOutput(outputs, result, filt), outputs[j]) == Some(result[j])
  {
    PrefixValue(outputs, result, filt, |outputs|, j);
  }

  lemma {:induction false} PrefixValue(outputs: seq<Key>, result: seq<real>, filt: Option<seq<Key>>, n: nat, j: nat)
    requires |result| == |outputs| && KeysDistinct(outputs)
    requires j < n <= |outputs| && Kept(outputs[j], filt)
    ensures Lookup(OutputPrefix(outputs, result, filt, n), outputs[j]) == Some(result[j])
    decreases n
  {
    if j < n - 1 {
      PrefixValue(outputs, result, filt, n - 1, j);
      var prev := OutputPrefix(outputs, result, filt, n - 1);
      if Kept(outputs[n - 1], filt) {
        assert !KeyEq(outputs[j], outputs[n - 1]);
        assert !KeyEq(outputs[n - 1], outputs[j]);
        StoreOther(prev, outputs[n - 1], result[n - 1], outputs[j]);
      }
    }
  }

  /** `create_output(output)`: one entry per table row, in table order, the
      dict's value for that row or 0 when the dict lacks it. */
  function CreateOutput(outputs: seq<Key>, d: Dist): (r: seq<real>)
    ensures |r| == |outputs|
    ensures forall i :: 0 <= i < |outputs| ==> Lookup(d, outputs[i]).Some? ==> r[i] == Lookup(d, outputs[i]).value
    ensures forall i :: 0 <= i < |outputs| ==> Lookup(d, outputs[i]).None? ==> r[i] == 0.0
  {
    seq(|outputs|, i requires 0 <= i < |outputs| =>
      match Lookup(d, outputs[i]) case Some(v) => v case None => 0.0)
  }

  /** Laying out the unfiltered output dict recovers the network's vector. */
  lemma OutputRoundTrip(outputs: seq<Key>, result: seq<real>)
    requires |result| == |outputs| && KeysDistinct(outputs)
    ensures CreateOutput(outputs, GetOutput(outputs, result, None)) == result
  {
    var r := CreateOutput(outputs, GetOutput(outputs, result, None));
    forall i | 0 <= i < |outputs| ensures r[i] == result[i] {
      GetOutputValue(outputs, result, None, i);
    }
  }

  /** Reading back a laid-out dict whose keys are all table rows gives each
      key its value, and every other row 0. */
  lemma TargetRoundTrip(outputs: seq<Key>, d: Dist, x: Key)
    requires KeysDistinct(outputs)
    requires KeyIn(x, outputs)
    ensures Lookup(GetOutput(outputs, CreateOutput(outputs, d), None), x) ==
            Some(if Lookup(d, x).Some? then Lookup(d, x).value else 0.0)
  {
    var j :| 0 <= j < |outputs| && KeyEq(outputs[j], x);
    var v := CreateOutput(outputs, d);
    GetOutputValue(outputs, v, None, j);
    LookupRespects(GetOutput(outputs, v, None), outputs[j], x);
    LookupRespects(d, outputs[j], x);
  }

  /** The training tuple: the infoset's fixed vector and history vectors as
      input, the laid-out dict as target, the iteration as weight. */
  datatype TrainData = TrainData(fixed: seq<int>, history: seq<seq<seq<int>>>, target: seq<real>, weight: int)

  /** `create_train_data(iput, output, iteration)`. */
  function CreateTrainData(outputs: seq<Key>, iput: Infoset, d: Dist, iteration: int): (r: TrainData)
    ensures r.fixed == iput.fixed && r.history == iput.history && r.weight == iteration
    ensures |r.target| == |outputs|
    ensures forall i :: 0 <= i < |outputs| ==>
              r.target[i] == if Lookup(d, outputs[i]).Some? then Lookup(d, outputs[i]).value else 0.0
  {
    TrainData(iput.fixed, iput.history, CreateOutput(outputs, d), iteration)
  }

  /** The trainer's networks take a fixed vector of width 39: the fixed vector
      of a four-player game. */
  lemma FixedInputWidth(g: Game)
    requires |g.players| == 4 && g.currentPlayer < 4
    ensures FixedVector(g).Ok? && |FixedVector(g).value| == 39
  {
    FixedVectorLayout(g);
  }
}
