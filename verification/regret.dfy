/** The regret arithmetic of the CFR traversers over real numbers: regret
    matching (`get_regret_strategy` of countercoup/trainer/traverser.py and of
    the Timid-biased variant with its `zero_data` fallback), the scaled
    instantaneous regrets of `calculate_regrets`, and the legacy
    `Trainer.normalize` and regret formula of countercoup/trainer/trainer.py. */
module Regret {
  import opened Util
  import opened Strategy
  import opened Networks

  /** `x if x > 0 else 0`. */
  function Positive(v: real): (r: real)
    ensures r >= 0.0 && r >= v
    ensures v > 0.0 ==> r == v
    ensures v <= 0.0 ==> r == 0.0
  {
    if v > 0.0 then v else 0.0
  }

  /** `sum(filter(lambda x: x > 0, output.values()))`. */
  function PositiveTotal(d: Dist): (t: real)
    ensures t >= 0.0
    ensures t == 0.0 <==> forall i :: 0 <= i < |d| ==> d[i].1 <= 0.0
  {
    if |d| == 0 then 0.0
    else
      var rest := PositiveTotal(d[1..]);
      assert forall i :: 1 <= i < |d| ==> d[1..][i - 1] == d[i];
      Positive(d[0].1) + rest
  }

  /** The positive part of every value over total, keys in order. */
  function Normalised(d: Dist, total: real): (r: Dist)
    requires total > 0.0
    ensures Keys(r) == Keys(d)
    ensures forall i :: 0 <= i < |d| ==> r[i].1 == Positive(d[i].1) / total
    ensures NonNegative(r)
  {
    seq(|d|, i requires 0 <= i < |d| => (d[i].0, Positive(d[i].1) / total))
  }

  /** Division by a fixed positive number distributes over a sum. */
  lemma DivAdd(a: real, b: real, t: real)
    requires t > 0.0
    ensures a / t + b / t == (a + b) / t
  {
  }

  /** The normalised positive parts add up to the positive total over total. */
  lemma {:induction false} NormalisedTotal(d: Dist, total: real)
    requires total > 0.0
    ensures Total(Normalised(d, total)) == PositiveTotal(d) / total
  {
    if |d| > 0 {
      NormalisedTotal(d[1..], total);
      assert Normalised(d, total)[1..] == Normalised(d[1..], total);
      DivAdd(Positive(d[0].1), PositiveTotal(d[1..]), total);
    }
  }

  /** Regret matching on an output dict: without positive values, zero_data
      when given and otherwise the uniform strategy over the keys; with some,
      each key's positive part over the positive total. */
  function RegretMatch(output: Dist, zeroData: Option<Dist>): (r: Dist)
    ensures (forall i :: 0 <= i < |output| ==> output[i].1 <= 0.0) && zeroData.Some? ==> r == zeroData.value
    ensures (exists i :: 0 <= i < |output| && output[i].1 > 0.0) || zeroData.None? ==>
              NonNegative(r) && (IsDict(output) ==> Keys(r) == Keys(output))
    ensures (exists i :: 0 <= i < |output| && output[i].1 > 0.0) ==>
              |r| == |output| && forall i :: 0 <= i < |output| ==> (r[i].1 > 0.0 <==> output[i].1 > 0.0)
    ensures (forall i :: 0 <= i < |output| ==> output[i].1 <= 0.0) && zeroData.None? && |output| > 0 && IsDict(output) ==>
              forall i :: 0 <= i < |r| ==> r[i].1 == 1.0 / |output| as real
    ensures PositiveTotal(output) == 0.0 && zeroData.None? && |output| > 0 && IsDict(output) ==>
              |r| == |output| && forall i :: 0 <= i < |r| ==> r[i].1 == 1.0 / |output| as real
    ensures PositiveTotal(output) > 0.0 ==>
              |r| == |output| && forall i :: 0 <= i < |output| ==> r[i].1 == Positive(output[i].1) / PositiveTotal(output)
  {
    var total := PositiveTotal(output);
    if total == 0.0 then
      if zeroData.Some? then zeroData.value
      else
        if IsDict(output) && |output| > 0 then UniformOver(Keys(output)); Uniform(Keys(output))
        else Uniform(Keys(output))
    else
      var r := Normalised(output, total);
      assert forall i :: 0 <= i < |output| ==> (r[i].1 > 0.0 <==> output[i].1 > 0.0) by {
        forall i | 0 <= i < |output| ensures r[i].1 > 0.0 <==> output[i].1 > 0.0 {
          PositiveShareOf(Positive(output[i].1), total);
        }
      }
      r
  }

  lemma PositiveShareOf(a: real, t: real)
    requires t > 0.0 && a >= 0.0
    ensures a / t > 0.0 <==> a > 0.0
  {
  }

  /** Regret matching without zero_data on a nonempty dict is a probability
      distribution over its keys. */
  lemma RegretMatchIsDistribution(output: Dist)
    requires IsDict(output) && |output| > 0
    ensures Keys(RegretMatch(output, None)) == Keys(output)
    ensures NonNegative(RegretMatch(output, None))
    ensures Total(RegretMatch(output, None)) == 1.0
  {
    var total := PositiveTotal(output);
    if total == 0.0 {
      UniformOver(Keys(output));
    } else {
      NormalisedTotal(output, total);
      ScaledInverse(0.0, total);
    }
  }

  /** The output the strategy is built from: on iteration 1 every key of filt
      (or of the whole table) at 0, later the network's filtered output. */
  function RegretOutput(iteration: int, outputs: seq<Key>, result: seq<real>, filt: Option<seq<Key>>): (r: Dist)
    requires |result| == |outputs|
    ensures IsDict(r)
    ensures iteration == 1 ==> forall i :: 0 <= i < |r| ==> r[i].1 == 0.0
  {
    if iteration == 1 then Const(if filt.Some? then filt.value else outputs, 0.0)
    else GetOutput(outputs, result, filt)
  }

  /** `get_regret_strategy(network, infoset, filt, zero_data)`, the network's
      output vector for the infoset passed in as result. The base traverser
      passes no zero_data. */
  function GetRegretStrategy(iteration: int, outputs: seq<Key>, result: seq<real>, filt: Option<seq<Key>>,
                             zeroData: Option<Dist>): (r: Dist)
    requires |result| == |outputs|
    ensures zeroData.None? ==> NonNegative(r)
    ensures zeroData.None? && |RegretOutput(iteration, outputs, result, filt)| > 0 ==> Total(r) == 1.0
    ensures zeroData.None? ==> Keys(r) == Keys(RegretOutput(iteration, outputs, result, filt))
    ensures PositiveTotal(RegretOutput(iteration, outputs, result, filt)) == 0.0 && zeroData.Some? ==> r == zeroData.value
    ensures var o := RegretOutput(iteration, outputs, result, filt);
            PositiveTotal(o) > 0.0 ==> |r| == |o| && forall i :: 0 <= i < |o| ==> r[i].1 == Positive(o[i].1) / PositiveTotal(o)
    ensures var o := RegretOutput(iteration, outputs, result, filt);
            zeroData.None? && PositiveTotal(o) == 0.0 && |o| > 0 ==>
              |r| == |o| && forall i :: 0 <= i < |r| ==> r[i].1 == 1.0 / |o| as real
  {
    var output := RegretOutput(iteration, outputs, result, filt);
    MatchedOutput(output, zeroData);
    RegretMatch(output, zeroData)
  }

  /** What regret matching promises about an output dict, gathered in the
      terms `get_regret_strategy` states them in. */
  lemma MatchedOutput(output: Dist, zeroData: Option<Dist>)
    requires IsDict(output)
    ensures var r := RegretMatch(output, zeroData);
            zeroData.None? ==> NonNegative(r) && Keys(r) == Keys(output) && (|output| > 0 ==> Total(r) == 1.0)
    ensures var r := RegretMatch(output, zeroData);
            zeroData.None? && PositiveTotal(output) == 0.0 && |output| > 0 ==>
              |r| == |output| && forall i :: 0 <= i < |r| ==> r[i].1 == 1.0 / |output| as real
  {
    if |output| > 0 {
      RegretMatchIsDistribution(output);
    }
  }

  /** On iteration 1 without zero_data the strategy is uniform over the keys
      of filt (or of the table), each kept once. */
  lemma FirstIterationUniform(outputs: seq<Key>, result: seq<real>, filt: Option<seq<Key>>)
    requires |result| == |outputs|
    requires |if filt.Some? then filt.value else outputs| > 0
    ensures var keys := if filt.Some? then filt.value else outputs;
            var r := GetRegretStrategy(1, outputs, result, filt, None);
            (forall k :: KeyIn(k, Keys(r)) <==> KeyIn(k, keys)) &&
            (forall i :: 0 <= i < |r| ==> r[i].1 == 1.0 / |r| as real) &&
            Total(r) == 1.0
  {
    var keys := if filt.Some? then filt.value else outputs;
    FirstIterationMatchesZeros(outputs, result, filt);
    ZerosMatchUniform(keys);
  }

  /** On iteration 1 without zero_data, regret matching runs on zeros over
      the keys. */
  lemma FirstIterationMatchesZeros(outputs: seq<Key>, result: seq<real>, filt: Option<seq<Key>>)
    requires |result| == |outputs|
    ensures GetRegretStrategy(1, outputs, result, filt, None) ==
            RegretMatch(Const(if filt.Some? then filt.value else outputs, 0.0), None)
  {
  }

  /** Regret matching on zeros over a nonempty key list is uniform over the
      keys, each kept once. */
  lemma ZerosMatchUniform(keys: seq<Key>)
    requires |keys| > 0
    ensures var r := RegretMatch(Const(keys, 0.0), None);
            (forall k :: KeyIn(k, Keys(r)) <==> KeyIn(k, keys)) &&
            (forall i :: 0 <= i < |r| ==> r[i].1 == 1.0 / |r| as real) &&
            Total(r) == 1.0
  {
    var output := Const(keys, 0.0);
    ZeroOutputUniform(output);
    var u := Uniform(Keys(output));
    assert |u| == |Keys(u)| == |output|;
  }

  /** An output dict of zeros turns into the uniform strategy over its keys. */
  lemma ZeroOutputUniform(output: Dist)
    requires IsDict(output) && |output| > 0
    requires forall i :: 0 <= i < |output| ==> output[i].1 == 0.0
    ensures RegretMatch(output, None) == Uniform(Keys(output))
    ensures Keys(Uniform(Keys(output))) == Keys(output)
    ensures forall i :: 0 <= i < |output| ==> Uniform(Keys(output))[i].1 == 1.0 / |output| as real
    ensures Total(Uniform(Keys(output))) == 1.0
  {
    assert PositiveTotal(output) == 0.0;
    UniformOver(Keys(output));
  }

  /** On iteration 1 with zero_data the strategy is zero_data itself: the
      Timid-biased traverser's opponents play the Timid agent. */
  lemma FirstIterationFollowsZeroData(outputs: seq<Key>, result: seq<real>, filt: Option<seq<Key>>, zero: Dist)
    requires |result| == |outputs|
    ensures GetRegretStrategy(1, outputs, result, filt, Some(zero)) == zero
  {
  }
}
