/** `calculate_regrets` of countercoup/trainer/traverser.py: the scaled
    instantaneous regret of a traverser node and the regret of every
    strategy key that goes to the advantage memory. */
module Regrets {
  import opened Util
  import opened Strategy
  import opened Sums
  import opened Weighing

  /** The regret of every key of strategy: the scaled sampled value less the
      instantaneous regret, or just its negation for an unsampled key. */
  function RegretsFor(strategy: Dist, values: Dist, scale: real, instr: real): (r: Dist)
    ensures Keys(r) == Keys(strategy)
    ensures forall i :: 0 <= i < |r| ==> r[i].1 == Mul(scale, ValueOr0(values, strategy[i].0)) - instr
  {
    seq(|strategy|, i requires 0 <= i < |strategy| =>
      var x := strategy[i].0;
      (x, if KeyIn(x, Keys(values)) then ValueOr0(values, x) * scale - instr else 0.0 - instr))
  }

  /** `len(strategy) / len(values)`: the inverse of the sampled fraction. */
  function ScaleFactor(strategy: Dist, values: Dist): real
    requires |values| > 0
  {
    |strategy| as real / |values| as real
  }

  /** The scaled instantaneous regret; dividing by an empty values dict is
      a ZeroDivisionError, raised after the loop. */
  function InstantRegret(values: Dist, strategy: Dist): (r: Result<real>)
    ensures r.Err? <==> |values| == 0 || Weighted(values, strategy).Err?
    ensures |values| == 0 ==> r == Err(ZeroDivisionError)
  {
    match Weighted(values, strategy)
    case Err(e) => Err(e)
    case Ok(w) =>
      if |values| == 0 then Err(ZeroDivisionError)
      else Ok(Mul(w, ScaleFactor(strategy, values)))
  }

  /** `calculate_regrets(values, strategy, ...)`: the instantaneous regret and
      the regret dict appended to memory. An empty values dict divides by
      zero; a sampled key missing from strategy is a KeyError. */
  function CalculateRegrets(values: Dist, strategy: Dist): (r: Result<(real, Dist)>)
    ensures r.Err? <==> |values| == 0 || Weighted(values, strategy).Err?
    ensures |values| == 0 ==> r == Err(ZeroDivisionError)
    ensures r.Ok? ==> Keys(r.value.1) == Keys(strategy)
    ensures r.Ok? && |values| > 0 ==>
              r.value.0 == Mul(WeightSum(values, strategy), ScaleFactor(strategy, values))
    ensures r.Ok? && |values| > 0 && IsDict(values) ==>
              forall i, j :: 0 <= i < |strategy| && 0 <= j < |values| && KeyEq(values[j].0, strategy[i].0) ==>
                r.value.1[i].1 == Mul(ScaleFactor(strategy, values), values[j].1) - r.value.0
    ensures r.Ok? ==>
              forall i :: 0 <= i < |strategy| && !KeyIn(strategy[i].0, Keys(values)) ==> r.value.1[i].1 == 0.0 - r.value.0
  {
    match InstantRegret(values, strategy)
    case Err(e) => Err(e)
    case Ok(instr) =>
      WeightedIsSum(values, strategy);
      var scale := ScaleFactor(strategy, values);
      var regrets := RegretsFor(strategy, values, scale, instr);
      SampledRegrets(strategy, values, scale, instr);
      Ok((instr, regrets))
  }

  /** A sampled key's regret is its own value scaled, less the instantaneous
      regret; an unsampled key's is the negated instantaneous regret. */
  lemma SampledRegrets(strategy: Dist, values: Dist, scale: real, instr: real)
    ensures var r := RegretsFor(strategy, values, scale, instr);
            IsDict(values) ==>
              forall i, j :: 0 <= i < |strategy| && 0 <= j < |values| && KeyEq(values[j].0, strategy[i].0) ==>
                r[i].1 == Mul(scale, values[j].1) - instr
    ensures var r := RegretsFor(strategy, values, scale, instr);
            forall i :: 0 <= i < |strategy| && !KeyIn(strategy[i].0, Keys(values)) ==> r[i].1 == 0.0 - instr
  {
    var r := RegretsFor(strategy, values, scale, instr);
    if IsDict(values) {
      forall i, j | 0 <= i < |strategy| && 0 <= j < |values| && KeyEq(values[j].0, strategy[i].0)
        ensures r[i].1 == Mul(scale, values[j].1) - instr
      {
        LookupEntry(values, j, strategy[i].0);
      }
    }
  }

  /** Splitting off the first sampled entry splits the weight by the
      strategy's weight on its key times its value. */
  lemma WeightSplit(strategy: Dist, values: Dist)
    requires IsDict(values) && IsDict(strategy) && |values| > 0
    ensures Dot(Values(strategy), Sampled(strategy, values)) ==
            Dot(Values(strategy), Sampled(strategy, values[1..])) + Mul(ValueOr0(strategy, values[0].0), values[0].1)
  {
    SampledSplit(strategy, values);
    DotBump(Values(strategy), Sampled(strategy, values), Sampled(strategy, values[1..]), Hits(strategy, values[0].0), values[0].1);
    MassIsValue(strategy, values[0].0);
  }

  /** The loop over values and the sum over the strategy agree: the loop is
      Σ strategy[x] * values[x] over the keys of values, and in two dicts
      that is Σ over the strategy of each weight times its sampled value. */
  lemma {:induction false} WeightSumIsDot(values: Dist, strategy: Dist)
    requires IsDict(values) && IsDict(strategy)
    ensures WeightSum(values, strategy) == Dot(Values(strategy), Sampled(strategy, values))
  {
    if |values| == 0 {
      NothingSampled(strategy);
    } else {
      DictTail(values);
      WeightSumIsDot(values[1..], strategy);
      WeightSumHead(values, strategy);
      WeightSplit(strategy, values);
    }
  }

  /** So the loop, when it finishes, computes the sum over the strategy. */
  lemma WeightedIsWeight(values: Dist, strategy: Dist)
    requires IsDict(values) && IsDict(strategy) && Weighted(values, strategy).Ok?
    ensures Weighted(values, strategy).value == Dot(Values(strategy), Sampled(strategy, values))
  {
    WeightedIsSum(values, strategy);
    WeightSumIsDot(values, strategy);
  }

  /** The instantaneous regret is the scale factor times the strategy's
      weight on the sampled values. */
  lemma InstantRegretIsScaledWeight(values: Dist, strategy: Dist)
    requires IsDict(values) && IsDict(strategy) && InstantRegret(values, strategy).Ok?
    ensures var w := Dot(Values(strategy), Sampled(strategy, values));
            InstantRegret(values, strategy).value == Mul(w, ScaleFactor(strategy, values))
  {
    WeightedIsWeight(values, strategy);
  }

  /** Against a strategy summing to 1 the recorded regrets balance: their
      strategy-weighted sum is 0. */
  lemma RegretsBalance(values: Dist, strategy: Dist)
    requires IsDict(values) && IsDict(strategy) && CalculateRegrets(values, strategy).Ok?
    requires Total(strategy) == 1.0
    ensures Dot(Values(strategy), Values(CalculateRegrets(values, strategy).value.1)) == 0.0
  {
    InstantRegretIsScaledWeight(values, strategy);
    var ws, vs := Values(strategy), Sampled(strategy, values);
    var instr := InstantRegret(values, strategy).value;
    var scale := ScaleFactor(strategy, values);
    var r := RegretsFor(strategy, values, scale, instr);
    assert CalculateRegrets(values, strategy).value.1 == r;
    DotAffine(ws, vs, Values(r), scale, instr);
    TotalIsSum(strategy);
    RegretCancel(scale, Dot(ws, vs), instr, Sum(ws));
  }

  lemma RegretCancel(scale: real, w: real, instr: real, total: real)
    requires instr == Mul(w, scale) && total == 1.0
    ensures Mul(scale, w) - Mul(instr, total) == 0.0
  {
  }
}
