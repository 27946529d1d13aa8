/** Strategy-weighted sums of sampled values. `calculate_regrets` walks the
    sampled values dict and multiplies each value by the strategy's weight
    for its key; the same sum indexed by the strategy instead is what makes
    the recorded regrets balance. */
module Weighing {
  import opened Util
  import opened Strategy
  import opened Sums

  /** `values[x]` for a key of values, 0 for any other. */
  function ValueOr0(d: Dist, x: Key): real {
    match Lookup(d, x) case Some(v) => v case None => 0.0
  }

  /** The loop `instr_regret += strategy[x] * values[x] for x in values`;
      a key of values missing from strategy raises KeyError. */
  function Weighted(values: Dist, strategy: Dist): (r: Result<real>)
    ensures r.Err? ==> r.error == KeyError
  {
    if |values| == 0 then Ok(0.0)
    else
      match Lookup(strategy, values[0].0)
      case None => Err(KeyError)
      case Some(s) =>
        match Weighted(values[1..], strategy)
        case Err(e) => Err(e)
        case Ok(w) => Ok(s * values[0].1 + w)
  }

  /** The loop fails exactly when some sampled key is missing from strategy. */
  lemma {:induction false} WeightedFails(values: Dist, strategy: Dist)
    ensures Weighted(values, strategy).Err? <==> exists i :: 0 <= i < |values| && Lookup(strategy, values[i].0).None?
  {
    if |values| > 0 {
      WeightedFails(values[1..], strategy);
      assert forall i :: 1 <= i < |values| ==> values[1..][i - 1] == values[i];
    }
  }

  /** The same loop when every sampled key is in strategy:
      Σ strategy[x] * values[x] over the entries of values. */
  function WeightSum(values: Dist, strategy: Dist): real {
    if |values| == 0 then 0.0
    else Mul(ValueOr0(strategy, values[0].0), values[0].1) + WeightSum(values[1..], strategy)
  }

  /** One turn of the loop. */
  lemma WeightSumHead(values: Dist, strategy: Dist)
    requires |values| > 0
    ensures WeightSum(values, strategy) == Mul(ValueOr0(strategy, values[0].0), values[0].1) + WeightSum(values[1..], strategy)
  {
  }

  /** A loop that finishes has summed exactly WeightSum. */
  lemma {:induction false} WeightedIsSum(values: Dist, strategy: Dist)
    requires Weighted(values, strategy).Ok?
    ensures Weighted(values, strategy).value == WeightSum(values, strategy)
  {
    if |values| > 0 {
      WeightedIsSum(values[1..], strategy);
    }
  }

  /** The values of a dict, in order. */
  function Values(d: Dist): (r: seq<real>)
    ensures |r| == |d|
    ensures forall i :: 0 <= i < |d| ==> r[i] == d[i].1
  {
    seq(|d|, i requires 0 <= i < |d| => d[i].1)
  }

  // ------------------------------------------------- sums over a strategy

  /** A dict's total is the sum of its values. */
  lemma {:induction false} TotalIsSum(d: Dist)
    ensures Total(d) == Sum(Values(d))
  {
    if |d| > 0 {
      assert Values(d)[1..] == Values(d[1..]);
      TotalIsSum(d[1..]);
    }
  }

  /** The sampled value of each strategy key, 0 for an unsampled one. */
  function Sampled(s: Dist, values: Dist): (r: seq<real>)
    ensures |r| == |s|
    ensures forall i {:trigger r[i]} :: 0 <= i < |s| ==> r[i] == ValueOr0(values, s[i].0)
  {
    seq(|s|, i requires 0 <= i < |s| => ValueOr0(values, s[i].0))
  }

  /** Which strategy keys equal x. */
  function Hits(s: Dist, x: Key): (r: seq<bool>)
    ensures |r| == |s|
    ensures forall i {:trigger r[i]} :: 0 <= i < |s| ==> r[i] == KeyEq(x, s[i].0)
  {
    seq(|s|, i requires 0 <= i < |s| => KeyEq(x, s[i].0))
  }

  /** The tail of a dict is a dict. */
  lemma DictTail(d: Dist)
    requires IsDict(d) && |d| > 0
    ensures IsDict(d[1..])
  {
    forall a, b | 0 <= a < b < |d[1..]| ensures !KeyEq(Keys(d[1..])[a], Keys(d[1..])[b]) {
      assert Keys(d[1..])[a] == Keys(d)[a + 1] && Keys(d[1..])[b] == Keys(d)[b + 1];
    }
  }

  /** The first entry of a dict contributes to exactly the keys equal to its own. */
  lemma ValueSplit(values: Dist, y: Key)
    requires IsDict(values) && |values| > 0
    ensures ValueOr0(values, y) == ValueOr0(values[1..], y) + (if KeyEq(values[0].0, y) then values[0].1 else 0.0)
  {
    KeyEqEquivalence();
    if KeyEq(values[0].0, y) {
      LookupFirst(values, y, 0);
      forall j | 0 <= j < |values[1..]| ensures !KeyEq(values[1..][j].0, y) {
        assert Keys(values)[j + 1] == values[1..][j].0;
      }
      assert FindKey(values[1..], y).None?;
    } else {
      var f := FindKey(values[1..], y);
      if f.Some? {
        LookupFirst(values, y, f.value + 1);
      } else {
        assert FindKey(values, y).None?;
      }
    }
  }

  /** Pointwise, the sampled values split the same way. */
  lemma SampledSplit(strategy: Dist, values: Dist)
    requires IsDict(values) && |values| > 0
    ensures Bumped(Sampled(strategy, values), Sampled(strategy, values[1..]), Hits(strategy, values[0].0), values[0].1)
  {
    forall i | 0 <= i < |strategy|
      ensures Sampled(strategy, values)[i] ==
              Sampled(strategy, values[1..])[i] + (if Hits(strategy, values[0].0)[i] then values[0].1 else 0.0)
    {
      ValueSplit(values, strategy[i].0);
    }
  }

  /** In a dict the mass on a key is the value stored under it, 0 for a
      missing key. */
  lemma MassIsValue(strategy: Dist, x: Key)
    requires IsDict(strategy)
    ensures Masked(Values(strategy), Hits(strategy, x)) == ValueOr0(strategy, x)
  {
    KeyEqEquivalence();
    var hits := Hits(strategy, x);
    match FindKey(strategy, x)
    case None =>
      MaskedNone(Values(strategy), hits);
    case Some(k) =>
      assert forall i :: 0 <= i < |strategy| && i != k ==> !hits[i] by {
        assert forall i :: 0 <= i < |strategy| ==> Keys(strategy)[i] == strategy[i].0;
      }
      MaskedSingle(Values(strategy), hits, k);
  }

  /** Nothing sampled, nothing weighed. */
  lemma NothingSampled(strategy: Dist)
    ensures Dot(Values(strategy), Sampled(strategy, [])) == 0.0
  {
    var z := Sampled(strategy, []);
    forall i | 0 <= i < |strategy| ensures z[i] == 0.0 {
      assert FindKey([], strategy[i].0).None?;
    }
    DotZero(Values(strategy), z);
  }
}
