/** The regret arithmetic of the legacy trainer, countercoup/trainer/trainer.py:
    `Trainer.normalize` and the regret formula of its traversal. */
module Legacy {
  import opened Util
  import opened Strategy
  import opened Sums
  import opened Weighing
  import opened Regrets

  /** The values over total, keys in order. */
  function DividedBy(d: Dist, total: real): (r: Dist)
    requires total != 0.0
    ensures Keys(r) == Keys(d)
    ensures forall i :: 0 <= i < |d| ==> r[i].1 * total == d[i].1
    ensures |r| == |d| && forall i :: 0 <= i < |d| ==> r[i].0 == d[i].0 && r[i].1 == d[i].1 / total
  {
    seq(|d|, i requires 0 <= i < |d| => (d[i].0, d[i].1 / total))
  }

  lemma {:induction false} ScaledTotal(d: Dist, total: real)
    requires total != 0.0
    ensures Total(DividedBy(d, total)) == Total(d) / total
  {
    if |d| > 0 {
      ScaledTotal(d[1..], total);
      assert DividedBy(d, total)[1..] == DividedBy(d[1..], total);
      assert d[0].1 / total + Total(d[1..]) / total == (d[0].1 + Total(d[1..])) / total;
    }
  }

  /** `Trainer.normalize(output)`: uniform when the raw values sum to 0, even
      if some are not 0; otherwise each value over the sum, signs kept. */
  function Normalize(output: Dist): (r: Dist)
    ensures Keys(r) == Keys(output) || (|output| > 0 && !IsDict(output))
    ensures IsDict(output) && |output| > 0 ==> Total(r) == 1.0
    ensures Total(output) == 0.0 && IsDict(output) && |output| > 0 ==>
              forall i :: 0 <= i < |r| ==> r[i].1 == 1.0 / |output| as real
    ensures Total(output) != 0.0 ==>
              |r| == |output| && forall i :: 0 <= i < |r| ==> r[i].0 == output[i].0 && r[i].1 == output[i].1 / Total(output)
  {
    var sum := Total(output);
    if sum == 0.0 then
      if IsDict(output) && |output| > 0 then UniformOver(Keys(output)); Uniform(Keys(output))
      else Uniform(Keys(output))
    else
      ScaledTotal(output, sum);
      assert sum / sum == 1.0;
      DividedBy(output, sum)
  }

  /** Normalising twice changes nothing. */
  lemma NormalizeIdempotent(output: Dist)
    requires IsDict(output)
    ensures Normalize(Normalize(output)) == Normalize(output)
  {
    var r := Normalize(output);
    if |output| > 0 {
      assert Keys(r) == Keys(output);
      assert Total(r) == 1.0;
      var rr := Normalize(r);
      assert rr == DividedBy(r, 1.0);
      assert forall i :: 0 <= i < |r| ==> rr[i] == (Keys(r)[i], r[i].1);
    }
  }

  /** The legacy regrets: each advantage less the strategy-weighted sum of
      all advantages, with no scale factor. */
  function LegacyRegrets(newAdv: Dist, strat: Dist): (r: Result<Dist>)
    ensures r.Err? <==> exists i :: 0 <= i < |newAdv| && Lookup(strat, newAdv[i].0).None?
    ensures r.Err? ==> r.error == KeyError
    ensures r.Ok? ==> Keys(r.value) == Keys(newAdv)
    ensures r.Ok? ==> forall i, j :: 0 <= i < |newAdv| && 0 <= j < |newAdv| ==>
              r.value[i].1 - r.value[j].1 == newAdv[i].1 - newAdv[j].1
    ensures r.Ok? ==> forall i :: 0 <= i < |newAdv| ==> r.value[i].1 == newAdv[i].1 - WeightSum(newAdv, strat)
  {
    WeightedFails(newAdv, strat);
    match Weighted(newAdv, strat)
    case Err(e) => Err(e)
    case Ok(inst) =>
      WeightedIsSum(newAdv, strat);
      Ok(seq(|newAdv|, i requires 0 <= i < |newAdv| => (newAdv[i].0, newAdv[i].1 - inst)))
  }

  /** With the strategy normalised from the same keys, the legacy regrets
      balance too. */
  lemma LegacyRegretsBalance(newAdv: Dist, strat: Dist)
    requires IsDict(newAdv) && Keys(strat) == Keys(newAdv) && Total(strat) == 1.0
    ensures LegacyRegrets(newAdv, strat).Ok?
    ensures Dot(Values(strat), Values(LegacyRegrets(newAdv, strat).value)) == 0.0
  {
    assert IsDict(strat);
    forall i | 0 <= i < |newAdv| ensures Lookup(strat, newAdv[i].0).Some? {
      KeyEqEquivalence();
      LookupEntry(strat, i, newAdv[i].0);
    }
    WeightedFails(newAdv, strat);
    var inst := Weighted(newAdv, strat).value;
    WeightedIsWeight(newAdv, strat);
    var r := LegacyRegrets(newAdv, strat).value;
    var ws, vs := Values(strat), Sampled(strat, newAdv);
    forall i | 0 <= i < |r| ensures Values(r)[i] == Mul(1.0, vs[i]) - inst {
      KeyEqEquivalence();
      LookupEntry(newAdv, i, strat[i].0);
    }
    DotAffine(ws, vs, Values(r), 1.0, inst);
    TotalIsSum(strat);
    RegretCancel(1.0, Dot(ws, vs), inst, Sum(ws));
  }
}
