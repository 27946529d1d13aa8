/** Finite sums over aligned sequences of reals: plain sums, weighted sums
    and sums over the positions a flag selects, with the algebra the regret
    proofs need. */
module Sums {
  /** Σ ws[i]. */
  function Sum(ws: seq<real>): real {
    if |ws| == 0 then 0.0 else ws[0] + Sum(ws[1..])
  }

  /** Σ ws[i] * vs[i]: weights against numbers aligned with them. */
  function Dot(ws: seq<real>, vs: seq<real>): real
    requires |vs| == |ws|
  {
    if |ws| == 0 then 0.0 else ws[0] * vs[0] + Dot(ws[1..], vs[1..])
  }

  /** Σ of the weights whose flag is set. */
  function Masked(ws: seq<real>, hits: seq<bool>): real
    requires |hits| == |ws|
  {
    if |ws| == 0 then 0.0 else (if hits[0] then ws[0] else 0.0) + Masked(ws[1..], hits[1..])
  }

  /** x * y. Statements about weighted sums keep their products behind this
      name, so that relating a call's result to its caller's terms is a
      matter of equal arguments rather than of arithmetic. */
  function Mul(x: real, y: real): real {
    x * y
  }

  lemma Distribute(s: real, a: real, b: real)
    ensures s * (a + b) == s * a + s * b
  {
  }

  /** Weighing zeros gives 0. */
  lemma {:induction false} DotZero(ws: seq<real>, vs: seq<real>)
    requires |vs| == |ws|
    requires forall i :: 0 <= i < |vs| ==> vs[i] == 0.0
    ensures Dot(ws, vs) == 0.0
  {
    if |ws| > 0 {
      assert forall i :: 1 <= i < |vs| ==> vs[1..][i - 1] == vs[i];
      DotZero(ws[1..], vs[1..]);
    }
  }

  /** Weighing a pointwise sum adds the weighted sums. */
  lemma {:induction false} DotAdd(ws: seq<real>, a: seq<real>, b: seq<real>, e: seq<real>)
    requires |a| == |ws| && |b| == |ws| && |e| == |ws|
    requires forall i :: 0 <= i < |ws| ==> a[i] == b[i] + e[i]
    ensures Dot(ws, a) == Dot(ws, b) + Dot(ws, e)
  {
    if |ws| > 0 {
      assert forall i :: 1 <= i < |ws| ==> a[1..][i - 1] == a[i] && b[1..][i - 1] == b[i] && e[1..][i - 1] == e[i];
      DotAdd(ws[1..], a[1..], b[1..], e[1..]);
      AddStep(ws[0], a[0], b[0], e[0], Dot(ws[1..], a[1..]), Dot(ws[1..], b[1..]), Dot(ws[1..], e[1..]));
    }
  }

  lemma AddStep(w: real, x: real, y: real, z: real, p: real, q: real, r: real)
    requires x == y + z && p == q + r
    ensures w * x + p == (w * y + q) + (w * z + r)
  {
    Distribute(w, y, z);
  }

  /** Weighing v at the flagged positions and 0 elsewhere gives v times the
      flagged weight. */
  lemma {:induction false} DotMask(ws: seq<real>, e: seq<real>, hits: seq<bool>, v: real)
    requires |e| == |ws| && |hits| == |ws|
    requires forall i :: 0 <= i < |ws| ==> e[i] == if hits[i] then v else 0.0
    ensures Dot(ws, e) == Mul(Masked(ws, hits), v)
  {
    if |ws| > 0 {
      assert forall i :: 1 <= i < |ws| ==> e[1..][i - 1] == e[i] && hits[1..][i - 1] == hits[i];
      DotMask(ws[1..], e[1..], hits[1..], v);
      MaskStep(ws[0], e[0], hits[0], v, Dot(ws[1..], e[1..]), Masked(ws[1..], hits[1..]));
    }
  }

  lemma MaskStep(w: real, x: real, hit: bool, v: real, p: real, m: real)
    requires x == (if hit then v else 0.0) && p == Mul(m, v)
    ensures w * x + p == Mul((if hit then w else 0.0) + m, v)
  {
    Distribute(v, w, m);
  }

  /** a is b with v added at every position whose flag is set. */
  ghost predicate Bumped(a: seq<real>, b: seq<real>, hits: seq<bool>, v: real) {
    && |a| == |hits| && |b| == |hits|
    && forall i :: 0 <= i < |hits| ==> a[i] == b[i] + (if hits[i] then v else 0.0)
  }

  /** Adding v where the flag is set adds v times the flagged weight. */
  lemma DotBump(ws: seq<real>, a: seq<real>, b: seq<real>, hits: seq<bool>, v: real)
    requires |hits| == |ws| && Bumped(a, b, hits, v)
    ensures Dot(ws, a) == Dot(ws, b) + Mul(Masked(ws, hits), v)
  {
    var e := seq(|ws|, i requires 0 <= i < |ws| => if hits[i] then v else 0.0);
    DotAdd(ws, a, b, e);
    DotMask(ws, e, hits, v);
  }

  /** Weighing numbers less a constant takes the constant times the total
      weight away. */
  lemma {:induction false} DotShift(ws: seq<real>, d: seq<real>, e: seq<real>, c: real)
    requires |d| == |ws| && |e| == |ws|
    requires forall i :: 0 <= i < |ws| ==> d[i] == e[i] - c
    ensures Dot(ws, d) == Dot(ws, e) - Mul(c, Sum(ws))
  {
    if |ws| > 0 {
      assert forall i :: 1 <= i < |ws| ==> d[1..][i - 1] == d[i] && e[1..][i - 1] == e[i];
      DotShift(ws[1..], d[1..], e[1..], c);
      ShiftStep(ws[0], d[0], e[0], Dot(ws[1..], d[1..]), Dot(ws[1..], e[1..]), Sum(ws[1..]), c);
    }
  }

  lemma ShiftStep(w: real, x: real, y: real, p: real, q: real, t: real, c: real)
    requires x == y - c && p == q - Mul(c, t)
    ensures w * x + p == (w * y + q) - Mul(c, w + t)
  {
    assert w * (y - c) == w * y - c * w;
  }

  /** Weighing scaled numbers scales the weighted sum. */
  lemma {:induction false} DotScale(ws: seq<real>, e: seq<real>, vs: seq<real>, scale: real)
    requires |e| == |ws| && |vs| == |ws|
    requires forall i :: 0 <= i < |ws| ==> e[i] == Mul(scale, vs[i])
    ensures Dot(ws, e) == Mul(scale, Dot(ws, vs))
  {
    if |ws| > 0 {
      assert forall i :: 1 <= i < |ws| ==> e[1..][i - 1] == e[i] && vs[1..][i - 1] == vs[i];
      DotScale(ws[1..], e[1..], vs[1..], scale);
      ScaleStep(ws[0], e[0], vs[0], Dot(ws[1..], e[1..]), Dot(ws[1..], vs[1..]), scale);
    }
  }

  lemma ScaleStep(w: real, x: real, v: real, p: real, q: real, scale: real)
    requires x == Mul(scale, v) && p == Mul(scale, q)
    ensures w * x + p == Mul(scale, w * v + q)
  {
  }

  /** Weighing numbers that are an affine function of others. */
  lemma DotAffine(ws: seq<real>, vs: seq<real>, d: seq<real>, scale: real, c: real)
    requires |vs| == |ws| && |d| == |ws|
    requires forall i :: 0 <= i < |ws| ==> d[i] == Mul(scale, vs[i]) - c
    ensures Dot(ws, d) == Mul(scale, Dot(ws, vs)) - Mul(c, Sum(ws))
  {
    var e := Scaled(vs, d, scale, c);
    DotShift(ws, d, e, c);
    DotScale(ws, e, vs, scale);
  }

  /** The scaled numbers of an affine map, before the constant is taken off. */
  lemma Scaled(vs: seq<real>, d: seq<real>, scale: real, c: real) returns (e: seq<real>)
    requires |d| == |vs|
    requires forall i :: 0 <= i < |vs| ==> d[i] == Mul(scale, vs[i]) - c
    ensures |e| == |vs|
    ensures forall i :: 0 <= i < |vs| ==> e[i] == Mul(scale, vs[i])
    ensures forall i :: 0 <= i < |vs| ==> d[i] == e[i] - c
  {
    e := seq(|vs|, i requires 0 <= i < |vs| => Mul(scale, vs[i]));
  }

  /** No flag set, nothing counted. */
  lemma {:induction false} MaskedNone(ws: seq<real>, hits: seq<bool>)
    requires |hits| == |ws|
    requires forall i :: 0 <= i < |ws| ==> !hits[i]
    ensures Masked(ws, hits) == 0.0
  {
    if |ws| > 0 {
      assert forall i :: 1 <= i < |ws| ==> hits[1..][i - 1] == hits[i];
      MaskedNone(ws[1..], hits[1..]);
    }
  }

  /** A single flag set counts just its weight. */
  lemma {:induction false} MaskedSingle(ws: seq<real>, hits: seq<bool>, k: nat)
    requires |hits| == |ws| && k < |ws| && hits[k]
    requires forall i :: 0 <= i < |ws| && i != k ==> !hits[i]
    ensures Masked(ws, hits) == ws[k]
  {
    assert forall i :: 1 <= i < |ws| ==> hits[1..][i - 1] == hits[i];
    if k == 0 {
      MaskedNone(ws[1..], hits[1..]);
    } else {
      MaskedSingle(ws[1..], hits[1..], k - 1);
    }
  }
}
