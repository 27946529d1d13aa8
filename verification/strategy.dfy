/** Strategies as the trainer and the agents build them: Python dicts from a
    key (an (action, target) pair, a yes/no decision, or a hand) to a real
    weight. A dict is a list of (key, value) pairs in insertion order whose
    keys are pairwise unequal under Python equality; hands compare with
    `Hand.__eq__`, so a dict keyed by hands holds one entry per card multiset. */
module Strategy {
  import opened Util
  import opened Items
  import opened Hands

  datatype Key =
    | Move(action: Action, target: Option<nat>)
    | Choice(decision: bool)
    | Cards(hand: Hand)

  /** Python `==` on keys: tuples and booleans by value, hands by `Hand.__eq__`. */
  predicate KeyEq(x: Key, y: Key) {
    if x.Cards? && y.Cards? then HandEq(x.hand, y.hand) else x == y
  }

  /** Key equality is an equivalence, so dict lookups are well defined. */
  lemma KeyEqEquivalence()
    ensures forall x :: KeyEq(x, x)
    ensures forall x, y :: KeyEq(x, y) ==> KeyEq(y, x)
    ensures forall x, y, z :: KeyEq(x, y) && KeyEq(y, z) ==> KeyEq(x, z)
  {
    forall x, y, z | KeyEq(x, y) && KeyEq(y, z) ensures KeyEq(x, z) {
      KeyEqTransitive(x, y, z);
    }
  }

  lemma KeyEqSymmetric(x: Key, y: Key)
    requires KeyEq(x, y)
    ensures KeyEq(y, x)
  {
  }

  lemma KeyEqTransitive(x: Key, y: Key, z: Key)
    requires KeyEq(x, y) && KeyEq(y, z)
    ensures KeyEq(x, z)
  {
    if x.Cards? && y.Cards? && z.Cards? {
      HandEqTransitive(x.hand, y.hand, z.hand);
    }
  }

  /** Python's `k in ks` for keys, compared with Python equality. */
  predicate KeyIn(x: Key, s: seq<Key>) {
    exists k {:trigger KeyEq(s[k], x)} :: 0 <= k < |s| && KeyEq(s[k], x)
  }

  /** No two keys are equal. */
  predicate KeysDistinct(s: seq<Key>) {
    forall a, b {:trigger KeyEq(s[a], s[b])} :: 0 <= a < b < |s| ==> !KeyEq(s[a], s[b])
  }

  /** The keys of a dict built from the list s: the first key of each
      equality class, in order. */
  function DedupKeys(s: seq<Key>): (r: seq<Key>)
    ensures |r| <= |s|
    ensures forall x :: x in r ==> x in s
    ensures KeysDistinct(r)
    ensures forall i :: 0 <= i < |s| ==> KeyIn(s[i], r)
    ensures KeysDistinct(s) ==> r == s
    ensures |s| > 0 ==> |r| > 0
  {
    if |s| == 0 then []
    else
      var init := DedupKeys(s[..|s| - 1]);
      var last := s[|s| - 1];
      if KeyIn(last, init) then
        KeyDedupKeep(s, init);
        init
      else
        KeyDedupAppend(s, init);
        init + [last]
  }

  /** The deduplication properties of r as a dedup of s. */
  ghost predicate KeyDeduped(s: seq<Key>, r: seq<Key>) {
    && |r| <= |s|
    && (forall x :: x in r ==> x in s)
    && KeysDistinct(r)
    && (forall i :: 0 <= i < |s| ==> KeyIn(s[i], r))
    && (KeysDistinct(s) ==> r == s)
  }

  /** A last element already represented leaves the dedup as it was. */
  lemma KeyDedupKeep(s: seq<Key>, init: seq<Key>)
    requires |s| > 0 && KeyDeduped(s[..|s| - 1], init)
    requires KeyIn(s[|s| - 1], init)
    ensures KeyDeduped(s, init)
  {
    KeyDedupKeepCovers(s, init);
    KeyDedupKeepClash(s, init);
  }

  lemma KeyDedupKeepCovers(s: seq<Key>, init: seq<Key>)
    requires |s| > 0 && KeyDeduped(s[..|s| - 1], init)
    requires KeyIn(s[|s| - 1], init)
    ensures forall x :: x in init ==> x in s
    ensures forall i :: 0 <= i < |s| ==> KeyIn(s[i], init)
  {
    var p := s[..|s| - 1];
    forall x | x in init ensures x in s {
      assert x in p;
    }
    forall i | 0 <= i < |s| ensures KeyIn(s[i], init) {
      if i < |p| {
        assert s[i] == p[i];
      }
    }
  }

  /** s itself has two equal elements, so the last clause holds vacuously. */
  lemma KeyDedupKeepClash(s: seq<Key>, init: seq<Key>)
    requires |s| > 0 && (KeysDistinct(s[..|s| - 1]) ==> init == s[..|s| - 1])
    requires KeyIn(s[|s| - 1], init)
    ensures !KeysDistinct(s)
  {
    var n := |s| - 1;
    var k :| 0 <= k < |init| && KeyEq(init[k], s[n]);
    if KeysDistinct(s[..n]) {
      assert init[k] == s[k];
      KeyClashNotDistinct(s, k, n);
    } else {
      KeyPrefixNotDistinct(s, n);
    }
  }

  lemma KeyClashNotDistinct(s: seq<Key>, a: nat, b: nat)
    requires a < b < |s| && KeyEq(s[a], s[b])
    ensures !KeysDistinct(s)
  {
  }

  lemma KeyPrefixNotDistinct(s: seq<Key>, n: nat)
    requires n <= |s| && !KeysDistinct(s[..n])
    ensures !KeysDistinct(s)
  {
    var a, b :| 0 <= a < b < n && KeyEq(s[..n][a], s[..n][b]);
    KeyClashNotDistinct(s, a, b);
  }

  /** A last element not yet represented is appended. */
  lemma KeyDedupAppend(s: seq<Key>, init: seq<Key>)
    requires |s| > 0 && KeyDeduped(s[..|s| - 1], init)
    requires !KeyIn(s[|s| - 1], init)
    ensures KeyDeduped(s, init + [s[|s| - 1]])
  {
    var p := s[..|s| - 1];
    var last := s[|s| - 1];
    var r := init + [last];
    assert s == p + [last];
    assert KeyEq(r[|init|], last);
    forall i | 0 <= i < |s| - 1 ensures KeyIn(s[i], r) {
      assert s[i] == p[i];
      var k :| 0 <= k < |init| && KeyEq(init[k], s[i]);
      assert r[k] == init[k];
    }
    if KeysDistinct(s) {
      assert KeysDistinct(p);
    }
  }

  type Dist = seq<(Key, real)>

  function Keys(d: Dist): (r: seq<Key>)
    ensures |r| == |d|
    ensures forall i :: 0 <= i < |d| ==> r[i] == d[i].0
  {
    seq(|d|, i requires 0 <= i < |d| => d[i].0)
  }

  /** A well-formed dict: no key occurs twice. */
  predicate IsDict(d: Dist) {
    KeysDistinct(Keys(d))
  }

  /** The sum of the values, `sum(d.values())`. */
  function Total(d: Dist): real {
    if |d| == 0 then 0.0 else d[0].1 + Total(d[1..])
  }

  /** The position of the entry whose key equals k, if any. */
  function FindKey(d: Dist, k: Key): (r: Option<nat>)
    ensures r.Some? ==> r.value < |d| && KeyEq(d[r.value].0, k)
    ensures r.Some? ==> forall j :: 0 <= j < r.value ==> !KeyEq(d[j].0, k)
    ensures r.None? ==> forall j :: 0 <= j < |d| ==> !KeyEq(d[j].0, k)
  {
    if |d| == 0 then None
    else if KeyEq(d[0].0, k) then Some(0)
    else
      var r := FindKey(d[1..], k);
      if r.Some? then Some(r.value + 1) else None
  }

  /** `d[k]`: the value stored under a key equal to k; None stands for KeyError. */
  function Lookup(d: Dist, k: Key): (r: Option<real>)
    ensures r.Some? <==> KeyIn(k, Keys(d))
    ensures r.Some? ==> exists i :: 0 <= i < |d| && KeyEq(d[i].0, k) && r.value == d[i].1
  {
    var i := FindKey(d, k);
    if i.Some? then
      assert Keys(d)[i.value] == d[i.value].0;
      Some(d[i.value].1)
    else None
  }

  /** In a dict, each entry's own key finds that entry. */
  lemma LookupEntry(d: Dist, i: nat, k: Key)
    requires IsDict(d) && i < |d| && KeyEq(d[i].0, k)
    ensures Lookup(d, k) == Some(d[i].1)
  {
    KeyEqEquivalence();
    assert Keys(d)[i] == d[i].0;
  }

  /** Lookup is determined by the first entry whose key matches. */
  lemma LookupFirst(d: Dist, k: Key, i: nat)
    requires i < |d| && KeyEq(d[i].0, k)
    requires forall j :: 0 <= j < i ==> !KeyEq(d[j].0, k)
    ensures Lookup(d, k) == Some(d[i].1)
  {
    var f := FindKey(d, k);
    assert f.Some?;
    if f.value < i {
    } else if f.value > i {
    }
  }

  /** Equal keys look up the same value. */
  lemma LookupRespects(d: Dist, x: Key, y: Key)
    requires KeyEq(x, y)
    ensures Lookup(d, x) == Lookup(d, y)
  {
    KeyEqEquivalence();
    var fx := FindKey(d, x);
    var fy := FindKey(d, y);
    if fx.Some? {
      LookupFirst(d, y, fx.value);
    }
  }

  /** `d[k] = v`: an entry with an equal key keeps its key and takes the new
      value; otherwise the pair goes at the end. */
  function Store(d: Dist, k: Key, v: real): (r: Dist)
    ensures Lookup(r, k) == Some(v)
    ensures FindKey(d, k).Some? ==> Keys(r) == Keys(d)
    ensures FindKey(d, k).None? ==> r == d + [(k, v)]
    ensures IsDict(d) ==> IsDict(r)
  {
    match FindKey(d, k)
    case Some(i) =>
      var r := d[i := (d[i].0, v)];
      assert Keys(r) == Keys(d);
      LookupFirst(r, k, i);
      r
    case None =>
      var r := d + [(k, v)];
      assert Keys(r) == Keys(d) + [k];
      KeyEqEquivalence();
      LookupFirst(r, k, |d|);
      r
  }

  /** Storing under k leaves the value of every key unequal to k as it was. */
  lemma StoreOther(d: Dist, k: Key, v: real, x: Key)
    requires !KeyEq(k, x)
    ensures Lookup(Store(d, k, v), x) == Lookup(d, x)
  {
    var r := Store(d, k, v);
    var f := FindKey(d, x);
    if FindKey(d, k).Some? {
      var i := FindKey(d, k).value;
      assert r == d[i := (d[i].0, v)];
      if f.Some? {
        assert f.value != i by {
          if f.value == i {
            KeyEqSymmetric(d[i].0, k);
            KeyEqTransitive(k, d[i].0, x);
          }
        }
        assert forall j :: 0 <= j < f.value ==> r[j].0 == d[j].0;
        LookupFirst(r, x, f.value);
      } else {
        assert forall j :: 0 <= j < |r| ==> r[j].0 == d[j].0;
        assert FindKey(r, x).None?;
      }
    } else {
      if f.Some? {
        LookupFirst(r, x, f.value);
      } else {
        assert FindKey(r, x).None?;
      }
    }
  }

  /** After `d[k] = v` the keys are those of d and k, up to equality. */
  lemma StoreKeys(d: Dist, k: Key, v: real, x: Key)
    ensures KeyIn(x, Keys(Store(d, k, v))) <==> KeyIn(x, Keys(d)) || KeyEq(k, x)
  {
    if KeyEq(k, x) {
      LookupRespects(Store(d, k, v), k, x);
    } else {
      StoreOther(d, k, v, x);
    }
  }

  /** Deduplicating keys keeps exactly the keys that were there, up to equality. */
  lemma DedupMembers(keys: seq<Key>)
    ensures forall k :: KeyIn(k, DedupKeys(keys)) <==> KeyIn(k, keys)
  {
    var ks := DedupKeys(keys);
    forall k | KeyIn(k, ks) ensures KeyIn(k, keys) {
      var j :| 0 <= j < |ks| && KeyEq(ks[j], k);
      assert ks[j] in keys;
      var i :| 0 <= i < |keys| && keys[i] == ks[j];
      assert KeyEq(keys[i], k);
    }
    forall k | KeyIn(k, keys) ensures KeyIn(k, ks) {
      var i :| 0 <= i < |keys| && KeyEq(keys[i], k);
      assert KeyIn(keys[i], ks);
      var j :| 0 <= j < |ks| && KeyEq(ks[j], keys[i]);
      KeyEqTransitive(ks[j], keys[i], k);
    }
  }

  /** The keys ks, each paired with v. */
  function WithValue(ks: seq<Key>, v: real): (r: Dist)
    ensures |r| == |ks|
    ensures Keys(r) == ks
    ensures forall i :: 0 <= i < |r| ==> r[i].1 == v
  {
    seq(|ks|, i requires 0 <= i < |ks| => (ks[i], v))
  }

  /** A key listed twice is kept once. */
  lemma DedupTwice(x: Key)
    ensures DedupKeys([x, x]) == [x]
  {
    KeyEqEquivalence();
    assert [x, x][..1] == [x];
    assert [x][..0] == [];
    assert DedupKeys([x]) == [x];
    assert KeyIn(x, [x]);
  }

  /** A uniform strategy over a key listed twice has one entry worth 1/2. */
  lemma UniformTwice(x: Key)
    ensures Uniform([x, x]) == [(x, 0.5)]
    ensures Total(Uniform([x, x])) == 0.5
  {
    UniformOfTwo(x);
    ConstTwice(x, 0.5);
    assert Total([(x, 0.5)]) == 0.5 + Total([]);
  }

  lemma UniformOfTwo(x: Key)
    ensures Uniform([x, x]) == Const([x, x], 0.5)
  {
    assert |[x, x]| as real == 2.0;
  }

  lemma ConstTwice(x: Key, v: real)
    ensures Const([x, x], v) == [(x, v)]
  {
    DedupTwice(x);
    var w := WithValue([x], v);
    assert |w| == 1 && w[0] == (x, v);
  }

  /** `{x: v for x in keys}`: one entry per distinct key, first occurrence first. */
  function Const(keys: seq<Key>, v: real): (r: Dist)
    ensures IsDict(r)
    ensures |r| <= |keys|
    ensures forall i :: 0 <= i < |r| ==> r[i].1 == v
    ensures forall k :: KeyIn(k, Keys(r)) <==> KeyIn(k, keys)
    ensures KeysDistinct(keys) ==> Keys(r) == keys
    ensures |keys| > 0 ==> |r| > 0
  {
    DedupMembers(keys);
    WithValue(DedupKeys(keys), v)
  }

  /** `{x: 1 / len(keys) for x in keys}`; an empty list gives the empty dict
      without evaluating the division. */
  function Uniform(keys: seq<Key>): (r: Dist)
    ensures IsDict(r)
    ensures forall k :: KeyIn(k, Keys(r)) <==> KeyIn(k, keys)
    ensures |keys| > 0 ==> forall i :: 0 <= i < |r| ==> r[i].1 == 1.0 / |keys| as real
    ensures NonNegative(r)
  {
    if |keys| == 0 then []
    else
      PositiveShare(|keys|);
      Const(keys, 1.0 / |keys| as real)
  }

  /** Each entry of a uniform dict over a list of n keys holds 1/n. */
  lemma UniformShares(keys: seq<Key>, n: nat)
    requires |keys| == n
    ensures n > 0 ==> forall i :: 0 <= i < |Uniform(keys)| ==> Uniform(keys)[i].1 == 1.0 / n as real
  {
  }

  /** A dict whose values are all v totals v once per entry. */
  lemma {:induction false} TotalOfConstant(d: Dist, v: real)
    requires forall i :: 0 <= i < |d| ==> d[i].1 == v
    ensures Total(d) == |d| as real * v
  {
    if |d| > 0 {
      assert forall i :: 0 <= i < |d[1..]| ==> d[1..][i].1 == d[i + 1].1;
      TotalOfConstant(d[1..], v);
    }
  }

  /** A uniform strategy over a list without repeated keys sums to 1; with
      repeats it sums to the fraction of distinct keys. */
  lemma UniformTotal(keys: seq<Key>)
    requires |keys| > 0
    ensures Total(Uniform(keys)) == |Uniform(keys)| as real / |keys| as real
    ensures KeysDistinct(keys) ==> Total(Uniform(keys)) == 1.0
  {
    var r := Uniform(keys);
    TotalOfShares(r, |keys|);
    if KeysDistinct(keys) {
      assert |r| == |Keys(r)| == |keys|;
      ScaledInverse(|r| as real, |keys| as real);
    }
  }

  /** Entries that each hold 1/n total their count over n. */
  lemma TotalOfShares(d: Dist, n: nat)
    requires n > 0
    requires forall i :: 0 <= i < |d| ==> d[i].1 == 1.0 / n as real
    ensures Total(d) == |d| as real / n as real
  {
    TotalOfConstant(d, 1.0 / n as real);
    ScaledInverse(|d| as real, n as real);
  }

  lemma ScaledInverse(a: real, n: real)
    requires n > 0.0
    ensures a * (1.0 / n) == a / n
    ensures n / n == 1.0
  {
  }

  /** The values of every entry are at least 0. */
  predicate NonNegative(d: Dist) {
    forall i :: 0 <= i < |d| ==> d[i].1 >= 0.0
  }

  /** A uniform strategy over keys without repeats keeps them in order, and
      is a probability distribution. */
  lemma UniformOver(keys: seq<Key>)
    requires |keys| > 0 && KeysDistinct(keys)
    ensures Keys(Uniform(keys)) == keys
    ensures NonNegative(Uniform(keys))
    ensures Total(Uniform(keys)) == 1.0
  {
    UniformTotal(keys);
    PositiveShare(|keys|);
  }

  /** One share of n is positive. */
  lemma PositiveShare(n: nat)
    requires n > 0
    ensures 1.0 / n as real > 0.0
  {
  }
}
