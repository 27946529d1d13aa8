/** Helpers shared by the whole model: an Option type, the Python runtime
    errors the model can raise, and the list operations (`remove`, `sample`,
    `shuffle`) the source relies on. Random choices are explicit `picks`. */
module Util {

  datatype Option<+T> = None | Some(value: T)

  /** Python runtime errors raised by the source outside its own exception types. */
  datatype PyError =
    | IndexError
    | KeyError
    | ValueError
    | ZeroDivisionError
    | AttributeError
    | TypeError
    | RecursionError

  datatype Result<+T> = Ok(value: T) | Err(error: PyError)

  predicate Distinct<T(==)>(s: seq<T>) {
    forall i, j :: 0 <= i < j < |s| ==> s[i] != s[j]
  }

  function Min(a: int, b: int): int { if a <= b then a else b }

  function Max(a: int, b: int): int { if a >= b then a else b }

  /** The position of the first occurrence of x (what `list.index` returns). */
  function FirstIndex<T(==)>(s: seq<T>, x: T): (i: nat)
    requires x in s
    ensures i < |s| && s[i] == x
    ensures x !in s[..i]
  {
    if s[0] == x then 0
    else
      var j := FirstIndex(s[1..], x);
      assert s[..j + 1] == [s[0]] + s[1..][..j];
      j + 1
  }

  /** `list.remove(x)`: the first occurrence of x leaves the list. */
  function RemoveFirst<T(==)>(s: seq<T>, x: T): (r: seq<T>)
    requires x in s
    ensures |r| == |s| - 1
    ensures multiset(r) + multiset{x} == multiset(s)
  {
    RemoveAt(s, FirstIndex(s, x))
  }

  /** Removing a position keeps every other element, in order. */
  function RemoveAt<T>(s: seq<T>, i: nat): (r: seq<T>)
    requires i < |s|
    ensures |r| == |s| - 1
    ensures multiset(r) + multiset{s[i]} == multiset(s)
  {
    assert s == s[..i] + [s[i]] + s[i+1..];
    s[..i] + s[i+1..]
  }

  /** The next random pick; an exhausted stream reads as 0. */
  function Head(picks: seq<nat>): nat { if |picks| == 0 then 0 else picks[0] }

  function Tail(picks: seq<nat>): seq<nat> { if |picks| == 0 then [] else picks[1..] }

  /** `random.sample(s, k)`: k positions drawn without replacement, the j-th
      chosen by the j-th pick modulo the number of elements still left. */
  function Sample<T(==)>(s: seq<T>, k: nat, picks: seq<nat>): (r: (seq<T>, seq<nat>))
    requires k <= |s|
    ensures |r.0| == k
    ensures multiset(r.0) <= multiset(s)
    ensures k == |s| ==> multiset(r.0) == multiset(s)
    ensures Distinct(s) ==> Distinct(r.0)
    decreases k
  {
    if k == 0 then ([], picks)
    else
      var i := Head(picks) % |s|;
      var left := RemoveAt(s, i);
      var rest := Sample(left, k - 1, Tail(picks));
      if Distinct(s) then
        DistinctRemoveAt(s, i);
        assert s[i] !in multiset(left);
        assert s[i] !in rest.0;
        DistinctCons(s[i], rest.0);
        ([s[i]] + rest.0, rest.1)
      else
        ([s[i]] + rest.0, rest.1)
  }

  /** `random.shuffle(s)`: a permutation of s chosen by the picks. */
  function Shuffle<T(==)>(s: seq<T>, picks: seq<nat>): (r: (seq<T>, seq<nat>))
    ensures |r.0| == |s|
    ensures multiset(r.0) == multiset(s)
  {
    Sample(s, |s|, picks)
  }

  lemma DistinctRemoveAt<T>(s: seq<T>, i: nat)
    requires i < |s| && Distinct(s)
    ensures Distinct(RemoveAt(s, i))
    ensures s[i] !in multiset(RemoveAt(s, i))
  {
    var r := RemoveAt(s, i);
    forall a, b | 0 <= a < b < |r| ensures r[a] != r[b] {
      var a' := if a < i then a else a + 1;
      var b' := if b < i then b else b + 1;
      assert r[a] == s[a'] && r[b] == s[b'];
    }
    forall j | 0 <= j < |r| ensures r[j] != s[i] {
      var j' := if j < i then j else j + 1;
      assert r[j] == s[j'];
    }
  }

  lemma DistinctCons<T>(x: T, s: seq<T>)
    requires Distinct(s) && x !in s
    ensures Distinct([x] + s)
  {
    var r := [x] + s;
    forall a, b | 0 <= a < b < |r| ensures r[a] != r[b] {
      if a == 0 {
        assert r[b] == s[b - 1];
      } else {
        assert r[a] == s[a - 1] && r[b] == s[b - 1];
      }
    }
  }

  lemma DistinctSnoc<T>(s: seq<T>, x: T)
    requires Distinct(s) && x !in s
    ensures Distinct(s + [x])
  {
    var r := s + [x];
    forall a, b | 0 <= a < b < |r| ensures r[a] != r[b] {
      if b == |s| {
        assert r[a] == s[a];
      } else {
        assert r[a] == s[a] && r[b] == s[b];
      }
    }
  }
}
