/** Hands of one or two cards as countercoup/model/hand.py keys them: the
    order of the two cards does not matter to equality or to the hash, and
    `get_all_hands` is the set of two-card hands a list of cards can make. */
module Hands {
  import opened Util
  import opened Items

  /** `Hand`: the first card and, for a two-card hand, the second. */
  datatype Hand = Hand(card1: Card, card2: Option<Card>)

  /** `Hand(cards)`: an empty list raises at `cards[0]`; cards after the
      second are ignored. */
  function MakeHand(cards: seq<Card>): (r: Result<Hand>)
    ensures r.Err? <==> |cards| == 0
    ensures r.Ok? ==> r.value.card1 == cards[0] && (r.value.card2.None? <==> |cards| == 1)
    ensures r.Ok? && |cards| == 2 ==> Contents(r.value) == multiset{Some(cards[0]), Some(cards[1])}
  {
    if |cards| == 0 then Err(IndexError)
    else if |cards| == 1 then Ok(Hand(cards[0], None))
    else Ok(Hand(cards[0], Some(cards[1])))
  }

  /** The cards of a hand, with an empty second slot as None. */
  function Contents(h: Hand): multiset<Option<Card>> {
    multiset{Some(h.card1), h.card2}
  }

  /** `Hand.__eq__`: same cards in the same slots, or swapped. */
  predicate HandEq(x: Hand, y: Hand) {
    || (x.card1 == y.card1 && x.card2 == y.card2)
    || (x.card2 == Some(y.card1) && Some(x.card1) == y.card2)
  }

  /** `Hand.__hash__`: the product of the hashes of the two slots. Python's
      hashes of the card classes and of None are identity-based, so they are
      a parameter. */
  function HandHash(hash: Option<Card> -> int, h: Hand): int {
    hash(Some(h.card1)) * hash(h.card2)
  }

  /** Two hands are equal exactly when they hold the same cards, whatever
      the slots. */
  lemma HandEqIsSameCards(x: Hand, y: Hand)
    ensures HandEq(x, y) <==> Contents(x) == Contents(y)
  {
    if Contents(x) == Contents(y) {
      var a, b, c, d := Some(x.card1), x.card2, Some(y.card1), y.card2;
      assert multiset{a, b}[a] == multiset{c, d}[a];
      if a == c {
        assert multiset{a, b} - multiset{a} == multiset{b};
        assert multiset{c, d} - multiset{c} == multiset{d};
      } else {
        assert a == d;
        assert multiset{a, b} - multiset{a} == multiset{b};
        assert multiset{c, d} - multiset{d} == multiset{c};
      }
    }
  }

  /** `Hand([a, b]) == Hand([b, a])`. */
  lemma SwappedHandsEqual(a: Card, b: Card)
    ensures HandEq(Hand(a, Some(b)), Hand(b, Some(a)))
  {
  }

  /** A one-card hand equals exactly the one-card hand of the same card. */
  lemma SingleHandEq(a: Card, h: Hand)
    ensures HandEq(Hand(a, None), h) <==> h == Hand(a, None)
  {
  }

  /** Hand equality is an equivalence, so Python sets and dicts of hands
      behave as sets of card multisets. */
  lemma HandEqEquivalence()
    ensures forall x :: HandEq(x, x)
    ensures forall x, y :: HandEq(x, y) ==> HandEq(y, x)
    ensures forall x, y, z :: HandEq(x, y) && HandEq(y, z) ==> HandEq(x, z)
  {
    forall x, y, z | HandEq(x, y) && HandEq(y, z) ensures HandEq(x, z) {
      HandEqTransitive(x, y, z);
    }
  }

  lemma HandEqTransitive(x: Hand, y: Hand, z: Hand)
    requires HandEq(x, y) && HandEq(y, z)
    ensures HandEq(x, z)
  {
    HandEqIsSameCards(x, y);
    HandEqIsSameCards(y, z);
    HandEqIsSameCards(x, z);
  }

  /** Python's `h in hs` for hands, compared with `Hand.__eq__`. */
  predicate HandIn(x: Hand, s: seq<Hand>) {
    exists k {:trigger HandEq(s[k], x)} :: 0 <= k < |s| && HandEq(s[k], x)
  }

  /** No two hands are equal. */
  predicate HandsDistinct(s: seq<Hand>) {
    forall a, b {:trigger HandEq(s[a], s[b])} :: 0 <= a < b < |s| ==> !HandEq(s[a], s[b])
  }

  /** A set of hands built from the list s: the first hand of each
      equality class, in order. */
  function DedupHands(s: seq<Hand>): (r: seq<Hand>)
    ensures |r| <= |s|
    ensures forall x :: x in r ==> x in s
    ensures HandsDistinct(r)
    ensures forall i :: 0 <= i < |s| ==> HandIn(s[i], r)
    ensures HandsDistinct(s) ==> r == s
  {
    if |s| == 0 then []
    else
      var init := DedupHands(s[..|s| - 1]);
      var last := s[|s| - 1];
      if HandIn(last, init) then
        HandDedupKeep(s, init);
        init
      else
        HandDedupAppend(s, init);
        init + [last]
  }

  /** The deduplication properties of r as a dedup of s. */
  ghost predicate HandDeduped(s: seq<Hand>, r: seq<Hand>) {
    && |r| <= |s|
    && (forall x :: x in r ==> x in s)
    && HandsDistinct(r)
    && (forall i :: 0 <= i < |s| ==> HandIn(s[i], r))
    && (HandsDistinct(s) ==> r == s)
  }

  /** A last element already represented leaves the dedup as it was. */
  lemma HandDedupKeep(s: seq<Hand>, init: seq<Hand>)
    requires |s| > 0 && HandDeduped(s[..|s| - 1], init)
    requires HandIn(s[|s| - 1], init)
    ensures HandDeduped(s, init)
  {
    HandDedupKeepCovers(s, init);
    HandDedupKeepClash(s, init);
  }

  lemma HandDedupKeepCovers(s: seq<Hand>, init: seq<Hand>)
    requires |s| > 0 && HandDeduped(s[..|s| - 1], init)
    requires HandIn(s[|s| - 1], init)
    ensures forall x :: x in init ==> x in s
    ensures forall i :: 0 <= i < |s| ==> HandIn(s[i], init)
  {
    var p := s[..|s| - 1];
    forall x | x in init ensures x in s {
      assert x in p;
    }
    forall i | 0 <= i < |s| ensures HandIn(s[i], init) {
      if i < |p| {
        assert s[i] == p[i];
      }
    }
  }

  /** s itself has two equal elements, so the last clause holds vacuously. */
  lemma HandDedupKeepClash(s: seq<Hand>, init: seq<Hand>)
    requires |s| > 0 && (HandsDistinct(s[..|s| - 1]) ==> init == s[..|s| - 1])
    requires HandIn(s[|s| - 1], init)
    ensures !HandsDistinct(s)
  {
    var n := |s| - 1;
    var k :| 0 <= k < |init| && HandEq(init[k], s[n]);
    if HandsDistinct(s[..n]) {
      assert init[k] == s[k];
      HandClashNotDistinct(s, k, n);
    } else {
      HandPrefixNotDistinct(s, n);
    }
  }

  lemma HandClashNotDistinct(s: seq<Hand>, a: nat, b: nat)
    requires a < b < |s| && HandEq(s[a], s[b])
    ensures !HandsDistinct(s)
  {
  }

  lemma HandPrefixNotDistinct(s: seq<Hand>, n: nat)
    requires n <= |s| && !HandsDistinct(s[..n])
    ensures !HandsDistinct(s)
  {
    var a, b :| 0 <= a < b < n && HandEq(s[..n][a], s[..n][b]);
    HandClashNotDistinct(s, a, b);
  }

  /** A listed hand is kept, up to equality. */
  lemma KeptInDedup(s: seq<Hand>, x: Hand)
    requires x in s
    ensures HandIn(x, DedupHands(s))
  {
    var i :| 0 <= i < |s| && s[i] == x;
    assert HandIn(s[i], DedupHands(s));
  }

  /** A last element not yet represented is appended. */
  lemma HandDedupAppend(s: seq<Hand>, init: seq<Hand>)
    requires |s| > 0 && HandDeduped(s[..|s| - 1], init)
    requires !HandIn(s[|s| - 1], init)
    ensures HandDeduped(s, init + [s[|s| - 1]])
  {
    var p := s[..|s| - 1];
    var last := s[|s| - 1];
    var r := init + [last];
    assert s == p + [last];
    assert HandEq(r[|init|], last);
    forall i | 0 <= i < |s| - 1 ensures HandIn(s[i], r) {
      assert s[i] == p[i];
      var k :| 0 <= k < |init| && HandEq(init[k], s[i]);
      assert r[k] == init[k];
    }
    if HandsDistinct(s) {
      assert HandsDistinct(p);
    }
  }

  /** Equal hands hash alike, whatever the hashes of the cards. */
  lemma EqualHandsHashAlike(hash: Option<Card> -> int, x: Hand, y: Hand)
    requires HandEq(x, y)
    ensures HandHash(hash, x) == HandHash(hash, y)
  {
    if x.card1 != y.card1 || x.card2 != y.card2 {
      assert HandHash(hash, y) == hash(x.card2) * hash(Some(x.card1));
    }
  }

  /** The two-card hand of positions i < j. */
  function PairAt(cards: seq<Card>, i: nat, j: nat): Hand
    requires i < j < |cards|
  {
    Hand(cards[i], Some(cards[j]))
  }

  /** `combinations(cards, 2)` as hands, in the order itertools yields them:
      the first card with each later one, then the rest. */
  function Pairs(cards: seq<Card>): (r: seq<Hand>)
    decreases |cards|
  {
    if |cards| == 0 then []
    else
      var first := seq(|cards| - 1, k requires 0 <= k < |cards| - 1 => Hand(cards[0], Some(cards[k + 1])));
      first + Pairs(cards[1..])
  }

  /** n cards make n * (n - 1) / 2 pairs. */
  lemma {:induction false} PairsCount(cards: seq<Card>)
    ensures 2 * |Pairs(cards)| == |cards| * (|cards| - 1)
    decreases |cards|
  {
    if |cards| > 0 {
      PairsCount(cards[1..]);
      var n := |cards|;
      assert 2 * |Pairs(cards)| == 2 * (n - 1) + (n - 1) * (n - 2);
      assert 2 * (n - 1) + (n - 1) * (n - 2) == n * (n - 1);
    }
  }

  /** The pairs are exactly the hands of two distinct positions, in order. */
  lemma {:induction false} PairsAreCombinations(cards: seq<Card>)
    ensures forall h :: h in Pairs(cards) <==> exists i, j :: 0 <= i < j < |cards| && h == PairAt(cards, i, j)
    decreases |cards|
  {
    if |cards| > 0 {
      var tail := cards[1..];
      PairsAreCombinations(tail);
      var first := seq(|cards| - 1, k requires 0 <= k < |cards| - 1 => Hand(cards[0], Some(cards[k + 1])));
      assert Pairs(cards) == first + Pairs(tail);
      forall h | h in Pairs(cards)
        ensures exists i, j :: 0 <= i < j < |cards| && h == PairAt(cards, i, j)
      {
        if h in first {
          var k :| 0 <= k < |first| && first[k] == h;
          assert h == PairAt(cards, 0, k + 1);
        } else {
          assert h in Pairs(tail);
          var i, j :| 0 <= i < j < |tail| && h == PairAt(tail, i, j);
          assert h == PairAt(cards, i + 1, j + 1);
        }
      }
      forall i, j | 0 <= i < j < |cards| ensures PairAt(cards, i, j) in Pairs(cards) {
        if i == 0 {
          assert first[j - 1] == PairAt(cards, i, j);
        } else {
          assert PairAt(cards, i, j) == PairAt(tail, i - 1, j - 1);
        }
      }
    }
  }

  /** `get_all_hands(cards)`: the set of hands of every pair of positions,
      equal hands kept once. Python's set order is left unspecified; the
      model keeps the first of each hand in `combinations` order. */
  function GetAllHands(cards: seq<Card>): (r: seq<Hand>)
    ensures HandsDistinct(r)
    ensures forall h :: HandIn(h, r) <==>
              exists i, j :: 0 <= i < j < |cards| && HandEq(PairAt(cards, i, j), h)
    ensures |cards| == 2 ==> r == [Hand(cards[0], Some(cards[1]))]
  {
    var r := DedupHands(Pairs(cards));
    DedupedPairsSound(cards, r);
    DedupedPairsComplete(cards, r);
    if |cards| == 2 then
      PairsOfTwo(cards);
      assert HandsDistinct(Pairs(cards));
      r
    else r
  }

  /** Two cards make one pair. */
  lemma PairsOfTwo(cards: seq<Card>)
    requires |cards| == 2
    ensures Pairs(cards) == [Hand(cards[0], Some(cards[1]))]
  {
    var tail := cards[1..];
    assert Pairs(tail[1..]) == [];
    assert Pairs(tail) == [];
  }

  /** Every hand of the deduplicated pairs is equal to some pair. */
  lemma DedupedPairsSound(cards: seq<Card>, r: seq<Hand>)
    requires r == DedupHands(Pairs(cards))
    ensures forall h :: HandIn(h, r) ==>
              exists i, j :: 0 <= i < j < |cards| && HandEq(PairAt(cards, i, j), h)
  {
    forall h | HandIn(h, r)
      ensures exists i, j :: 0 <= i < j < |cards| && HandEq(PairAt(cards, i, j), h)
    {
      var k :| 0 <= k < |r| && HandEq(r[k], h);
      assert r[k] in Pairs(cards);
      var i, j := PairIndices(cards, r[k]);
      assert HandEq(PairAt(cards, i, j), h);
    }
  }

  /** Every hand equal to some pair is kept, up to equality. */
  lemma DedupedPairsComplete(cards: seq<Card>, r: seq<Hand>)
    requires r == DedupHands(Pairs(cards))
    ensures forall h :: (exists i, j :: 0 <= i < j < |cards| && HandEq(PairAt(cards, i, j), h)) ==>
              HandIn(h, r)
  {
    var ps := Pairs(cards);
    forall h | exists i, j :: 0 <= i < j < |cards| && HandEq(PairAt(cards, i, j), h)
      ensures HandIn(h, r)
    {
      var i, j :| 0 <= i < j < |cards| && HandEq(PairAt(cards, i, j), h);
      PairListed(cards, i, j);
      KeptInDedup(ps, PairAt(cards, i, j));
      var k :| 0 <= k < |r| && HandEq(r[k], PairAt(cards, i, j));
      HandEqTransitive(r[k], PairAt(cards, i, j), h);
    }
  }

  /** The positions a listed pair comes from. */
  lemma PairIndices(cards: seq<Card>, h: Hand) returns (i: nat, j: nat)
    requires h in Pairs(cards)
    ensures i < j < |cards| && h == PairAt(cards, i, j)
  {
    PairsAreCombinations(cards);
    i, j :| 0 <= i < j < |cards| && h == PairAt(cards, i, j);
  }

  /** The pair of any two positions is listed. */
  lemma PairListed(cards: seq<Card>, i: nat, j: nat)
    requires i < j < |cards|
    ensures PairAt(cards, i, j) in Pairs(cards)
  {
    PairsAreCombinations(cards);
  }

  /** One single-card hand per held card, in hand order (`get_singular_hands`,
      written out at countercoup/trainer/trainer.py:137). */
  function SingularHands(cards: seq<Card>): (r: seq<Hand>)
    ensures |r| == |cards|
    ensures forall i :: 0 <= i < |cards| ==> r[i] == Hand(cards[i], None)
  {
    seq(|cards|, i requires 0 <= i < |cards| => Hand(cards[i], None))
  }

  /** The single-card hands are exactly the one-card hands of held cards. */
  lemma SingularHandsMembers(cards: seq<Card>, h: Hand)
    ensures HandIn(h, SingularHands(cards)) <==> h.card2.None? && h.card1 in cards
  {
    var r := SingularHands(cards);
    if h.card2.None? && h.card1 in cards {
      var i :| 0 <= i < |cards| && cards[i] == h.card1;
      assert HandEq(r[i], h);
    }
  }
}
