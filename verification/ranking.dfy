/** The last two steps of `getSchedulingSuggestions`: `List.sort` by confidence,
    highest first, and `limit(20)`. `List.sort` is a stable merge sort; it is
    modelled as a stable insertion sort, whose output is the same for any
    stable algorithm. */
module Ranking {
  import opened PatternScoring

  const MaxSuggestions: int := 20

  /** Confidence never increases along the list. */
  predicate NonIncreasing(s: seq<Suggestion>) {
    forall i, j :: 0 <= i < j < |s| ==> s[i].confidence >= s[j].confidence
  }

  /** The suggestions of confidence `v`, in list order. */
  function WithConfidence(s: seq<Suggestion>, v: int): seq<Suggestion> {
    if s == [] then []
    else (if s[0].confidence == v then [s[0]] else []) + WithConfidence(s[1..], v)
  }

  /** Places `x` in front of the first suggestion it does not rank below, so
      that it precedes every element of `s` with equal confidence. */
  function Insert(x: Suggestion, s: seq<Suggestion>): (r: seq<Suggestion>)
    requires NonIncreasing(s)
    ensures NonIncreasing(r)
    ensures multiset(r) == multiset(s) + multiset{x}
  {
    if s == [] || x.confidence >= s[0].confidence then
      ConsKeepsOrder(x, s);
      [x] + s
    else
      var rest := Insert(x, s[1..]);
      assert s == [s[0]] + s[1..];
      forall y | y in rest
        ensures y.confidence <= s[0].confidence
      {
        assert y in multiset(rest);
        if y != x {
          assert y in multiset(s[1..]);
        }
      }
      ConsKeepsOrder(s[0], rest);
      [s[0]] + rest
  }

  /** `x` lands in front of the equally ranked elements of `s` and leaves their
      order alone. */
  lemma {:induction false} InsertStable(x: Suggestion, s: seq<Suggestion>, v: int)
    requires NonIncreasing(s)
    ensures WithConfidence(Insert(x, s), v)
            == (if x.confidence == v then [x] else []) + WithConfidence(s, v)
  {
    if s == [] || x.confidence >= s[0].confidence {
      assert Insert(x, s) == [x] + s;
      WithConfidenceCons(x, s, v);
    } else {
      var rest := Insert(x, s[1..]);
      assert Insert(x, s) == [s[0]] + rest;
      InsertStable(x, s[1..], v);
      WithConfidenceCons(s[0], rest, v);
      WithConfidenceCons(s[0], s[1..], v);
      assert s == [s[0]] + s[1..];
      if x.confidence == v {
        // `s[0]` outranks `x`, so it is not among the elements ranked `v`.
        assert WithConfidence(s, v) == WithConfidence(s[1..], v);
        assert WithConfidence(Insert(x, s), v) == WithConfidence(rest, v);
      } else {
        assert WithConfidence(rest, v) == WithConfidence(s[1..], v);
      }
    }
  }

  /** Filtering a list with a given head. */
  lemma WithConfidenceCons(y: Suggestion, rest: seq<Suggestion>, v: int)
    ensures WithConfidence([y] + rest, v) == (if y.confidence == v then [y] else []) + WithConfidence(rest, v)
  {
    assert ([y] + rest)[1..] == rest;
  }

  /** A head ranked at least as high as every later element keeps the order. */
  lemma ConsKeepsOrder(y: Suggestion, rest: seq<Suggestion>)
    requires NonIncreasing(rest)
    requires forall z :: z in rest ==> z.confidence <= y.confidence
    ensures NonIncreasing([y] + rest)
  {
    var r := [y] + rest;
    forall i, j | 0 <= i < j < |r|
      ensures r[i].confidence >= r[j].confidence
    {
      assert r[j] == rest[j - 1];
      if i > 0 {
        assert r[i] == rest[i - 1];
      }
    }
  }

  /** The sort by confidence, highest first: sorted and a permutation of the
      input (its stability is `SortIsStable`). */
  function SortByConfidence(s: seq<Suggestion>): (r: seq<Suggestion>)
    ensures NonIncreasing(r)
    ensures multiset(r) == multiset(s)
  {
    if s == [] then []
    else
      assert s == [s[0]] + s[1..];
      Insert(s[0], SortByConfidence(s[1..]))
  }

  /** Stability: for every confidence value, the suggestions with that value
      leave the sort in the order they entered it. */
  lemma {:induction false} SortIsStable(s: seq<Suggestion>, v: int)
    ensures WithConfidence(SortByConfidence(s), v) == WithConfidence(s, v)
  {
    if s != [] {
      SortIsStable(s[1..], v);
      InsertStable(s[0], SortByConfidence(s[1..]), v);
      WithConfidenceCons(s[0], s[1..], v);
      assert s == [s[0]] + s[1..];
    }
  }

  /** `stream().limit(n)`: the first `n` elements, or all of them. */
  function Limit(s: seq<Suggestion>, n: nat): (r: seq<Suggestion>)
    ensures r <= s
    ensures |r| == if |s| <= n then |s| else n
  {
    if |s| <= n then s else s[..n]
  }

  /** A prefix of a sorted list is sorted. */
  lemma PrefixNonIncreasing(s: seq<Suggestion>, r: seq<Suggestion>)
    requires NonIncreasing(s) && r <= s
    ensures NonIncreasing(r)
  {
  }

  /** Start times strictly increase along the list. */
  predicate StartsIncreasing(s: seq<Suggestion>) {
    forall i, j :: 0 <= i < j < |s| ==> s[i].start < s[j].start
  }

  /** Keeping only one confidence value keeps the start order. */
  lemma {:induction false} WithConfidenceKeepsStartOrder(s: seq<Suggestion>, v: int)
    requires StartsIncreasing(s)
    ensures StartsIncreasing(WithConfidence(s, v))
    ensures forall y :: y in WithConfidence(s, v) ==> y in s
  {
    if s != [] {
      WithConfidenceKeepsStartOrder(s[1..], v);
      var rest := WithConfidence(s[1..], v);
      forall y | y in rest
        ensures s[0].start < y.start
      {
        var k :| 1 <= k < |s| && s[k] == y;
      }
      WithConfidenceCons(s[0], s[1..], v);
      assert s == [s[0]] + s[1..];
    }
  }

  /** Where `s[j]` sits in the list of its confidence value. */
  lemma {:induction false} PositionWithin(s: seq<Suggestion>, j: int) returns (b: int)
    requires 0 <= j < |s|
    ensures 0 <= b < |WithConfidence(s, s[j].confidence)|
    ensures WithConfidence(s, s[j].confidence)[b] == s[j]
  {
    var v := s[j].confidence;
    assert s == [s[0]] + s[1..];
    WithConfidenceCons(s[0], s[1..], v);
    if j == 0 {
      b := 0;
    } else {
      var b' := PositionWithin(s[1..], j - 1);
      b := if s[0].confidence == v then b' + 1 else b';
    }
  }

  /** Two equally ranked elements keep their order in the list of their value. */
  lemma {:induction false} PositionsWithin(s: seq<Suggestion>, i: int, j: int) returns (a: int, b: int)
    requires 0 <= i < j < |s| && s[i].confidence == s[j].confidence
    ensures 0 <= a < b < |WithConfidence(s, s[i].confidence)|
    ensures WithConfidence(s, s[i].confidence)[a] == s[i]
    ensures WithConfidence(s, s[i].confidence)[b] == s[j]
  {
    var v := s[i].confidence;
    assert s == [s[0]] + s[1..];
    WithConfidenceCons(s[0], s[1..], v);
    if i == 0 {
      var b' := PositionWithin(s[1..], j - 1);
      a, b := 0, b' + 1;
    } else {
      var a', b' := PositionsWithin(s[1..], i - 1, j - 1);
      var shift := if s[0].confidence == v then 1 else 0;
      a, b := a' + shift, b' + shift;
    }
  }

  /** Ties keep the input's chronological order: after sorting a list whose
      starts increase, equally ranked suggestions still appear earliest first. */
  lemma TiesStayChronological(s: seq<Suggestion>, i: int, j: int)
    requires StartsIncreasing(s)
    requires 0 <= i < j < |SortByConfidence(s)|
    requires SortByConfidence(s)[i].confidence == SortByConfidence(s)[j].confidence
    ensures SortByConfidence(s)[i].start < SortByConfidence(s)[j].start
  {
    var r := SortByConfidence(s);
    var v := r[i].confidence;
    var a, b := PositionsWithin(r, i, j);
    SortIsStable(s, v);
    WithConfidenceKeepsStartOrder(s, v);
  }
}
