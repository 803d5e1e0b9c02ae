/**
 Scored candidates, the total order that ranks them, and exact top-k selection.

 Every retrieval path of the system ends in the same two steps: sort the collected hits by
 (score, id) and truncate. This module defines those steps once, together with a
 specification of "top k" that mentions no sorting at all: a hit belongs to the top k
 when fewer than k hits outrank it.
 */
module Ranking {

  datatype ScoreOrder = LowerIsBetter | HigherIsBetter

  datatype Hit = Hit(id: nat, score: real)

  /** Strict result order: better score first, then smaller identifier. */
  predicate Precedes(order: ScoreOrder, a: Hit, b: Hit) {
    if a.score == b.score then
      a.id < b.id
    else
      match order
      case LowerIsBetter => a.score < b.score
      case HigherIsBetter => a.score > b.score
  }

  ghost predicate Sorted(order: ScoreOrder, hits: seq<Hit>) {
    forall i, j :: 0 <= i < j < |hits| ==> !Precedes(order, hits[j], hits[i])
  }

  ghost predicate Distinct<T>(s: seq<T>) {
    forall i, j :: 0 <= i < j < |s| ==> s[i] != s[j]
  }

  ghost function Elements<T>(s: seq<T>): set<T> {
    set x | x in s
  }

  function Min(a: nat, b: nat): nat {
    if a < b then a else b
  }

  function Insert(order: ScoreOrder, h: Hit, hits: seq<Hit>): (r: seq<Hit>)
    ensures multiset(r) == multiset(hits) + multiset{h}
    ensures Sorted(order, hits) ==> Sorted(order, r)
  {
    if hits == [] || !Precedes(order, hits[0], h) then
      InsertFirst(order, h, hits);
      [h] + hits
    else
      assert hits == [hits[0]] + hits[1..];
      var rest := Insert(order, h, hits[1..]);
      InsertLater(order, h, hits, rest);
      [hits[0]] + rest
  }

  lemma InsertFirst(order: ScoreOrder, h: Hit, hits: seq<Hit>)
    requires hits == [] || !Precedes(order, hits[0], h)
    ensures multiset([h] + hits) == multiset(hits) + multiset{h}
    ensures Sorted(order, hits) ==> Sorted(order, [h] + hits)
  {
  }

  lemma InsertLater(order: ScoreOrder, h: Hit, hits: seq<Hit>, rest: seq<Hit>)
    requires hits != [] && Precedes(order, hits[0], h)
    requires multiset(rest) == multiset(hits[1..]) + multiset{h}
    requires Sorted(order, hits[1..]) ==> Sorted(order, rest)
    ensures Sorted(order, hits) ==> Sorted(order, [hits[0]] + rest)
  {
    if Sorted(order, hits) {
      var r := [hits[0]] + rest;
      forall x | x in rest ensures !Precedes(order, x, hits[0]) {
        assert x in multiset(rest);
        assert x in hits[1..] || x == h;
      }
      assert forall j :: 0 < j < |r| ==> r[j] == rest[j - 1];
    }
  }

  /** The order every result list is returned in. */
  function Sort(order: ScoreOrder, hits: seq<Hit>): (r: seq<Hit>)
    ensures multiset(r) == multiset(hits)
    ensures Sorted(order, r)
    ensures |r| == |hits|
  {
    if hits == [] then
      []
    else
      assert hits == [hits[0]] + hits[1..];
      var r := Insert(order, hits[0], Sort(order, hits[1..]));
      assert |r| == |multiset(r)| == |hits|;
      r
  }

  /** Sort, then truncate to at most k hits. */
  function TakeTop(order: ScoreOrder, hits: seq<Hit>, k: nat): (r: seq<Hit>)
    ensures |r| == Min(k, |hits|)
  {
    Sort(order, hits)[..Min(k, |hits|)]
  }

  function Ids(hits: seq<Hit>): (r: seq<nat>)
    ensures |r| == |hits| && forall i :: 0 <= i < |r| ==> r[i] == hits[i].id
  {
    seq(|hits|, i requires 0 <= i < |hits| => hits[i].id)
  }

  // ---------- sorting is canonical ----------

  lemma {:induction false} SortedUnique(order: ScoreOrder, a: seq<Hit>, b: seq<Hit>)
    requires Sorted(order, a) && Sorted(order, b)
    requires multiset(a) == multiset(b)
    ensures a == b
  {
    assert |a| == |multiset(a)| == |multiset(b)| == |b|;
    if a != [] {
      SortedHead(order, a, b);
      SortedHead(order, b, a);
      assert a == [a[0]] + a[1..] && b == [b[0]] + b[1..];
      assert multiset(a[1..]) == multiset(a) - multiset{a[0]} == multiset(b[1..]);
      SortedUnique(order, a[1..], b[1..]);
    }
  }

  /** No element outranks the head of a sorted list. */
  lemma SortedHead(order: ScoreOrder, a: seq<Hit>, b: seq<Hit>)
    requires Sorted(order, a) && multiset(a) == multiset(b) && a != [] && b != []
    ensures !Precedes(order, b[0], a[0])
  {
    assert b[0] in multiset(a);
  }

  /** The returned order does not depend on the order the hits were collected in. */
  lemma SortIgnoresInputOrder(order: ScoreOrder, a: seq<Hit>, b: seq<Hit>)
    requires multiset(a) == multiset(b)
    ensures Sort(order, a) == Sort(order, b)
  {
    SortedUnique(order, Sort(order, a), Sort(order, b));
  }

  lemma {:induction false} DistinctMultiset<T>(a: seq<T>)
    requires Distinct(a)
    ensures multiset(a) == multiset(Elements(a))
    ensures |Elements(a)| == |a|
  {
    if a != [] {
      assert a == [a[0]] + a[1..];
      DistinctMultiset(a[1..]);
      assert Elements(a) == {a[0]} + Elements(a[1..]);
    }
  }

  lemma EqualPositionsCountTwice<T>(a: seq<T>, i: nat, j: nat)
    requires i < j < |a|
    ensures a[i] == a[j] ==> multiset(a)[a[i]] >= 2
  {
    assert a == a[..j] + [a[j]] + a[j + 1..];
    assert a[..j][i] == a[i];
    assert multiset(a[..j])[a[i]] >= 1;
  }

  lemma MultisetDistinct<T>(a: seq<T>)
    requires forall x :: x in multiset(a) ==> multiset(a)[x] == 1
    ensures Distinct(a)
  {
    forall i, j | 0 <= i < j < |a| ensures a[i] != a[j] {
      EqualPositionsCountTwice(a, i, j);
    }
  }

  lemma SortKeepsDistinct(order: ScoreOrder, a: seq<Hit>)
    requires Distinct(a)
    ensures Distinct(Sort(order, a))
    ensures Elements(Sort(order, a)) == Elements(a)
  {
    DistinctMultiset(a);
    var s := Sort(order, a);
    forall x | x in multiset(s) ensures multiset(s)[x] == 1 {
      assert multiset(s)[x] == multiset(Elements(a))[x];
    }
    MultisetDistinct(s);
    assert forall x :: x in s <==> x in multiset(s);
    assert forall x :: x in a <==> x in multiset(a);
  }

  // ---------- the top k, without sorting ----------

  /** The members of s that outrank x. */
  ghost function Better(order: ScoreOrder, s: set<Hit>, x: Hit): set<Hit> {
    set y | y in s && Precedes(order, y, x)
  }

  /** The members of s outranked by fewer than k others. */
  ghost function Top(order: ScoreOrder, s: set<Hit>, k: nat): set<Hit> {
    set x | x in s && |Better(order, s, x)| < k
  }

  lemma SubsetSize<T>(a: set<T>, b: set<T>)
    requires a <= b
    ensures |a| <= |b|
  {
    assert b == a + (b - a);
  }

  /** In a sorted duplicate-free list, the position of a hit is the number of hits that outrank it. */
  lemma PositionIsRank(order: ScoreOrder, s: seq<Hit>, i: nat)
    requires Sorted(order, s) && Distinct(s) && i < |s|
    ensures Better(order, Elements(s), s[i]) == Elements(s[..i])
    ensures |Better(order, Elements(s), s[i])| == i
  {
    forall y | y in Elements(s) ensures Precedes(order, y, s[i]) <==> y in s[..i] {
      var j :| 0 <= j < |s| && s[j] == y;
      if j < i {
        assert s[..i][j] == y;
      }
    }
    DistinctMultiset(s[..i]);
  }

  /** Sorting and truncating duplicate-free hits selects exactly the top k. */
  lemma TakeTopIsTop(order: ScoreOrder, hits: seq<Hit>, k: nat)
    requires Distinct(hits)
    ensures Elements(TakeTop(order, hits, k)) == Top(order, Elements(hits), k)
    ensures Distinct(TakeTop(order, hits, k))
    ensures Sorted(order, TakeTop(order, hits, k))
  {
    var s := Sort(order, hits);
    var n := Min(k, |hits|);
    SortKeepsDistinct(order, hits);
    forall x | x in Elements(hits) ensures x in s[..n] <==> x in Top(order, Elements(hits), k) {
      assert x in Elements(s);
      var i :| 0 <= i < |s| && s[i] == x;
      PositionIsRank(order, s, i);
      if i < n {
        assert s[..n][i] == x;
      }
    }
    assert forall x :: x in s[..n] ==> x in Elements(s);
  }

  lemma TakeTopSubset(order: ScoreOrder, hits: seq<Hit>, k: nat)
    ensures forall x :: x in TakeTop(order, hits, k) ==> x in hits
  {
    var s := Sort(order, hits);
    forall x | x in TakeTop(order, hits, k) ensures x in hits {
      assert x in s;
      assert x in multiset(s);
    }
  }

  /**
   Leaving out hits that k remaining hits outrank does not change the top k. Both the
   truncation of a partial result and the over-fetching of a base index rest on this.
   */
  lemma TopOfReduced(order: ScoreOrder, all: set<Hit>, part: set<Hit>, k: nat)
    requires part <= all
    requires forall x :: x in all - part ==> |Better(order, part, x)| >= k
    ensures Top(order, part, k) == Top(order, all, k)
  {
    forall x | x in all ensures x in Top(order, part, k) <==> x in Top(order, all, k) {
      SubsetSize(Better(order, part, x), Better(order, all, x));
      if Better(order, all, x) <= part {
        assert Better(order, all, x) == Better(order, part, x);
      } else {
        var w :| w in Better(order, all, x) && w !in part;
        SubsetSize(Better(order, part, w), Better(order, part, x));
      }
    }
  }

  lemma TakeTopOfReduced(order: ScoreOrder, all: seq<Hit>, part: seq<Hit>, k: nat)
    requires Distinct(all) && Distinct(part)
    requires Elements(part) <= Elements(all)
    requires forall x :: x in Elements(all) - Elements(part) ==> |Better(order, Elements(part), x)| >= k
    ensures TakeTop(order, part, k) == TakeTop(order, all, k)
  {
    TopOfReduced(order, Elements(all), Elements(part), k);
    SameElementsSameTop(order, all, part, k);
  }

  lemma SameElementsSameTop(order: ScoreOrder, a: seq<Hit>, b: seq<Hit>, k: nat)
    requires Distinct(a) && Distinct(b)
    requires Top(order, Elements(a), k) == Top(order, Elements(b), k)
    ensures TakeTop(order, a, k) == TakeTop(order, b, k)
  {
    TakeTopIsTop(order, a, k);
    TakeTopIsTop(order, b, k);
    DistinctMultiset(TakeTop(order, a, k));
    DistinctMultiset(TakeTop(order, b, k));
    SortedUnique(order, TakeTop(order, a, k), TakeTop(order, b, k));
  }

  /** Every hit outside the top k is outranked by all k hits inside it. */
  lemma OutsideTopIsDominated(order: ScoreOrder, hits: seq<Hit>, k: nat, x: Hit)
    requires Distinct(hits) && x in hits && x !in TakeTop(order, hits, k)
    ensures |TakeTop(order, hits, k)| == k
    ensures forall y :: y in TakeTop(order, hits, k) ==> Precedes(order, y, x)
    ensures |Better(order, Elements(TakeTop(order, hits, k)), x)| == k
  {
    var s := Sort(order, hits);
    SortKeepsDistinct(order, hits);
    TakeTopIsTop(order, hits, k);
    var t := TakeTop(order, hits, k);
    assert x in Elements(s);
    var i :| 0 <= i < |s| && s[i] == x;
    forall y | y in t ensures Precedes(order, y, x) {
      var j :| 0 <= j < |t| && t[j] == y;
      assert s[j] == y && j < i;
      assert s[j] != s[i] && !Precedes(order, s[i], s[j]);
    }
    assert Better(order, Elements(t), x) == Elements(t);
    DistinctMultiset(t);
  }

  /** `a` is listed before `b`: a better score, or the same score and a smaller identifier. */
  ghost predicate Listed(order: ScoreOrder, a: Hit, b: Hit) {
    || (order == LowerIsBetter && a.score < b.score)
    || (order == HigherIsBetter && a.score > b.score)
    || (a.score == b.score && a.id < b.id)
  }

  /** The answer lists its hits from best to worst, and every hit left out comes after all of them. */
  lemma BestComeFirst(order: ScoreOrder, hits: seq<Hit>, k: nat)
    requires Distinct(hits)
    ensures var t := TakeTop(order, hits, k);
            && (forall i, j :: 0 <= i < j < |t| ==> Listed(order, t[i], t[j]))
            && (forall x, i :: x in hits && x !in t && 0 <= i < |t| ==> Listed(order, t[i], x))
  {
    hide TakeTop;
    var t := TakeTop(order, hits, k);
    TakeTopIsTop(order, hits, k);
    forall i, j | 0 <= i < j < |t| ensures Listed(order, t[i], t[j]) {
      assert !Precedes(order, t[j], t[i]) && t[i] != t[j];
    }
    forall x, i | x in hits && x !in t && 0 <= i < |t| ensures Listed(order, t[i], x) {
      OutsideTopIsDominated(order, hits, k, x);
      assert Precedes(order, t[i], x);
    }
  }
}
