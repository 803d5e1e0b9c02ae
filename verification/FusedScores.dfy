/** Ranking of accumulated point scores: highest first, smaller point id first among equals. */
module FusedScores {
  import opened Metrics
  import opened Ranking

  /** The entries of a score map, in some order. */
  ghost predicate Lists(hits: seq<Hit>, m: map<nat, real>) {
    && (forall i :: 0 <= i < |hits| ==> hits[i].id in m && hits[i].score == m[hits[i].id])
    && (forall x :: x in m ==> Hit(x, m[x]) in hits)
    && Distinct(hits)
  }

  /** The best entries of a score map, in result order. */
  ghost predicate IsRanking(r: seq<Hit>, m: map<nat, real>, limit: nat) {
    exists hits :: Lists(hits, m) && r == TakeTop(HigherIsBetter, hits, limit)
  }

  /** Sorts the entries of the map and keeps the first ones. */
  method RankScores(m: map<nat, real>, limit: nat) returns (r: seq<Hit>)
    ensures IsRanking(r, m, limit)
  {
    hide TakeTop;
    var hits: seq<Hit> := [];
    var keys := m.Keys;
    while keys != {}
      invariant keys <= m.Keys
      invariant forall i :: 0 <= i < |hits| ==> hits[i].id in m.Keys - keys && hits[i].score == m[hits[i].id]
      invariant forall x :: x in m.Keys - keys ==> Hit(x, m[x]) in hits
      invariant Distinct(hits)
      decreases |keys|
    {
      var x :| x in keys;
      ghost var before := hits;
      hits := hits + [Hit(x, m[x])];
      keys := keys - {x};
      forall y | y in m.Keys - keys ensures Hit(y, m[y]) in hits {
        if y != x {
          assert Hit(y, m[y]) in before;
        }
      }
    }
    r := TakeTop(HigherIsBetter, hits, limit);
  }

  lemma SameEntries(a: seq<Hit>, b: seq<Hit>, m: map<nat, real>)
    requires Lists(a, m) && Lists(b, m)
    ensures multiset(a) == multiset(b)
  {
    forall h ensures h in a <==> h in b {
      assert h in a ==> h == Hit(h.id, m[h.id]);
      assert h in b ==> h == Hit(h.id, m[h.id]);
    }
    assert Elements(a) == Elements(b);
    DistinctMultiset(a);
    DistinctMultiset(b);
  }

  /** A score map has one ranking only. */
  lemma RankingIsUnique(a: seq<Hit>, b: seq<Hit>, m: map<nat, real>, limit: nat)
    requires IsRanking(a, m, limit) && IsRanking(b, m, limit)
    ensures a == b
  {
    var x :| Lists(x, m) && a == TakeTop(HigherIsBetter, x, limit);
    var y :| Lists(y, m) && b == TakeTop(HigherIsBetter, y, limit);
    SameEntries(x, y, m);
    assert |x| == |multiset(x)| == |multiset(y)| == |y|;
    SortIgnoresInputOrder(HigherIsBetter, x, y);
  }

  /** In result order: the higher score first, the smaller id first among equals. */
  ghost predicate Ahead(a: Hit, b: Hit) {
    a.score > b.score || (a.score == b.score && a.id < b.id)
  }

  /** A ranking lists entries of the map in result order and skips none that is ahead of a listed one. */
  lemma RankingIsOrdered(r: seq<Hit>, m: map<nat, real>, limit: nat)
    requires IsRanking(r, m, limit)
    ensures |r| <= limit
    ensures forall i :: 0 <= i < |r| ==> r[i].id in m && r[i].score == m[r[i].id]
    ensures forall i, j :: 0 <= i < j < |r| ==> Ahead(r[i], r[j])
    ensures forall x, j :: x in m && 0 <= j < |r| && Ahead(Hit(x, m[x]), r[j]) ==> Hit(x, m[x]) in r[..j]
    ensures |r| < limit ==> forall x :: x in m ==> Hit(x, m[x]) in r
  {
    hide TakeTop;
    var hits :| Lists(hits, m) && r == TakeTop(HigherIsBetter, hits, limit);
    TakeTopSubset(HigherIsBetter, hits, limit);
    forall i | 0 <= i < |r| ensures r[i].id in m && r[i].score == m[r[i].id] {
      assert r[i] in hits;
    }
    BestComeFirst(HigherIsBetter, hits, limit);
    assert forall i, j :: 0 <= i < j < |r| ==> Listed(HigherIsBetter, r[i], r[j]);
    forall x, j | x in m && 0 <= j < |r| && Ahead(Hit(x, m[x]), r[j]) ensures Hit(x, m[x]) in r[..j] {
      var h := Hit(x, m[x]);
      assert h in hits;
      assert h !in r ==> Listed(HigherIsBetter, r[j], h);
      var i :| 0 <= i < |r| && r[i] == h;
      assert r[..j][i] == h;
    }
    forall x | x in m && |r| < limit ensures Hit(x, m[x]) in r {
      if Hit(x, m[x]) !in r {
        OutsideTopIsDominated(HigherIsBetter, hits, limit, Hit(x, m[x]));
      }
    }
  }

  // ---------- accumulating ----------

  /** The score accumulated so far. */
  function Get(m: map<nat, real>, x: nat): real {
    if x in m then m[x] else 0.0
  }

  function Weights<B>(branches: seq<B>, weight: B -> real): (r: seq<real>)
    ensures |r| == |branches| && forall i :: 0 <= i < |r| ==> r[i] == weight(branches[i])
  {
    seq(|branches|, i requires 0 <= i < |branches| => weight(branches[i]))
  }

  function TotalWeight(weights: seq<real>): real {
    if weights == [] then 0.0 else TotalWeight(weights[..|weights| - 1]) + weights[|weights| - 1]
  }

  method SumWeights(weights: seq<real>) returns (total: real)
    ensures total == TotalWeight(weights)
  {
    total := 0.0;
    for i := 0 to |weights|
      invariant total == TotalWeight(weights[..i])
    {
      assert weights[..i + 1][..i] == weights[..i];
      total := total + weights[i];
    }
    assert weights[..|weights|] == weights;
  }

  // ---------- scaling all scores ----------

  function ScaleHit(c: real, h: Hit): Hit {
    Hit(h.id, Times(c, h.score))
  }

  function Scale(c: real, hits: seq<Hit>): (r: seq<Hit>)
    ensures |r| == |hits| && forall i :: 0 <= i < |r| ==> r[i] == ScaleHit(c, hits[i])
  {
    if hits == [] then [] else [ScaleHit(c, hits[0])] + Scale(c, hits[1..])
  }

  lemma ScalingKeepsOrder(c: real, a: real, b: real)
    requires c > 0.0
    ensures Times(c, a) < Times(c, b) <==> a < b
    ensures Times(c, a) == Times(c, b) <==> a == b
  {
    if a < b {
      Grow(c, a, b);
    } else if b < a {
      Grow(c, b, a);
    }
  }

  lemma Grow(c: real, a: real, b: real)
    requires c > 0.0 && a < b
    ensures Times(c, a) < Times(c, b)
  {
    assert c * (b - a) > 0.0;
  }

  lemma {:induction false} InsertScaled(c: real, h: Hit, hits: seq<Hit>)
    requires c > 0.0
    ensures Insert(HigherIsBetter, ScaleHit(c, h), Scale(c, hits)) == Scale(c, Insert(HigherIsBetter, h, hits))
  {
    if hits != [] {
      var g := hits[0];
      PrecedesScaled(c, g, h);
      hide ScaleHit, Precedes;
      assert Scale(c, hits)[1..] == Scale(c, hits[1..]);
      if Precedes(HigherIsBetter, g, h) {
        InsertScaled(c, h, hits[1..]);
        assert ([g] + Insert(HigherIsBetter, h, hits[1..]))[1..] == Insert(HigherIsBetter, h, hits[1..]);
      } else {
        assert ([h] + hits)[1..] == hits;
      }
    } else {
      assert [h][1..] == [];
    }
  }

  lemma PrecedesScaled(c: real, a: Hit, b: Hit)
    requires c > 0.0
    ensures Precedes(HigherIsBetter, ScaleHit(c, a), ScaleHit(c, b)) <==> Precedes(HigherIsBetter, a, b)
  {
    hide Times;
    ScalingKeepsOrder(c, a.score, b.score);
    ScalingKeepsOrder(c, b.score, a.score);
  }

  lemma {:induction false} SortScaled(c: real, hits: seq<Hit>)
    requires c > 0.0
    ensures Sort(HigherIsBetter, Scale(c, hits)) == Scale(c, Sort(HigherIsBetter, hits))
  {
    hide ScaleHit, Insert;
    if hits != [] {
      assert Scale(c, hits)[1..] == Scale(c, hits[1..]);
      SortScaled(c, hits[1..]);
      InsertScaled(c, hits[0], Sort(HigherIsBetter, hits[1..]));
    }
  }

  /** Multiplying every score by the same positive number changes no id and no position. */
  lemma ScaledRanking(c: real, m: map<nat, real>, n: map<nat, real>, a: seq<Hit>, b: seq<Hit>, limit: nat)
    requires c > 0.0 && m.Keys == n.Keys && (forall x :: x in m ==> n[x] == Times(c, m[x]))
    requires IsRanking(a, m, limit) && IsRanking(b, n, limit)
    ensures b == Scale(c, a) && Ids(b) == Ids(a)
  {
    hide TakeTop, Times, Lists, Scale, Ids;
    var x :| Lists(x, m) && a == TakeTop(HigherIsBetter, x, limit);
    ScaledLists(c, m, n, x);
    var r := TakeTop(HigherIsBetter, Scale(c, x), limit);
    assert IsRanking(r, n, limit);
    RankingIsUnique(b, r, n, limit);
    ScaledTop(c, x, limit);
  }

  lemma ScaledTop(c: real, x: seq<Hit>, limit: nat)
    requires c > 0.0
    ensures TakeTop(HigherIsBetter, Scale(c, x), limit) == Scale(c, TakeTop(HigherIsBetter, x, limit))
    ensures Ids(TakeTop(HigherIsBetter, Scale(c, x), limit)) == Ids(TakeTop(HigherIsBetter, x, limit))
  {
    hide Sort, ScaleHit;
    SortScaled(c, x);
    var a, b := TakeTop(HigherIsBetter, x, limit), TakeTop(HigherIsBetter, Scale(c, x), limit);
    assert forall i :: 0 <= i < |b| ==> b[i] == ScaleHit(c, a[i]);
    assert forall h :: ScaleHit(c, h).id == h.id by { ScaleKeepsId(c); }
  }

  lemma ScaleKeepsId(c: real)
    ensures forall h :: ScaleHit(c, h).id == h.id
  {
  }

  lemma ScaledLists(c: real, m: map<nat, real>, n: map<nat, real>, x: seq<Hit>)
    requires c > 0.0 && m.Keys == n.Keys && (forall k :: k in m ==> n[k] == Times(c, m[k])) && Lists(x, m)
    ensures Lists(Scale(c, x), n)
  {
    hide Times, Scale, Distinct;
    var y := Scale(c, x);
    ScaledDistinct(c, x);
    forall k | k in n ensures Hit(k, n[k]) in y {
      assert Hit(k, m[k]) in x;
      var i :| 0 <= i < |x| && x[i] == Hit(k, m[k]);
      assert y[i] == Hit(k, n[k]);
    }
    forall i | 0 <= i < |y| ensures y[i].id in n && y[i].score == n[y[i].id] {
      assert x[i].id in m && x[i].score == m[x[i].id];
    }
  }

  lemma ScaledDistinct(c: real, x: seq<Hit>)
    requires c > 0.0 && Distinct(x)
    ensures Distinct(Scale(c, x))
  {
    hide Times, Scale;
    var y := Scale(c, x);
    forall i, j | 0 <= i < j < |y| ensures y[i] != y[j] {
      ScalingKeepsOrder(c, x[i].score, x[j].score);
      assert x[i] != x[j];
    }
  }
}
