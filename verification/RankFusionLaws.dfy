/** Which way reciprocal-rank fusion ranks (crates/context-hybrid/src/lib.rs). */
module RankFusionLaws {
  import opened FusedScores
  import opened Metrics
  import opened Ranking
  import opened RankFusion
  import opened Wrappers

  /** What a rank contributes, times the rank raised by k, is the weight; an earlier rank contributes more. */
  lemma EarlierRanksCountMore(weight: real, k: nat, rank: nat, later: nat)
    requires weight > 0.0 && k > 0 && rank < later
    ensures Part(weight, k, later) > 0.0
    ensures Times(Part(weight, k, later), (k + later) as real) == weight
    ensures Part(weight, k, rank) > Part(weight, k, later)
  {
    LargerDivisor(weight, (k + rank) as real, (k + later) as real);
  }

  lemma LargerDivisor(w: real, a: real, b: real)
    requires w > 0.0 && 0.0 < a < b
    ensures w / a > w / b > 0.0 && Times(w / b, b) == w
  {
    var x, y := w / a, w / b;
    assert x * a == w && y * b == w;
    QuotientIsPositive(w, a);
    QuotientIsPositive(w, b);
    if x <= y {
      ProductOrder(a, x, y);
      StrictProductOrder(y, a, b);
    }
  }

  // ---------- one branch ----------

  /** The branch holds x, and at an earlier or the same rank as y, wherever it counts y. */
  ghost predicate Leads(points: seq<nat>, x: nat, y: nat) {
    Counts(points, y) ==> Counts(points, x) && FirstRank(points, x) <= FirstRank(points, y)
  }

  /** The branch counts x, and y later or not at all. */
  ghost predicate Beats(points: seq<nat>, x: nat, y: nat) {
    Counts(points, x) && (Counts(points, y) ==> FirstRank(points, x) < FirstRank(points, y))
  }

  lemma ShareFollowsLead(b: Branch, k: nat, x: nat, y: nat)
    requires b.weight > 0.0 && k > 0
    ensures Leads(b.points, x, y) ==> Share(b, k, x) >= Share(b, k, y)
    ensures Beats(b.points, x, y) ==> Share(b, k, x) > Share(b, k, y)
  {
    hide Part;
    var p, q := FirstRank(b.points, x), FirstRank(b.points, y);
    if Counts(b.points, x) {
      EarlierRanksCountMore(b.weight, k, p - 1, p);
      if p < q {
        EarlierRanksCountMore(b.weight, k, p, q);
      }
    }
  }

  // ---------- all branches ----------

  ghost predicate Weighty(bs: seq<Branch>) {
    forall i :: 0 <= i < |bs| ==> bs[i].weight > 0.0
  }

  ghost predicate LeadsEverywhere(bs: seq<Branch>, x: nat, y: nat) {
    forall i :: 0 <= i < |bs| ==> Leads(bs[i].points, x, y)
  }

  ghost predicate BeatsSomewhere(bs: seq<Branch>, x: nat, y: nat) {
    exists i :: 0 <= i < |bs| && Beats(bs[i].points, x, y)
  }

  lemma {:induction false} FusedFollowsLead(bs: seq<Branch>, k: nat, x: nat, y: nat)
    requires Weighty(bs) && k > 0 && LeadsEverywhere(bs, x, y)
    ensures Present(bs, y) ==> Present(bs, x)
    ensures Fused(bs, k, x) >= Fused(bs, k, y)
    ensures BeatsSomewhere(bs, x, y) ==> Fused(bs, k, x) > Fused(bs, k, y)
  {
    hide Share, Leads, Beats, Present;
    if bs == [] {
      NobodyIsPresent(y);
    } else {
      var n := |bs| - 1;
      var init := bs[..n];
      assert forall i :: 0 <= i < n ==> init[i] == bs[i];
      FusedFollowsLead(init, k, x, y);
      ShareFollowsLead(bs[n], k, x, y);
      LeaderCounts(bs[n].points, x, y);
      assert bs[..n + 1] == bs;
      PresentStep(bs, n, x);
      PresentStep(bs, n, y);
    }
  }

  lemma NobodyIsPresent(x: nat)
    ensures !Present([], x)
  {
  }

  lemma LeaderCounts(points: seq<nat>, x: nat, y: nat)
    requires Leads(points, x, y)
    ensures Counts(points, y) ==> Counts(points, x)
  {
  }

  lemma RankedLeaderIsAhead(bs: seq<Branch>, k: nat, m: map<nat, real>, r: seq<Hit>, limit: nat, x: nat, j: nat)
    requires Weighty(bs) && k > 0 && ScoresOf(m, bs, k) && IsRanking(r, m, limit) && j < |r|
    requires LeadsEverywhere(bs, x, r[j].id) && (BeatsSomewhere(bs, x, r[j].id) || x < r[j].id)
    ensures exists i :: 0 <= i < j && r[i].id == x
  {
    hide LeadsEverywhere, BeatsSomewhere, Fused, Present, IsRanking;
    RankingIsOrdered(r, m, limit);
    FusedFollowsLead(bs, k, x, r[j].id);
    assert Ahead(Hit(x, m[x]), r[j]);
    var i :| 0 <= i < |r[..j]| && r[..j][i] == Hit(x, m[x]);
    assert r[i].id == x;
  }

  /**
   Plain fusion follows the branches: a point that no branch ranks behind another one, and that
   one ranks ahead of it or whose id is smaller, is listed before it.
   */
  lemma LeaderIsAhead(branches: seq<seq<nat>>, k: nat, limit: nat, r: seq<Hit>, x: nat, j: nat)
    requires k > 0 && IsPlainFusion(r, branches, k, limit) && j < |r|
    requires var bs, y := Unweighted(branches), r[j].id;
             LeadsEverywhere(bs, x, y) && (BeatsSomewhere(bs, x, y) || x < y)
    ensures exists i :: 0 <= i < j && r[i].id == x
  {
    hide LeadsEverywhere, BeatsSomewhere, IsRanking, ScoresOf;
    var m :| ScoresOf(m, Unweighted(branches), k) && IsRanking(r, m, limit);
    RankedLeaderIsAhead(Unweighted(branches), k, m, r, limit, x, j);
  }

  /** So does weighted fusion, over the branches that have weight. */
  lemma WeightedLeaderIsAhead(bs: seq<Branch>, k: nat, limit: nat, r: seq<Hit>, x: nat, j: nat)
    requires k > 0 && IsWeightedFusion(Ok(r), bs, k, limit) && j < |r|
    requires var y := r[j].id;
             && (forall i :: 0 <= i < |bs| && bs[i].weight > 0.0 ==> Leads(bs[i].points, x, y))
             && (x < y || exists i :: 0 <= i < |bs| && bs[i].weight > 0.0 && Beats(bs[i].points, x, y))
    ensures exists i :: 0 <= i < j && r[i].id == x
  {
    hide Leads, Beats, IsRanking, ScoresOf, TotalWeight;
    var total := TotalWeight(Weights(bs, WeightOf));
    var m :| ScoresOf(m, Normalized(bs, total), k) && IsRanking(r, m, limit);
    NormalizedLead(bs, total, x, r[j].id);
    RankedLeaderIsAhead(Normalized(bs, total), k, m, r, limit, x, j);
  }

  lemma {:induction false} NormalizedLead(bs: seq<Branch>, total: real, x: nat, y: nat)
    requires total > 0.0
    ensures Weighty(Normalized(bs, total))
    ensures (forall i :: 0 <= i < |bs| && bs[i].weight > 0.0 ==> Leads(bs[i].points, x, y)) ==>
              LeadsEverywhere(Normalized(bs, total), x, y)
    ensures (exists i :: 0 <= i < |bs| && bs[i].weight > 0.0 && Beats(bs[i].points, x, y)) ==>
              BeatsSomewhere(Normalized(bs, total), x, y)
  {
    hide Leads, Beats;
    if bs != [] {
      var n := |bs| - 1;
      var b, init, before := bs[n], bs[..n], Normalized(bs[..n], total);
      assert forall i :: 0 <= i < n ==> init[i] == bs[i];
      NormalizedLead(init, total, x, y);
      var after := Normalized(bs, total);
      assert forall i :: 0 <= i < |before| ==> after[i] == before[i];
      if b.weight > 0.0 {
        QuotientIsPositive(b.weight, total);
        assert after[|before|].points == b.points;
      }
    }
  }

  /** The weights of the branches that take part add up to one. */
  lemma WeightsAddToOne(bs: seq<Branch>)
    requires WeightError(bs).None?
    ensures TotalWeight(Weights(Normalized(bs, TotalWeight(Weights(bs, WeightOf))), WeightOf)) == 1.0
  {
    hide TotalWeight, Times;
    var total := TotalWeight(Weights(bs, WeightOf));
    NormalizedTotal(bs, total);
    OneByItself(TotalWeight(Weights(Normalized(bs, total), WeightOf)), total);
  }

  lemma OneByItself(x: real, total: real)
    requires total > 0.0 && Times(x, total) == total
    ensures x == 1.0
  {
  }

  lemma {:induction false} NormalizedTotal(bs: seq<Branch>, total: real)
    requires total > 0.0 && forall i :: 0 <= i < |bs| ==> bs[i].weight >= 0.0
    ensures Times(TotalWeight(Weights(Normalized(bs, total), WeightOf)), total) == TotalWeight(Weights(bs, WeightOf))
  {
    hide Times;
    if bs == [] {
      ProductWithZero(total);
    } else {
      var n := |bs| - 1;
      var b, before, after := bs[n], Normalized(bs[..n], total), Normalized(bs, total);
      NormalizedTotal(bs[..n], total);
      assert Weights(bs, WeightOf)[..n] == Weights(bs[..n], WeightOf);
      if b.weight > 0.0 {
        assert after[..|before|] == before;
        assert Weights(after, WeightOf)[..|before|] == Weights(before, WeightOf);
        AddedPart(TotalWeight(Weights(before, WeightOf)), b.weight, total);
      } else {
        assert after == before;
      }
    }
  }

  lemma AddedPart(sum: real, w: real, total: real)
    requires total > 0.0
    ensures Times(sum + w / total, total) == Times(sum, total) + w
  {
    assert (w / total) * total == w;
  }

  /** Fusing one branch alone lists its points in the order of their first ranks. */
  lemma OneBranchKeepsItsOrder(points: seq<nat>, k: nat, limit: nat, r: seq<Hit>, i: nat, j: nat)
    requires k > 0 && IsPlainFusion(r, [points], k, limit) && i < j < |r|
    ensures r[i].id in points && r[j].id in points && FirstRank(points, r[i].id) < FirstRank(points, r[j].id)
  {
    hide IsRanking, Fused, Present, FirstRank;
    var bs := Unweighted([points]);
    var m :| ScoresOf(m, bs, k) && IsRanking(r, m, limit);
    RankingIsOrdered(r, m, limit);
    OneBranchScores(points, k, r[i].id, r[j].id);
  }

  lemma OneBranchScores(points: seq<nat>, k: nat, x: nat, y: nat)
    requires k > 0 && Present(Unweighted([points]), x) && Present(Unweighted([points]), y) && x != y
    ensures x in points && y in points
    ensures Fused(Unweighted([points]), k, x) >= Fused(Unweighted([points]), k, y) ==>
              FirstRank(points, x) < FirstRank(points, y)
  {
    hide Fused, FirstRank;
    var bs := Unweighted([points]);
    assert Counts(points, x) && Counts(points, y);
    if FirstRank(points, y) < FirstRank(points, x) {
      assert Beats(bs[0].points, y, x);
      FusedFollowsLead(bs, k, y, x);
    }
  }
}
