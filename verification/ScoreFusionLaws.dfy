/** Which way weighted score fusion ranks, and by how much (crates/context-hybrid/src/lib.rs). */
module ScoreFusionLaws {
  import opened FusedScores
  import opened Metrics
  import opened Ranking
  import opened ScoreFusion
  import opened Wrappers

  // ---------- positions ----------

  /** In this order, score s is at least as good as score t. */
  ghost predicate NoWorse(order: ScoreOrder, s: real, t: real) {
    match order
    case LowerIsBetter => s <= t
    case HigherIsBetter => s >= t
  }

  lemma QuotientOrder(u: real, v: real, range: real)
    requires range > 0.0
    ensures u <= v ==> Quotient(u, range) <= Quotient(v, range)
    ensures u < v ==> Quotient(u, range) < Quotient(v, range)
  {
    hide Times, Quotient;
    QuotientTimes(u, range);
    QuotientTimes(v, range);
    TimesCommutes(Quotient(u, range), range);
    TimesCommutes(Quotient(v, range), range);
    ScalingKeepsOrder(range, Quotient(u, range), Quotient(v, range));
  }

  lemma TimesCommutes(x: real, y: real)
    ensures Times(x, y) == Times(y, x)
  {
  }

  lemma QuotientEnds(range: real)
    requires range > 0.0
    ensures Quotient(0.0, range) == 0.0 && Quotient(range, range) == 1.0
  {
  }

  /** The best score of a branch has position 1, the worst 0, and a better score has a larger position. */
  lemma PositionsFollowOrder(order: ScoreOrder, low: real, high: real, s: real, t: real)
    requires low <= s <= high && low <= t <= high
    ensures NoWorse(order, s, t) ==> Position(order, low, high, s) >= Position(order, low, high, t)
    ensures !NoWorse(order, t, s) ==> Position(order, low, high, s) > Position(order, low, high, t)
    ensures low < high && NoWorse(order, s, low) && NoWorse(order, s, high) ==> Position(order, low, high, s) == 1.0
    ensures low < high && NoWorse(order, low, s) && NoWorse(order, high, s) ==> Position(order, low, high, s) == 0.0
  {
    hide Quotient;
    if low < high {
      QuotientOrder(s - low, t - low, high - low);
      QuotientOrder(t - low, s - low, high - low);
      QuotientOrder(high - s, high - t, high - low);
      QuotientOrder(high - t, high - s, high - low);
      QuotientEnds(high - low);
    }
  }

  // ---------- one branch ----------

  /** Every candidate of y in the branch is matched by one of x that is at least as good. */
  ghost predicate Leads(b: Branch, x: nat, y: nat)
    requires Scored(b.candidates)
  {
    forall j :: 0 <= j < |b.candidates| && b.candidates[j].id == y ==>
      exists i :: 0 <= i < |b.candidates| && b.candidates[i].id == x
        && NoWorse(b.order, b.candidates[i].score.value, b.candidates[j].score.value)
  }

  /** Some candidate of x is better than every candidate of y, of which there is one. */
  ghost predicate Beats(b: Branch, x: nat, y: nat)
    requires Scored(b.candidates)
  {
    && (exists j :: 0 <= j < |b.candidates| && b.candidates[j].id == y)
    && exists i :: 0 <= i < |b.candidates| && b.candidates[i].id == x
         && forall j :: 0 <= j < |b.candidates| && b.candidates[j].id == y ==>
              !NoWorse(b.order, b.candidates[j].score.value, b.candidates[i].score.value)
  }

  lemma NormsFollowOrder(b: Branch, i: nat, j: nat)
    requires Scored(b.candidates) && i < |b.candidates| && j < |b.candidates|
    ensures var s, t := b.candidates[i].score.value, b.candidates[j].score.value;
            && (NoWorse(b.order, s, t) ==> Norm(b, i) >= Norm(b, j))
            && (!NoWorse(b.order, t, s) ==> Norm(b, i) > Norm(b, j))
            && 0.0 <= Norm(b, i) <= 1.0
  {
    hide Low, High, Position, NoWorse;
    var low, high := Low(b.candidates), High(b.candidates);
    PositionsFollowOrder(b.order, low, high, b.candidates[i].score.value, b.candidates[j].score.value);
    PositionInUnit(b.order, low, high, b.candidates[i].score.value);
  }

  lemma BestInUnit(b: Branch, x: nat)
    requires Scored(b.candidates)
    ensures var best := Best(b, |b.candidates|, x);
            best.Some? ==> 0.0 <= best.value <= 1.0
  {
    hide Best, Norm;
    var best := Best(b, |b.candidates|, x);
    if best.Some? {
      var i :| 0 <= i < |b.candidates| && b.candidates[i].id == x && best.value == Norm(b, i);
      NormsFollowOrder(b, i, i);
    }
  }

  lemma LeadIsNoWorse(b: Branch, x: nat, y: nat)
    requires Scored(b.candidates) && Leads(b, x, y) && Best(b, |b.candidates|, y).Some?
    ensures var bestX, bestY := Best(b, |b.candidates|, x), Best(b, |b.candidates|, y);
            bestX.Some? && bestX.value >= bestY.value
  {
    hide Best, Norm, NoWorse;
    var cs := b.candidates;
    var bestY := Best(b, |cs|, y);
    var j :| 0 <= j < |cs| && cs[j].id == y && bestY.value == Norm(b, j);
    var i :| 0 <= i < |cs| && cs[i].id == x && NoWorse(b.order, cs[i].score.value, cs[j].score.value);
    NormsFollowOrder(b, i, j);
  }

  lemma BeatIsBetter(b: Branch, x: nat, y: nat)
    requires Scored(b.candidates) && Beats(b, x, y)
    ensures var bestX, bestY := Best(b, |b.candidates|, x), Best(b, |b.candidates|, y);
            bestX.Some? && bestY.Some? && bestX.value > bestY.value
  {
    hide Best, Norm, NoWorse;
    var cs := b.candidates;
    var bestY := Best(b, |cs|, y);
    assert bestY.Some?;
    var j :| 0 <= j < |cs| && cs[j].id == y && bestY.value == Norm(b, j);
    var i :| 0 <= i < |cs| && cs[i].id == x
      && forall k :: 0 <= k < |cs| && cs[k].id == y ==> !NoWorse(b.order, cs[k].score.value, cs[i].score.value);
    NormsFollowOrder(b, i, j);
  }

  lemma ShareFollowsLead(b: Branch, total: real, x: nat, y: nat)
    requires Usable(b) && b.weight > 0.0 && total > 0.0
    ensures Share(b, total, y).Some? && Leads(b, x, y) ==> Share(b, total, x).Some?
    ensures Leads(b, x, y) ==> ValueOf(Share(b, total, x)) >= ValueOf(Share(b, total, y))
    ensures Beats(b, x, y) ==> ValueOf(Share(b, total, x)) > ValueOf(Share(b, total, y))
    ensures 0.0 <= ValueOf(Share(b, total, x)) <= b.weight / total
  {
    hide Best, Times, Leads, Beats;
    var c := b.weight / total;
    PositiveQuotient(b.weight, total);
    var bestX, bestY := Best(b, |b.candidates|, x), Best(b, |b.candidates|, y);
    BestInUnit(b, x);
    if bestY.Some? && Leads(b, x, y) {
      LeadIsNoWorse(b, x, y);
    }
    if Beats(b, x, y) {
      BeatIsBetter(b, x, y);
    }
    if bestX.Some? {
      TimesCommutes(bestX.value, c);
      UnitShare(c, bestX.value);
      if bestY.Some? {
        TimesCommutes(bestY.value, c);
        ScalingKeepsOrder(c, bestX.value, bestY.value);
        ScalingKeepsOrder(c, bestY.value, bestX.value);
      }
    }
  }

  lemma PositiveQuotient(a: real, b: real)
    requires a > 0.0 && b > 0.0
    ensures a / b > 0.0
  {
  }

  lemma UnitShare(c: real, v: real)
    requires c > 0.0 && 0.0 <= v <= 1.0
    ensures 0.0 <= Times(c, v) <= c
  {
    ScalingKeepsOrder(c, 0.0, v);
    ScalingKeepsOrder(c, v, 1.0);
  }

  /** Low and high are the extreme scores of the branch, and candidate i is the best one of its point. */
  ghost predicate Frames(b: Branch, low: real, high: real, i: nat)
    requires Scored(b.candidates)
  {
    var cs := b.candidates;
    && (forall k :: 0 <= k < |cs| ==> low <= cs[k].score.value <= high)
    && (exists k :: 0 <= k < |cs| && cs[k].score.value == low)
    && (exists k :: 0 <= k < |cs| && cs[k].score.value == high)
    && i < |cs| && (forall k :: 0 <= k < |cs| && cs[k].id == cs[i].id ==>
                      NoWorse(b.order, cs[i].score.value, cs[k].score.value))
  }

  lemma {:induction false} RangeIsReached(cs: seq<Candidate>)
    requires Scored(cs) && cs != []
    ensures exists k :: 0 <= k < |cs| && cs[k].score.value == Low(cs)
    ensures exists k :: 0 <= k < |cs| && cs[k].score.value == High(cs)
  {
    var n := |cs| - 1;
    assert cs[n].score.value == cs[n].score.value;
    if n > 0 {
      RangeIsReached(cs[..n]);
      var k :| 0 <= k < n && cs[..n][k].score.value == Low(cs[..n]);
      var l :| 0 <= l < n && cs[..n][l].score.value == High(cs[..n]);
      assert cs[k].score.value == Low(cs[..n]) && cs[l].score.value == High(cs[..n]);
    }
  }

  lemma FramedPosition(b: Branch, low: real, high: real, i: nat)
    requires Scored(b.candidates) && Frames(b, low, high, i)
    ensures Best(b, |b.candidates|, b.candidates[i].id)
         == Some(Position(b.order, low, high, b.candidates[i].score.value))
  {
    hide Position, NoWorse;
    var cs := b.candidates;
    RangeIsReached(cs);
    assert low == Low(cs) && high == High(cs);
    hide Best, Low, High;
    var best := Best(b, |cs|, cs[i].id);
    assert best.Some? && Norm(b, i) <= best.value;
    var k :| 0 <= k < |cs| && cs[k].id == cs[i].id && best.value == Norm(b, k);
    NormsFollowOrder(b, i, k);
  }

  /**
   What a branch gives a point: its share of the total weight times how far the best score of the
   point lies from the worst score of the branch, as a part of the whole range.
   */
  lemma ShareIsExact(b: Branch, total: real, low: real, high: real, i: nat)
    requires Scored(b.candidates) && b.weight > 0.0 && total > 0.0 && Frames(b, low, high, i)
    ensures var s, share := b.candidates[i].score.value, Share(b, total, b.candidates[i].id);
            && share.Some?
            && (low == high ==> Times(share.value, total) == b.weight)
            && (low < high ==>
                  Times(Times(share.value, total), high - low)
                  == Times(b.weight, if b.order == HigherIsBetter then s - low else high - s))
  {
    hide Best, NoWorse, Times, Quotient;
    var s := b.candidates[i].score.value;
    FramedPosition(b, low, high, i);
    var p := Position(b.order, low, high, s);
    WeightPart(p, b.weight, total);
    if low < high {
      QuotientTimes(s - low, high - low);
      QuotientTimes(high - s, high - low);
      TimesAssociates(b.weight, p, high - low);
    } else {
      TimesOne(b.weight);
    }
  }

  lemma WeightPart(p: real, weight: real, total: real)
    requires total > 0.0
    ensures Times(Times(p, weight / total), total) == Times(weight, p)
  {
    assert (weight / total) * total == weight;
    assert (p * (weight / total)) * total == p * ((weight / total) * total);
  }

  lemma TimesAssociates(a: real, b: real, c: real)
    ensures Times(Times(a, b), c) == Times(a, Times(b, c))
  {
  }

  lemma TimesOne(a: real)
    ensures Times(a, 1.0) == a
  {
  }

  // ---------- all branches ----------

  /** In every branch with weight, x is at least as good as y. */
  ghost predicate LeadsEverywhere(bs: seq<Branch>, x: nat, y: nat)
    requires AllUsable(bs)
  {
    forall i :: 0 <= i < |bs| && bs[i].weight > 0.0 ==> Leads(bs[i], x, y)
  }

  /** In some branch with weight, x is better than y. */
  ghost predicate BeatsSomewhere(bs: seq<Branch>, x: nat, y: nat)
    requires AllUsable(bs)
  {
    exists i :: 0 <= i < |bs| && bs[i].weight > 0.0 && Beats(bs[i], x, y)
  }

  lemma ShareOfLeader(b: Branch, total: real, x: nat, y: nat)
    requires Usable(b) && total > 0.0 && (b.weight > 0.0 ==> Leads(b, x, y))
    ensures Share(b, total, y).Some? ==> Share(b, total, x).Some?
    ensures ValueOf(Share(b, total, x)) >= ValueOf(Share(b, total, y))
    ensures b.weight > 0.0 && Beats(b, x, y) ==> ValueOf(Share(b, total, x)) > ValueOf(Share(b, total, y))
  {
    hide Leads, Beats, Best;
    if b.weight > 0.0 {
      ShareFollowsLead(b, total, x, y);
    }
  }

  lemma {:induction false} FusedFollowsLead(bs: seq<Branch>, total: real, x: nat, y: nat)
    requires AllUsable(bs) && total > 0.0 && LeadsEverywhere(bs, x, y)
    ensures Present(bs, total, y) ==> Present(bs, total, x)
    ensures Fused(bs, total, x) >= Fused(bs, total, y)
    ensures BeatsSomewhere(bs, x, y) ==> Fused(bs, total, x) > Fused(bs, total, y)
  {
    hide Leads, Beats, Share, Scored, Present;
    if bs == [] {
      NobodyIsPresent(total, y);
    } else {
      var n := |bs| - 1;
      var b, init := bs[n], bs[..n];
      assert forall i :: 0 <= i < n ==> init[i] == bs[i];
      FusedFollowsLead(init, total, x, y);
      ShareOfLeader(b, total, x, y);
      assert bs[..n + 1] == bs;
      PresentStep(bs, n, total, x);
      PresentStep(bs, n, total, y);
    }
  }

  lemma NobodyIsPresent(total: real, x: nat)
    requires total > 0.0
    ensures !Present([], total, x)
  {
  }

  lemma {:induction false} FusedIsBounded(bs: seq<Branch>, total: real, x: nat)
    requires AllUsable(bs) && total > 0.0 && forall i :: 0 <= i < |bs| ==> bs[i].weight >= 0.0
    ensures 0.0 <= Times(Fused(bs, total, x), total) <= TotalWeight(Weights(bs, WeightOf))
  {
    hide Share, Times;
    if bs == [] {
      ProductWithZero(total);
    } else {
      var n := |bs| - 1;
      var b := bs[n];
      FusedIsBounded(bs[..n], total, x);
      assert Weights(bs, WeightOf)[..n] == Weights(bs[..n], WeightOf);
      ShareIsBounded(b, total, x);
      TimesAdds(Fused(bs[..n], total, x), ValueOf(Share(b, total, x)), total);
    }
  }

  lemma TimesAdds(x: real, y: real, c: real)
    ensures Times(x + y, c) == Times(x, c) + Times(y, c)
  {
  }

  lemma ShareIsBounded(b: Branch, total: real, x: nat)
    requires Usable(b) && b.weight >= 0.0 && total > 0.0
    ensures 0.0 <= Times(ValueOf(Share(b, total, x)), total) <= b.weight
  {
    hide Share, Times, Leads, Beats;
    if b.weight > 0.0 {
      ShareFollowsLead(b, total, x, x);
      BoundedTimes(ValueOf(Share(b, total, x)), b.weight, total);
    } else {
      WeightlessShare(b, total, x);
      ProductWithZero(total);
    }
  }

  lemma WeightlessShare(b: Branch, total: real, x: nat)
    requires Usable(b) && b.weight <= 0.0 && total > 0.0
    ensures ValueOf(Share(b, total, x)) == 0.0
  {
  }

  lemma BoundedTimes(v: real, weight: real, total: real)
    requires total > 0.0 && 0.0 <= v <= weight / total
    ensures 0.0 <= Times(v, total) <= weight
  {
    hide Times;
    DividedTimes(weight, total);
    ProductWithZero(total);
    ScalingKeepsOrder(total, 0.0, v);
    ScalingKeepsOrder(total, v, weight / total);
    TimesCommutes(total, v);
    TimesCommutes(total, 0.0);
    TimesCommutes(total, weight / total);
  }

  lemma DividedTimes(a: real, b: real)
    requires b > 0.0
    ensures Times(a / b, b) == a
  {
  }

  /**
   Fusion follows the branches: a point that is at least as good as another one in every branch
   with weight, and better in one or smaller in id, is listed before it. Scores lie between 0 and 1.
   */
  lemma LeaderIsAhead(bs: seq<Branch>, limit: nat, r: seq<Hit>, x: nat, j: nat)
    requires IsFusion(Ok(r), bs, limit) && j < |r|
    ensures AllUsable(bs) && 0.0 <= r[j].score <= 1.0
    ensures LeadsEverywhere(bs, x, r[j].id) && (BeatsSomewhere(bs, x, r[j].id) || x < r[j].id) ==>
              exists i :: 0 <= i < j && r[i].id == x
  {
    hide LeadsEverywhere, BeatsSomewhere, Share, Usable, Fused, IsRanking, TotalWeight, Times;
    var total, y := TotalWeight(Weights(bs, WeightOf)), r[j].id;
    var m :| ScoresOf(m, bs, total) && IsRanking(r, m, limit);
    RankingIsOrdered(r, m, limit);
    FusedIsBounded(bs, total, y);
    UnitScore(r[j].score, total);
    if LeadsEverywhere(bs, x, y) && (BeatsSomewhere(bs, x, y) || x < y) {
      FusedFollowsLead(bs, total, x, y);
      assert Ahead(Hit(x, m[x]), r[j]);
      var i :| 0 <= i < |r[..j]| && r[..j][i] == Hit(x, m[x]);
      assert r[i].id == x;
    }
  }

  lemma UnitScore(s: real, total: real)
    requires total > 0.0 && 0.0 <= Times(s, total) <= total
    ensures 0.0 <= s <= 1.0
  {
    hide Times;
    TimesCommutes(s, total);
    ProductWithZero(total);
    TimesCommutes(total, 0.0);
    TimesOne(total);
    ScalingKeepsOrder(total, s, 0.0);
    ScalingKeepsOrder(total, 1.0, s);
  }
}
