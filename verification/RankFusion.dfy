/** Plain and weighted reciprocal-rank fusion (crates/context-hybrid/src/lib.rs). */
module RankFusion {
  import opened FusedScores
  import opened Metrics
  import opened Ranking
  import opened Wrappers

  const U32_MAX: nat := 0xffff_ffff

  /** Point ids of one branch, best first, and the weight of the branch. */
  datatype Branch = Branch(points: seq<nat>, weight: real)

  datatype FusionError = InvalidWeight | ZeroTotalWeight

  // ---------- what a point scores ----------

  /** One-based rank of the first occurrence of a point, or 0. */
  function FirstRank(points: seq<nat>, x: nat): (r: nat)
    ensures r <= |points| && (r > 0 <==> x in points)
    ensures r > 0 ==> points[r - 1] == x && forall i :: 0 <= i < r - 1 ==> points[i] != x
  {
    if points == [] then
      0
    else
      var k := |points| - 1;
      assert points == points[..k] + [points[k]];
      var r := FirstRank(points[..k], x);
      if r > 0 then r else if points[k] == x then k + 1 else 0
  }

  /** The branch contributes to the point: ranks that do not fit 32 bits are passed over. */
  predicate Counts(points: seq<nat>, x: nat) {
    1 <= FirstRank(points, x) <= U32_MAX
  }

  function Part(weight: real, k: nat, rank: nat): real
    requires k + rank > 0
  {
    weight / (k + rank) as real
  }

  function Share(b: Branch, k: nat, x: nat): real {
    if Counts(b.points, x) then Part(b.weight, k, FirstRank(b.points, x)) else 0.0
  }

  predicate Present(bs: seq<Branch>, x: nat) {
    exists i :: 0 <= i < |bs| && Counts(bs[i].points, x)
  }

  function Fused(bs: seq<Branch>, k: nat, x: nat): real {
    if bs == [] then 0.0 else Fused(bs[..|bs| - 1], k, x) + Share(bs[|bs| - 1], k, x)
  }

  /** The map holds exactly the points that some branch contributes to, with their sums. */
  ghost predicate ScoresOf(m: map<nat, real>, bs: seq<Branch>, k: nat) {
    forall x :: (x in m <==> Present(bs, x)) && (x in m ==> m[x] == Fused(bs, k, x))
  }

  // ---------- adding one branch ----------

  ghost predicate AddedAt(before: map<nat, real>, after: map<nat, real>, b: Branch, k: nat, x: nat) {
    (x in after <==> x in before || Counts(b.points, x)) && Get(after, x) == Get(before, x) + Share(b, k, x)
  }

  ghost predicate Added(before: map<nat, real>, after: map<nat, real>, b: Branch, k: nat) {
    forall x :: AddedAt(before, after, b, k, x)
  }

  /** The scores after point i of the branch: unchanged if it was seen before or its rank does not fit. */
  function WithPoint(scores: map<nat, real>, b: Branch, i: nat, k: nat): map<nat, real>
    requires i < |b.points|
  {
    var x := b.points[i];
    if x in b.points[..i] || i + 1 > U32_MAX then scores else scores[x := Get(scores, x) + Part(b.weight, k, i + 1)]
  }

  lemma AddedPointAt(m: map<nat, real>, scores: map<nat, real>, b: Branch, i: nat, k: nat, y: nat)
    requires i < |b.points| && k > 0 && AddedAt(m, scores, Branch(b.points[..i], b.weight), k, y)
    ensures AddedAt(m, WithPoint(scores, b, i, k), Branch(b.points[..i + 1], b.weight), k, y)
  {
    hide Part, Counts, Share;
    ShareStep(b, i, k, y);
  }

  lemma AddedPoint(m: map<nat, real>, scores: map<nat, real>, b: Branch, i: nat, k: nat)
    requires i < |b.points| && k > 0 && Added(m, scores, Branch(b.points[..i], b.weight), k)
    ensures Added(m, WithPoint(scores, b, i, k), Branch(b.points[..i + 1], b.weight), k)
  {
    hide AddedAt, WithPoint;
    var next, longer := WithPoint(scores, b, i, k), Branch(b.points[..i + 1], b.weight);
    forall y ensures AddedAt(m, next, longer, k, y) {
      AddedPointAt(m, scores, b, i, k, y);
    }
  }

  lemma ShareStep(b: Branch, i: nat, k: nat, y: nat)
    requires i < |b.points| && k > 0
    ensures var shorter, longer := Branch(b.points[..i], b.weight), Branch(b.points[..i + 1], b.weight);
            if y == b.points[i] && y !in b.points[..i] && i + 1 <= U32_MAX
            then !Counts(shorter.points, y) && Share(shorter, k, y) == 0.0
                 && Counts(longer.points, y) && Share(longer, k, y) == Part(b.weight, k, i + 1)
            else (Counts(shorter.points, y) <==> Counts(longer.points, y))
                 && Share(shorter, k, y) == Share(longer, k, y)
  {
    hide Part;
    RankStep(b.points, i, y);
  }

  lemma RankStep(points: seq<nat>, i: nat, y: nat)
    requires i < |points|
    ensures FirstRank(points[..i + 1], y) ==
            if y in points[..i] then FirstRank(points[..i], y) else if points[i] == y then i + 1 else 0
  {
    assert points[..i + 1][..i] == points[..i];
  }

  method AddBranch(m: map<nat, real>, b: Branch, k: nat) returns (scores: map<nat, real>)
    requires k > 0
    ensures Added(m, scores, b, k)
  {
    hide Added;
    scores := m;
    var seen: set<nat> := {};
    StartBranch(m, b, k);
    for i := 0 to |b.points|
      invariant forall x :: x in seen <==> x in b.points[..i]
      invariant Added(m, scores, Branch(b.points[..i], b.weight), k)
    {
      var x := b.points[i];
      AddedPoint(m, scores, b, i, k);
      assert b.points[..i + 1] == b.points[..i] + [x];
      if x !in seen {
        seen := seen + {x};
        var rank := i + 1;
        if rank <= U32_MAX {
          scores := scores[x := Get(scores, x) + Part(b.weight, k, rank)];
        }
      }
    }
    assert b.points[..|b.points|] == b.points;
  }

  lemma StartBranch(m: map<nat, real>, b: Branch, k: nat)
    ensures Added(m, m, Branch(b.points[..0], b.weight), k)
  {
  }

  lemma AddedScores(m: map<nat, real>, scores: map<nat, real>, bs: seq<Branch>, i: nat, k: nat)
    requires i < |bs| && ScoresOf(m, bs[..i], k) && Added(m, scores, bs[i], k)
    ensures ScoresOf(scores, bs[..i + 1], k)
  {
    hide Counts, Share;
    var before, after := bs[..i], bs[..i + 1];
    assert after[..i] == before;
    forall x ensures (x in scores <==> Present(after, x)) && (x in scores ==> scores[x] == Fused(after, k, x)) {
      assert AddedAt(m, scores, bs[i], k, x);
      PresentStep(bs, i, x);
      if x !in m {
        AbsentScoresZero(before, k, x);
      }
    }
  }

  lemma PresentStep(bs: seq<Branch>, i: nat, x: nat)
    requires i < |bs|
    ensures Present(bs[..i + 1], x) <==> Present(bs[..i], x) || Counts(bs[i].points, x)
  {
    hide Counts;
    var before, after := bs[..i], bs[..i + 1];
    if Present(before, x) {
      var j :| 0 <= j < |before| && Counts(before[j].points, x);
      assert after[j] == before[j];
    }
    if Counts(bs[i].points, x) {
      assert after[i] == bs[i];
    }
    if Present(after, x) {
      var j :| 0 <= j < |after| && Counts(after[j].points, x);
      assert j < i ==> before[j] == after[j];
    }
  }

  lemma {:induction false} AbsentScoresZero(bs: seq<Branch>, k: nat, x: nat)
    requires !Present(bs, x)
    ensures Fused(bs, k, x) == 0.0
  {
    hide Counts;
    if bs != [] {
      var n := |bs| - 1;
      assert !Counts(bs[n].points, x);
      PresentStep(bs, n, x);
      assert bs[..n + 1] == bs;
      AbsentScoresZero(bs[..n], k, x);
    }
  }

  // ---------- fusion ----------

  method AddBranches(bs: seq<Branch>, k: nat) returns (scores: map<nat, real>)
    requires k > 0
    ensures ScoresOf(scores, bs, k)
  {
    hide ScoresOf, Added;
    scores := map[];
    NoScores(bs, k);
    for i := 0 to |bs|
      invariant ScoresOf(scores, bs[..i], k)
    {
      var before := scores;
      scores := AddBranch(before, bs[i], k);
      AddedScores(before, scores, bs, i, k);
    }
    assert bs[..|bs|] == bs;
  }

  lemma NoScores(bs: seq<Branch>, k: nat)
    ensures ScoresOf(map[], bs[..0], k)
  {
  }

  function Unweighted(branches: seq<seq<nat>>): (r: seq<Branch>)
    ensures |r| == |branches| && forall i :: 0 <= i < |r| ==> r[i] == Branch(branches[i], 1.0)
  {
    seq(|branches|, i requires 0 <= i < |branches| => Branch(branches[i], 1.0))
  }

  /** What plain fusion returns: the ranking of the sums of 1 / (k + rank) over the branches that hold a point. */
  ghost predicate IsPlainFusion(r: seq<Hit>, branches: seq<seq<nat>>, k: nat, limit: nat) {
    if limit == 0 then r == []
    else exists m :: ScoresOf(m, Unweighted(branches), k) && IsRanking(r, m, limit)
  }

  method ReciprocalRankFusion(branches: seq<seq<nat>>, k: nat, limit: nat) returns (r: seq<Hit>)
    requires k > 0
    ensures IsPlainFusion(r, branches, k, limit)
  {
    if limit == 0 {
      return [];
    }
    var m := AddBranches(Unweighted(branches), k);
    r := RankScores(m, limit);
  }

  function WeightOf(b: Branch): real { b.weight }

  /** The branches that take part, with weights that add up to one. */
  function Normalized(bs: seq<Branch>, total: real): seq<Branch>
    requires total > 0.0
  {
    if bs == [] then
      []
    else
      var b := bs[|bs| - 1];
      Normalized(bs[..|bs| - 1], total) + if b.weight > 0.0 then [Branch(b.points, b.weight / total)] else []
  }

  /** Which error the weights cause, if any. */
  function WeightError(bs: seq<Branch>): Option<FusionError> {
    if exists i :: 0 <= i < |bs| && bs[i].weight < 0.0 then Some(InvalidWeight)
    else if TotalWeight(Weights(bs, WeightOf)) <= 0.0 then Some(ZeroTotalWeight)
    else None
  }

  /** What weighted fusion returns: the error of the weights, or the ranking under normalized weights. */
  ghost predicate IsWeightedFusion(r: Result<seq<Hit>, FusionError>, bs: seq<Branch>, k: nat, limit: nat) {
    match WeightError(bs)
    case Some(e) => r == Err(e)
    case None =>
      && r.Ok?
      && if limit == 0 then r.value == []
         else
           var normalized := Normalized(bs, TotalWeight(Weights(bs, WeightOf)));
           exists m :: ScoresOf(m, normalized, k) && IsRanking(r.value, m, limit)
  }

  method WeightedReciprocalRankFusion(bs: seq<Branch>, k: nat, limit: nat) returns (r: Result<seq<Hit>, FusionError>)
    requires k > 0
    ensures IsWeightedFusion(r, bs, k, limit)
  {
    hide ScoresOf, Added, IsRanking, Weights, TotalWeight;
    if exists i :: 0 <= i < |bs| && bs[i].weight < 0.0 {
      return Err(InvalidWeight);
    }
    var total := SumWeights(Weights(bs, WeightOf));
    if total <= 0.0 {
      return Err(ZeroTotalWeight);
    }
    if limit == 0 {
      return Ok([]);
    }
    var m: map<nat, real> := map[];
    ghost var done: seq<Branch> := [];
    NoScores(done, k);
    assert done[..0] == done;
    for i := 0 to |bs|
      invariant done == Normalized(bs[..i], total)
      invariant ScoresOf(m, done, k)
    {
      assert bs[..i + 1][..i] == bs[..i];
      if bs[i].weight > 0.0 {
        var before := m;
        var b := Branch(bs[i].points, bs[i].weight / total);
        m := AddBranch(before, b, k);
        ghost var more := done + [b];
        assert more[..|done|] == done && more[..|done| + 1] == more;
        AddedScores(before, m, more, |done|, k);
        done := more;
      }
    }
    assert bs[..|bs|] == bs;
    var ranked := RankScores(m, limit);
    return Ok(ranked);
  }

  // ---------- equal weights ----------

  lemma ShareScales(points: seq<nat>, c: real, k: nat, x: nat)
    requires k > 0
    ensures Share(Branch(points, c), k, x) == Times(c, Share(Branch(points, 1.0), k, x))
  {
    if Counts(points, x) {
      assert Share(Branch(points, c), k, x) == c / (k + FirstRank(points, x)) as real;
      DivisionScales(c, (k + FirstRank(points, x)) as real);
    } else {
      assert Times(c, 0.0) == 0.0;
    }
  }

  lemma DivisionScales(c: real, d: real)
    requires d > 0.0
    ensures c / d == Times(c, 1.0 / d)
  {
  }

  lemma Distributes(c: real, x: real, y: real)
    ensures Times(c, x) + Times(c, y) == Times(c, x + y)
  {
  }

  /** Branches that differ only in a common weight score every point in proportion. */
  lemma {:induction false} FusedScales(branches: seq<seq<nat>>, bs: seq<Branch>, c: real, k: nat, x: nat)
    requires k > 0 && |bs| == |branches| && forall i :: 0 <= i < |bs| ==> bs[i] == Branch(branches[i], c)
    ensures Fused(bs, k, x) == Times(c, Fused(Unweighted(branches), k, x))
    ensures Present(bs, x) <==> Present(Unweighted(branches), x)
  {
    hide Share, Times, Counts;
    var plain := Unweighted(branches);
    forall i | 0 <= i < |bs| ensures bs[i].points == plain[i].points {
    }
    if bs == [] {
      assert plain == [];
      TimesZero(c);
    } else {
      var n := |bs| - 1;
      FusedScales(branches[..n], bs[..n], c, k, x);
      assert Unweighted(branches[..n]) == plain[..n];
      ShareScales(branches[n], c, k, x);
      Distributes(c, Fused(plain[..n], k, x), Share(plain[n], k, x));
    }
  }

  lemma TimesZero(c: real)
    ensures Times(c, 0.0) == 0.0
  {
  }

  lemma {:induction false} EqualWeightsNormalize(branches: seq<seq<nat>>, bs: seq<Branch>, w: real, total: real)
    requires w > 0.0 && total > 0.0 && |bs| == |branches|
    requires forall i :: 0 <= i < |bs| ==> bs[i] == Branch(branches[i], w)
    ensures var n := Normalized(bs, total);
            |n| == |branches| && forall i :: 0 <= i < |n| ==> n[i] == Branch(branches[i], w / total)
  {
    if bs != [] {
      EqualWeightsNormalize(branches[..|bs| - 1], bs[..|bs| - 1], w, total);
    }
  }

  lemma {:induction false} EqualWeightsAddUp(weights: seq<real>, w: real)
    requires w > 0.0 && forall i :: 0 <= i < |weights| ==> weights[i] == w
    ensures if weights == [] then TotalWeight(weights) == 0.0 else TotalWeight(weights) > 0.0
  {
    if weights != [] {
      EqualWeightsAddUp(weights[..|weights| - 1], w);
    }
  }

  /**
   Weighted fusion of at least one branch, all with the same positive weight, is never refused
   and returns the same points in the same order as plain fusion.
   */
  lemma EqualWeightsAgreeWithPlain(branches: seq<seq<nat>>, bs: seq<Branch>, w: real, k: nat, limit: nat,
                                   plain: seq<Hit>, weighted: Result<seq<Hit>, FusionError>)
    requires k > 0 && w > 0.0 && branches != [] && |bs| == |branches|
    requires forall i :: 0 <= i < |bs| ==> bs[i] == Branch(branches[i], w)
    requires IsPlainFusion(plain, branches, k, limit) && IsWeightedFusion(weighted, bs, k, limit)
    ensures weighted.Ok? && Ids(weighted.value) == Ids(plain)
  {
    hide IsRanking, ScoresOf, Normalized, TotalWeight;
    EqualWeightsAddUp(Weights(bs, WeightOf), w);
    assert WeightError(bs) == None;
    if limit > 0 {
      var total := TotalWeight(Weights(bs, WeightOf));
      var m :| ScoresOf(m, Unweighted(branches), k) && IsRanking(plain, m, limit);
      var n :| ScoresOf(n, Normalized(bs, total), k) && IsRanking(weighted.value, n, limit);
      EqualWeightsScale(branches, bs, w, total, k, m, n);
      ScaledRanking(w / total, m, n, plain, weighted.value, limit);
    }
  }

  lemma EqualWeightsScale(branches: seq<seq<nat>>, bs: seq<Branch>, w: real, total: real, k: nat,
                          m: map<nat, real>, n: map<nat, real>)
    requires k > 0 && w > 0.0 && total > 0.0 && |bs| == |branches|
    requires forall i :: 0 <= i < |bs| ==> bs[i] == Branch(branches[i], w)
    requires ScoresOf(m, Unweighted(branches), k) && ScoresOf(n, Normalized(bs, total), k)
    ensures w / total > 0.0 && m.Keys == n.Keys && forall x :: x in m ==> n[x] == Times(w / total, m[x])
  {
    hide Times, Fused, Present;
    QuotientIsPositive(w, total);
    EqualWeightsNormalize(branches, bs, w, total);
    forall x ensures (x in n <==> x in m) && (x in n ==> n[x] == Times(w / total, m[x])) {
      FusedScales(branches, Normalized(bs, total), w / total, k, x);
    }
  }

  lemma QuotientIsPositive(a: real, b: real)
    requires a > 0.0 && b > 0.0
    ensures a / b > 0.0
  {
  }
}
