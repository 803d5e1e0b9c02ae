/**
 Weighted fusion of min-max normalized branch scores (crates/context-hybrid/src/lib.rs).

 Scores and weights are exact reals, so the non-finite cases do not arise.
 */
module ScoreFusion {
  import opened FusedScores
  import opened Metrics
  import opened Ranking
  import opened Wrappers

  datatype Candidate = Candidate(id: nat, score: Option<real>)

  datatype Branch = Branch(candidates: seq<Candidate>, weight: real, order: ScoreOrder)

  datatype FusionError = InvalidWeight | ZeroTotalWeight | MissingScore

  // ---------- one branch ----------

  predicate Scored(cs: seq<Candidate>) {
    forall i :: 0 <= i < |cs| ==> cs[i].score.Some?
  }

  function Lesser(a: real, b: real): real { if a < b then a else b }

  function Greater(a: real, b: real): real { if a > b then a else b }

  function Low(cs: seq<Candidate>): (r: real)
    requires Scored(cs) && cs != []
    ensures forall i :: 0 <= i < |cs| ==> r <= cs[i].score.value
  {
    var k := |cs| - 1;
    if k == 0 then cs[k].score.value else Lesser(Low(cs[..k]), cs[k].score.value)
  }

  function High(cs: seq<Candidate>): (r: real)
    requires Scored(cs) && cs != []
    ensures forall i :: 0 <= i < |cs| ==> r >= cs[i].score.value
  {
    var k := |cs| - 1;
    if k == 0 then cs[k].score.value else Greater(High(cs[..k]), cs[k].score.value)
  }

  function Quotient(u: real, v: real): real
    requires v != 0.0
  {
    u / v
  }

  /** Position of a score between the worst (0) and the best (1) of its branch. */
  function Position(order: ScoreOrder, low: real, high: real, s: real): real {
    if low == high then 1.0
    else if order == HigherIsBetter then Quotient(s - low, high - low)
    else Quotient(high - s, high - low)
  }

  function Norm(b: Branch, i: nat): real
    requires Scored(b.candidates) && i < |b.candidates|
  {
    Position(b.order, Low(b.candidates), High(b.candidates), b.candidates[i].score.value)
  }

  /** The best position of a point among the first n candidates. */
  function Best(b: Branch, n: nat, x: nat): (r: Option<real>)
    requires Scored(b.candidates) && n <= |b.candidates|
    ensures r.Some? ==> exists i :: 0 <= i < n && b.candidates[i].id == x && r.value == Norm(b, i)
    ensures forall i :: 0 <= i < n && b.candidates[i].id == x ==> r.Some? && Norm(b, i) <= r.value
  {
    if n == 0 then
      None
    else
      var before := Best(b, n - 1, x);
      if b.candidates[n - 1].id != x then before
      else if before.None? then Some(Norm(b, n - 1))
      else Some(Greater(before.value, Norm(b, n - 1)))
  }

  // ---------- all branches ----------

  function WeightOf(b: Branch): real { b.weight }

  predicate Usable(b: Branch) {
    b.weight > 0.0 ==> Scored(b.candidates)
  }

  predicate AllUsable(bs: seq<Branch>) {
    forall i :: 0 <= i < |bs| ==> Usable(bs[i])
  }

  /** What a branch gives a point, if anything. */
  function Share(b: Branch, total: real, x: nat): Option<real>
    requires Usable(b) && total > 0.0
  {
    if b.weight <= 0.0 then None
    else match Best(b, |b.candidates|, x)
      case None => None
      case Some(v) => Some(Times(v, b.weight / total))
  }

  predicate Present(bs: seq<Branch>, total: real, x: nat)
    requires AllUsable(bs) && total > 0.0
  {
    exists i :: 0 <= i < |bs| && Share(bs[i], total, x).Some?
  }

  function ValueOf(o: Option<real>): real {
    if o.Some? then o.value else 0.0
  }

  function Fused(bs: seq<Branch>, total: real, x: nat): real
    requires AllUsable(bs) && total > 0.0
  {
    if bs == [] then 0.0 else Fused(bs[..|bs| - 1], total, x) + ValueOf(Share(bs[|bs| - 1], total, x))
  }

  ghost predicate ScoresOf(m: map<nat, real>, bs: seq<Branch>, total: real)
    requires AllUsable(bs) && total > 0.0
  {
    forall x :: (x in m <==> Present(bs, total, x)) && (x in m ==> m[x] == Fused(bs, total, x))
  }

  function FusionFailure(bs: seq<Branch>): Option<FusionError> {
    if exists i :: 0 <= i < |bs| && bs[i].weight < 0.0 then Some(InvalidWeight)
    else if TotalWeight(Weights(bs, WeightOf)) <= 0.0 then Some(ZeroTotalWeight)
    else if !AllUsable(bs) then Some(MissingScore)
    else None
  }

  /** What fusion returns: nothing for a zero limit, else the first error, else the ranking of the fused scores. */
  ghost predicate IsFusion(r: Result<seq<Hit>, FusionError>, bs: seq<Branch>, limit: nat) {
    if limit == 0 then
      r == Ok([])
    else
      match FusionFailure(bs)
      case Some(e) => r == Err(e)
      case None =>
        r.Ok? && exists m :: ScoresOf(m, bs, TotalWeight(Weights(bs, WeightOf))) && IsRanking(r.value, m, limit)
  }

  // ---------- the code's scaled normalization ----------

  lemma QuotientIs(u: real, v: real, r: real)
    requires v != 0.0 && Times(r, v) == u
    ensures Quotient(u, v) == r
  {
  }

  lemma QuotientTimes(u: real, v: real)
    requires v != 0.0
    ensures Times(Quotient(u, v), v) == u
  {
  }

  lemma TimesRegroups(a: real, b: real, c: real)
    ensures Times(a, Times(b, c)) == Times(b, Times(a, c))
  {
  }

  lemma ProductNotZero(c: real, v: real)
    requires c != 0.0 && v != 0.0
    ensures Times(c, v) != 0.0
  {
    if c > 0.0 && v > 0.0 {
      ProductIsPositive(c, v);
    } else if c < 0.0 && v < 0.0 {
      ProductIsPositive(-c, -v);
      ProductOfNegated(c, v);
    } else if c < 0.0 {
      ProductIsPositive(-c, v);
      assert Times(-c, v) == -Times(c, v);
    } else {
      ProductIsPositive(c, -v);
      assert Times(c, -v) == -Times(c, v);
    }
  }

  /** A common factor cancels. */
  lemma QuotientCancels(c: real, u: real, v: real)
    requires c != 0.0 && v != 0.0
    ensures Times(c, v) != 0.0 && Quotient(Times(c, u), Times(c, v)) == Quotient(u, v)
  {
    hide Times, Quotient;
    ProductNotZero(c, v);
    var r := Quotient(u, v);
    QuotientTimes(u, v);
    TimesRegroups(r, c, v);
    QuotientIs(Times(c, u), Times(c, v), r);
  }

  lemma DivisionIsTimes(s: real, scale: real)
    requires scale != 0.0
    ensures s / scale == Times(1.0 / scale, s)
  {
  }

  lemma TimesDifference(c: real, u: real, v: real)
    ensures Times(c, u - v) == Times(c, u) - Times(c, v)
  {
  }

  /** Dividing all scores by the scale first does not change the quotient of their differences. */
  lemma ScaledQuotient(a: real, b: real, low: real, high: real, scale: real)
    requires scale > 0.0 && low < high
    ensures high / scale - low / scale != 0.0
    ensures Quotient(a / scale - b / scale, high / scale - low / scale) == Quotient(a - b, high - low)
  {
    hide Times, Quotient;
    var c := 1.0 / scale;
    DivisionIsTimes(a, scale);
    DivisionIsTimes(b, scale);
    DivisionIsTimes(low, scale);
    DivisionIsTimes(high, scale);
    TimesDifference(c, a, b);
    TimesDifference(c, high, low);
    QuotientCancels(c, a - b, high - low);
  }

  lemma QuotientInUnit(u: real, v: real)
    requires 0.0 <= u <= v && v > 0.0
    ensures 0.0 <= Quotient(u, v) <= 1.0
  {
    var r := Quotient(u, v);
    assert r * v == u;
  }

  lemma PositionInUnit(order: ScoreOrder, low: real, high: real, s: real)
    requires low <= s <= high
    ensures 0.0 <= Position(order, low, high, s) <= 1.0
  {
    hide Quotient;
    if low < high {
      QuotientInUnit(s - low, high - low);
      QuotientInUnit(high - s, high - low);
    }
  }

  function Abs(x: real): real { if x < 0.0 then -x else x }

  function Clamp(x: real): real { if x < 0.0 then 0.0 else if x > 1.0 then 1.0 else x }

  /** Normalizes one score the way the code does: scaled by the largest magnitude, then clamped. */
  method Normalize(order: ScoreOrder, low: real, high: real, s: real) returns (r: real)
    requires low <= s <= high
    ensures r == Position(order, low, high, s)
    ensures low == high ==> r == 1.0
    ensures low < high ==> Times(r, high - low) == if order == HigherIsBetter then s - low else high - s
  {
    hide Quotient, Times;
    var scale := Greater(Abs(low), Abs(high));
    if low == high {
      return 1.0;
    }
    ScaledQuotient(s, low, low, high, scale);
    ScaledQuotient(high, s, low, high, scale);
    PositionInUnit(order, low, high, s);
    QuotientTimes(s - low, high - low);
    QuotientTimes(high - s, high - low);
    var range := high / scale - low / scale;
    var normalized := if order == HigherIsBetter then Quotient(s / scale - low / scale, range)
      else Quotient(high / scale - s / scale, range);
    r := Clamp(normalized);
  }

  // ---------- one branch at a time ----------

  /** The range of the scores of a branch, or nothing when a score is missing. */
  method ScanRange(cs: seq<Candidate>) returns (r: Option<(real, real)>)
    requires cs != []
    ensures r.Some? <==> Scored(cs)
    ensures r.Some? ==> r.value == (Low(cs), High(cs))
  {
    if cs[0].score.None? {
      return None;
    }
    var low, high := cs[0].score.value, cs[0].score.value;
    for i := 1 to |cs|
      invariant Scored(cs[..i]) && low == Low(cs[..i]) && high == High(cs[..i])
    {
      if cs[i].score.None? {
        return None;
      }
      assert cs[..i + 1][..i] == cs[..i];
      low := Lesser(low, cs[i].score.value);
      high := Greater(high, cs[i].score.value);
    }
    assert cs[..|cs|] == cs;
    return Some((low, high));
  }

  ghost predicate HoldsBest(m: map<nat, real>, b: Branch, n: nat)
    requires Scored(b.candidates) && n <= |b.candidates|
  {
    forall x :: (x in m <==> Best(b, n, x).Some?) && (x in m ==> m[x] == Best(b, n, x).value)
  }

  method BestInBranch(b: Branch, low: real, high: real) returns (best: map<nat, real>)
    requires Scored(b.candidates) && b.candidates != [] && low == Low(b.candidates) && high == High(b.candidates)
    ensures HoldsBest(best, b, |b.candidates|)
  {
    hide Low, High, Position;
    best := map[];
    for i := 0 to |b.candidates|
      invariant HoldsBest(best, b, i)
    {
      var c := b.candidates[i];
      var normalized := Normalize(b.order, low, high, c.score.value);
      assert normalized == Norm(b, i);
      BestStep(best, b, i);
      best := best[c.id := if c.id in best then Greater(best[c.id], normalized) else normalized];
    }
  }

  lemma BestStep(best: map<nat, real>, b: Branch, i: nat)
    requires Scored(b.candidates) && i < |b.candidates| && HoldsBest(best, b, i)
    ensures var x := b.candidates[i].id;
            HoldsBest(best[x := if x in best then Greater(best[x], Norm(b, i)) else Norm(b, i)], b, i + 1)
  {
    hide Norm, Greater;
    var x := b.candidates[i].id;
    var next := best[x := if x in best then Greater(best[x], Norm(b, i)) else Norm(b, i)];
    forall y ensures (y in next <==> Best(b, i + 1, y).Some?) && (y in next ==> next[y] == Best(b, i + 1, y).value) {
      assert y in best <==> Best(b, i, y).Some?;
    }
  }

  /** Adds what a branch gives to every point it holds. */
  method AddBest(m: map<nat, real>, best: map<nat, real>, weight: real) returns (scores: map<nat, real>)
    ensures forall x :: x in scores <==> x in m || x in best
    ensures forall x :: x in scores ==> scores[x] == Get(m, x) + if x in best then Times(best[x], weight) else 0.0
  {
    hide Times;
    scores := m;
    var keys := best.Keys;
    while keys != {}
      invariant keys <= best.Keys
      invariant forall x :: x in scores <==> x in m || x in best.Keys - keys
      invariant forall x :: x in scores ==>
                  scores[x] == Get(m, x) + if x in best.Keys - keys then Times(best[x], weight) else 0.0
      decreases |keys|
    {
      var x :| x in keys;
      scores := scores[x := Get(scores, x) + Times(best[x], weight)];
      keys := keys - {x};
    }
  }

  ghost predicate Added(m: map<nat, real>, scores: map<nat, real>, b: Branch, total: real)
    requires Usable(b) && total > 0.0
  {
    forall x :: (x in scores <==> x in m || Share(b, total, x).Some?)
      && (x in scores ==> scores[x] == Get(m, x) + ValueOf(Share(b, total, x)))
  }

  /** One branch: skipped without weight or candidates, refused when a score is missing. */
  method AddBranch(m: map<nat, real>, b: Branch, total: real) returns (r: Option<map<nat, real>>)
    requires total > 0.0
    ensures r.Some? <==> Usable(b)
    ensures r.Some? ==> Added(m, r.value, b, total)
  {
    hide Best, Norm, Times, Low, High;
    if b.weight <= 0.0 {
      return Some(m);
    }
    if b.candidates == [] {
      NoBest(b);
      return Some(m);
    }
    var range := ScanRange(b.candidates);
    if range.None? {
      return None;
    }
    var best := BestInBranch(b, range.value.0, range.value.1);
    var scores := AddBest(m, best, b.weight / total);
    AddedBest(m, best, scores, b, total);
    return Some(scores);
  }

  lemma NoBest(b: Branch)
    requires b.candidates == []
    ensures forall x :: Best(b, 0, x) == None
  {
  }

  lemma AddedBest(m: map<nat, real>, best: map<nat, real>, scores: map<nat, real>, b: Branch, total: real)
    requires b.weight > 0.0 && Scored(b.candidates) && total > 0.0 && HoldsBest(best, b, |b.candidates|)
    requires forall x :: x in scores <==> x in m || x in best
    requires forall x :: x in scores ==>
               scores[x] == Get(m, x) + if x in best then Times(best[x], b.weight / total) else 0.0
    ensures Added(m, scores, b, total)
  {
    hide Best, Norm, Times;
    forall x ensures (x in scores <==> x in m || Share(b, total, x).Some?)
      && (x in scores ==> scores[x] == Get(m, x) + ValueOf(Share(b, total, x)))
    {
      assert x in best <==> Best(b, |b.candidates|, x).Some?;
    }
  }

  lemma PresentStep(bs: seq<Branch>, i: nat, total: real, x: nat)
    requires i < |bs| && AllUsable(bs[..i + 1]) && total > 0.0
    ensures AllUsable(bs[..i]) && Usable(bs[i])
    ensures Present(bs[..i + 1], total, x) <==> Present(bs[..i], total, x) || Share(bs[i], total, x).Some?
  {
    hide Share, Usable;
    var before, after := bs[..i], bs[..i + 1];
    assert after[i] == bs[i];
    assert forall j :: 0 <= j < i ==> before[j] == after[j];
    if Present(before, total, x) {
      var j :| 0 <= j < |before| && Share(before[j], total, x).Some?;
      assert Share(after[j], total, x).Some?;
    }
    if Share(bs[i], total, x).Some? {
      assert Share(after[i], total, x).Some?;
    }
    if Present(after, total, x) {
      var j :| 0 <= j < |after| && Share(after[j], total, x).Some?;
      assert j < i ==> Share(before[j], total, x).Some?;
    }
  }

  lemma {:induction false} AbsentScoresZero(bs: seq<Branch>, total: real, x: nat)
    requires AllUsable(bs) && total > 0.0 && !Present(bs, total, x)
    ensures Fused(bs, total, x) == 0.0
  {
    hide Share, Usable;
    if bs != [] {
      var n := |bs| - 1;
      assert bs[..n + 1] == bs;
      PresentStep(bs, n, total, x);
      AbsentScoresZero(bs[..n], total, x);
    }
  }

  lemma AddedScores(m: map<nat, real>, scores: map<nat, real>, bs: seq<Branch>, i: nat, total: real)
    requires i < |bs| && total > 0.0 && AllUsable(bs[..i + 1]) && AllUsable(bs[..i]) && Usable(bs[i])
    requires ScoresOf(m, bs[..i], total) && Added(m, scores, bs[i], total)
    ensures ScoresOf(scores, bs[..i + 1], total)
  {
    hide Share, Usable, Present;
    var before, after := bs[..i], bs[..i + 1];
    assert after[..i] == before && after[i] == bs[i];
    forall x ensures (x in scores <==> Present(after, total, x))
      && (x in scores ==> scores[x] == Fused(after, total, x)) {
      assert x in scores <==> x in m || Share(bs[i], total, x).Some?;
      PresentStep(bs, i, total, x);
      if x !in m {
        AbsentScoresZero(before, total, x);
      }
    }
  }

  /** Every point scores the weighted sum of its best positions. */
  method WeightedFusion(bs: seq<Branch>, limit: nat) returns (r: Result<seq<Hit>, FusionError>)
    ensures IsFusion(r, bs, limit)
  {
    hide ScoresOf, Added, IsRanking, Usable, TotalWeight, Weights;
    if limit == 0 {
      return Ok([]);
    }
    if exists i :: 0 <= i < |bs| && bs[i].weight < 0.0 {
      return Err(InvalidWeight);
    }
    var total := SumWeights(Weights(bs, WeightOf));
    if total <= 0.0 {
      return Err(ZeroTotalWeight);
    }
    var m: map<nat, real> := map[];
    NoScores(bs, total);
    for i := 0 to |bs|
      invariant AllUsable(bs[..i]) && ScoresOf(m, bs[..i], total)
    {
      var next := AddBranch(m, bs[i], total);
      if next.None? {
        assert !Usable(bs[i]);
        return Err(MissingScore);
      }
      assert forall j :: 0 <= j < i ==> bs[..i + 1][j] == bs[..i][j];
      AddedScores(m, next.value, bs, i, total);
      m := next.value;
    }
    assert bs[..|bs|] == bs;
    var ranked := RankScores(m, limit);
    return Ok(ranked);
  }

  lemma NoScores(bs: seq<Branch>, total: real)
    requires total > 0.0
    ensures AllUsable(bs[..0]) && ScoresOf(map[], bs[..0], total)
  {
  }

  // ---------- changes of a branch that fusion does not see ----------

  /** The same candidates with the same positions. */
  ghost predicate Alike(a: Branch, b: Branch) {
    && a.weight == b.weight && |a.candidates| == |b.candidates|
    && (forall i :: 0 <= i < |a.candidates| ==>
          a.candidates[i].id == b.candidates[i].id && (a.candidates[i].score.Some? <==> b.candidates[i].score.Some?))
    && (Scored(a.candidates) ==> forall i :: 0 <= i < |a.candidates| ==> Norm(a, i) == Norm(b, i))
  }

  lemma {:induction false} AlikeBest(a: Branch, b: Branch, n: nat, x: nat)
    requires Alike(a, b) && Scored(a.candidates) && n <= |a.candidates|
    ensures Best(a, n, x) == Best(b, n, x)
  {
    hide Norm;
    if n > 0 {
      AlikeBest(a, b, n - 1, x);
    }
  }

  lemma AlikeShare(a: Branch, b: Branch, total: real, x: nat)
    requires Alike(a, b) && total > 0.0
    ensures Usable(a) <==> Usable(b)
    ensures Usable(a) ==> Share(a, total, x) == Share(b, total, x)
  {
    hide Norm, Best, Times;
    if Usable(a) && a.weight > 0.0 {
      AlikeBest(a, b, |a.candidates|, x);
    }
  }

  /** Branch by branch alike. */
  ghost predicate AllAlike(cs: seq<Branch>, bs: seq<Branch>) {
    |cs| == |bs| && forall i :: 0 <= i < |cs| ==> Alike(cs[i], bs[i])
  }

  lemma AlikeWeights(cs: seq<Branch>, bs: seq<Branch>)
    requires AllAlike(cs, bs)
    ensures Weights(cs, WeightOf) == Weights(bs, WeightOf)
  {
    hide Norm;
  }

  lemma {:induction false} AlikeFused(cs: seq<Branch>, bs: seq<Branch>, total: real, x: nat)
    requires AllAlike(cs, bs) && AllUsable(cs) && AllUsable(bs) && total > 0.0
    ensures Fused(cs, total, x) == Fused(bs, total, x)
    ensures Present(cs, total, x) <==> Present(bs, total, x)
  {
    hide Alike, Usable, Share;
    forall i | 0 <= i < |bs| ensures Share(cs[i], total, x) == Share(bs[i], total, x) {
      AlikeShare(cs[i], bs[i], total, x);
    }
    if bs != [] {
      AlikeFused(cs[..|bs| - 1], bs[..|bs| - 1], total, x);
    }
  }

  lemma AlikeFailure(cs: seq<Branch>, bs: seq<Branch>)
    requires AllAlike(cs, bs)
    ensures FusionFailure(cs) == FusionFailure(bs)
    ensures AllUsable(cs) <==> AllUsable(bs)
  {
    hide Norm, TotalWeight;
    AlikeWeights(cs, bs);
    forall i | 0 <= i < |bs| ensures cs[i].weight == bs[i].weight && (Usable(cs[i]) <==> Usable(bs[i])) {
      AlikeShare(cs[i], bs[i], 1.0, 0);
    }
  }

  /** Fusion of alike branches fails with the same error or returns the same points with the same scores. */
  lemma AlikeFusion(cs: seq<Branch>, bs: seq<Branch>, limit: nat, r: Result<seq<Hit>, FusionError>,
                    s: Result<seq<Hit>, FusionError>)
    requires AllAlike(cs, bs) && IsFusion(r, cs, limit) && IsFusion(s, bs, limit)
    ensures r == s
  {
    hide Alike, Usable, IsRanking, TotalWeight, ScoresOf;
    AlikeFailure(cs, bs);
    if limit > 0 && FusionFailure(bs).None? {
      var m :| ScoresOf(m, cs, TotalWeight(Weights(cs, WeightOf))) && IsRanking(r.value, m, limit);
      var n :| ScoresOf(n, bs, TotalWeight(Weights(bs, WeightOf))) && IsRanking(s.value, n, limit);
      AlikeScores(cs, bs, m, n);
      RankingIsUnique(r.value, s.value, m, limit);
    }
  }

  lemma AlikeScores(cs: seq<Branch>, bs: seq<Branch>, m: map<nat, real>, n: map<nat, real>)
    requires AllAlike(cs, bs) && AllUsable(cs) && AllUsable(bs) && TotalWeight(Weights(cs, WeightOf)) > 0.0
            && TotalWeight(Weights(bs, WeightOf)) > 0.0
    requires ScoresOf(m, cs, TotalWeight(Weights(cs, WeightOf))) && ScoresOf(n, bs, TotalWeight(Weights(bs, WeightOf)))
    ensures m == n
  {
    hide Alike, Usable, TotalWeight, Fused, Present;
    AlikeWeights(cs, bs);
    forall x ensures (x in m <==> x in n) && (x in m ==> m[x] == n[x]) {
      AlikeFused(cs, bs, TotalWeight(Weights(bs, WeightOf)), x);
    }
  }

  // ---------- which changes those are ----------

  function Affine(score: Option<real>, a: real, c: real): Option<real> {
    if score.Some? then Some(Times(a, score.value) + c) else None
  }

  function Rescored(cs: seq<Candidate>, a: real, c: real): (r: seq<Candidate>)
    ensures |r| == |cs|
    ensures forall i :: 0 <= i < |cs| ==> r[i] == Candidate(cs[i].id, Affine(cs[i].score, a, c))
  {
    seq(|cs|, i requires 0 <= i < |cs| => Candidate(cs[i].id, Affine(cs[i].score, a, c)))
  }

  lemma {:induction false} RescoredRange(cs: seq<Candidate>, a: real, c: real)
    requires Scored(cs) && cs != [] && a > 0.0
    ensures Low(Rescored(cs, a, c)) == Times(a, Low(cs)) + c
    ensures High(Rescored(cs, a, c)) == Times(a, High(cs)) + c
  {
    hide Times;
    var k := |cs| - 1;
    var r := Rescored(cs, a, c);
    if k > 0 {
      RescoredRange(cs[..k], a, c);
      assert r[..k] == Rescored(cs[..k], a, c);
      ScalingKeepsOrder(a, Low(cs[..k]), cs[k].score.value);
      ScalingKeepsOrder(a, cs[k].score.value, High(cs[..k]));
      ScalingKeepsOrder(a, High(cs[..k]), cs[k].score.value);
    }
  }

  lemma PositionOfAffine(order: ScoreOrder, low: real, high: real, s: real, a: real, c: real)
    requires a > 0.0
    ensures Position(order, Times(a, low) + c, Times(a, high) + c, Times(a, s) + c) == Position(order, low, high, s)
  {
    hide Times, Quotient;
    ScalingKeepsOrder(a, low, high);
    if low != high {
      TimesDifference(a, high, low);
      TimesDifference(a, s, low);
      TimesDifference(a, high, s);
      QuotientCancels(a, s - low, high - low);
      QuotientCancels(a, high - s, high - low);
    }
  }

  /** A positive affine change of all scores of a branch. */
  lemma AffineIsAlike(b: Branch, a: real, c: real)
    requires a > 0.0
    ensures Alike(Branch(Rescored(b.candidates, a, c), b.weight, b.order), b)
  {
    hide Times, Position, Low, High;
    var changed := Branch(Rescored(b.candidates, a, c), b.weight, b.order);
    if Scored(changed.candidates) {
      assert forall i :: 0 <= i < |b.candidates| ==> changed.candidates[i].score.Some? ==> b.candidates[i].score.Some?;
      assert Scored(b.candidates);
      forall i | 0 <= i < |b.candidates| ensures Norm(changed, i) == Norm(b, i) {
        RescoredRange(b.candidates, a, c);
        PositionOfAffine(b.order, Low(b.candidates), High(b.candidates), b.candidates[i].score.value, a, c);
      }
    }
  }

  function Flip(order: ScoreOrder): ScoreOrder {
    if order == HigherIsBetter then LowerIsBetter else HigherIsBetter
  }

  function Minus(score: Option<real>): Option<real> {
    if score.Some? then Some(-score.value) else None
  }

  function Negated(cs: seq<Candidate>): (r: seq<Candidate>)
    ensures |r| == |cs|
    ensures forall i :: 0 <= i < |cs| ==> r[i] == Candidate(cs[i].id, Minus(cs[i].score))
  {
    seq(|cs|, i requires 0 <= i < |cs| => Candidate(cs[i].id, Minus(cs[i].score)))
  }

  lemma LesserOfNegated(a: real, b: real)
    ensures Lesser(-a, -b) == -Greater(a, b) && Greater(-a, -b) == -Lesser(a, b)
  {
  }

  lemma {:induction false} NegatedRange(cs: seq<Candidate>)
    requires Scored(cs) && cs != []
    ensures Low(Negated(cs)) == -High(cs) && High(Negated(cs)) == -Low(cs)
  {
    hide Negated, Lesser, Greater;
    var k := |cs| - 1;
    if k > 0 {
      NegatedRange(cs[..k]);
      assert Negated(cs)[..k] == Negated(cs[..k]);
      LesserOfNegated(High(cs[..k]), cs[k].score.value);
      LesserOfNegated(Low(cs[..k]), cs[k].score.value);
    }
  }

  lemma PositionOfNegated(order: ScoreOrder, low: real, high: real, s: real)
    ensures Position(Flip(order), -high, -low, -s) == Position(order, low, high, s)
  {
    hide Quotient;
    assert -low - -high == high - low && -s - -high == high - s && -low - -s == s - low;
  }

  /** Negating all scores of a branch and flipping its order. */
  lemma NegationIsAlike(b: Branch)
    ensures Alike(Branch(Negated(b.candidates), b.weight, Flip(b.order)), b)
  {
    hide Position, Low, High, Flip;
    var changed := Branch(Negated(b.candidates), b.weight, Flip(b.order));
    if Scored(changed.candidates) {
      assert forall i :: 0 <= i < |b.candidates| ==> changed.candidates[i].score.Some? ==> b.candidates[i].score.Some?;
      assert Scored(b.candidates);
      forall i | 0 <= i < |b.candidates| ensures Norm(changed, i) == Norm(b, i) {
        NegatedRange(b.candidates);
        PositionOfNegated(b.order, Low(b.candidates), High(b.candidates), b.candidates[i].score.value);
      }
    }
  }

  lemma SelfIsAlike(b: Branch)
    ensures Alike(b, b)
  {
  }

  lemma ChangedBranchIsAlike(bs: seq<Branch>, i: nat, b: Branch)
    requires i < |bs| && Alike(b, bs[i])
    ensures AllAlike(bs[i := b], bs)
  {
    hide Alike;
    forall j | 0 <= j < |bs| ensures Alike(bs[j], bs[j]) {
      SelfIsAlike(bs[j]);
    }
  }

  /** A positive affine change of the scores of any one branch does not change the result of fusion, errors included. */
  lemma AffineChangeIsInvisible(bs: seq<Branch>, i: nat, a: real, c: real, limit: nat,
                                r: Result<seq<Hit>, FusionError>, s: Result<seq<Hit>, FusionError>)
    requires i < |bs| && a > 0.0
    requires IsFusion(r, bs[i := Branch(Rescored(bs[i].candidates, a, c), bs[i].weight, bs[i].order)], limit)
    requires IsFusion(s, bs, limit)
    ensures r == s
  {
    hide Alike, IsFusion, Rescored;
    var changed := Branch(Rescored(bs[i].candidates, a, c), bs[i].weight, bs[i].order);
    AffineIsAlike(bs[i], a, c);
    ChangedBranchIsAlike(bs, i, changed);
    AlikeFusion(bs[i := changed], bs, limit, r, s);
  }

  /** Neither does negating the scores of a branch and flipping its order. */
  lemma NegationIsInvisible(bs: seq<Branch>, i: nat, limit: nat,
                            r: Result<seq<Hit>, FusionError>, s: Result<seq<Hit>, FusionError>)
    requires i < |bs|
    requires IsFusion(r, bs[i := Branch(Negated(bs[i].candidates), bs[i].weight, Flip(bs[i].order))], limit)
    requires IsFusion(s, bs, limit)
    ensures r == s
  {
    hide Alike, IsFusion, Negated, Flip;
    var changed := Branch(Negated(bs[i].candidates), bs[i].weight, Flip(bs[i].order));
    NegationIsAlike(bs[i]);
    ChangedBranchIsAlike(bs, i, changed);
    AlikeFusion(bs[i := changed], bs, limit, r, s);
  }
}
