/**
 Deterministic clustering under the Hamming metric (crates/context-build/src/external.rs).

 Vectors have at most 65,535 dimensions, so that the 16-bit counters of the metric cannot
 overflow; the vector policy allows 16,000. The sampling hash, already mixed with the
 seed, is a parameter.
 */
module Clustering {
  import opened Ranking
  import opened SparseMetric
  import opened Wrappers

  type Vector = seq<real>

  datatype TrainingError =
    | EmptyInput
    | ZeroDimensions
    | InvalidClusterCount
    | ZeroIterations
    | InvalidVector
    | InvalidWorkerCount

  datatype Clusters = Clusters(centroids: seq<Vector>, assignments: seq<nat>)

  predicate IsBinary(v: Vector) {
    forall k :: 0 <= k < |v| ==> IsBit(v[k])
  }

  /** Vectors of one width that the metric's counters can hold. */
  predicate Regular(vs: seq<Vector>, d: nat) {
    d <= U16_MAX && forall i :: 0 <= i < |vs| ==> |vs[i]| == d
  }

  predicate AllBinary(vs: seq<Vector>) {
    forall i :: 0 <= i < |vs| ==> IsBinary(vs[i])
  }

  function Distance(v: Vector, c: Vector): nat
    requires |v| == |c|
  {
    Count(Differ, v, c)
  }

  // ---------- sampling ----------

  function SampleHits(n: nat, hash: nat -> nat): (r: seq<Hit>)
    ensures |r| == n && forall i :: 0 <= i < n ==> r[i] == Hit(i, hash(i) as real)
  {
    seq(n, i requires 0 <= i < n => Hit(i, hash(i) as real))
  }

  /** The indexes with the smallest (hash, index). */
  function Sample(n: nat, requested: nat, hash: nat -> nat): seq<nat> {
    Ids(TakeTop(LowerIsBetter, SampleHits(n, hash), Ranking.Min(requested, n)))
  }

  /** Distinct indexes of the population, as many as requested or available. */
  lemma SampleIsDistinct(n: nat, requested: nat, hash: nat -> nat)
    ensures |Sample(n, requested, hash)| == Ranking.Min(requested, n)
    ensures forall i :: 0 <= i < |Sample(n, requested, hash)| ==> Sample(n, requested, hash)[i] < n
    ensures Distinct(Sample(n, requested, hash))
  {
    hide TakeTop;
    var all := SampleHits(n, hash);
    assert Distinct(all);
    TakeTopIsTop(LowerIsBetter, all, Ranking.Min(requested, n));
    TakeTopSubset(LowerIsBetter, all, Ranking.Min(requested, n));
    var top := TakeTop(LowerIsBetter, all, Ranking.Min(requested, n));
    forall i | 0 <= i < |top| ensures top[i] == Hit(top[i].id, hash(top[i].id) as real) && top[i].id < n {
      assert top[i] in all;
    }
    forall i, j | 0 <= i < j < |top| ensures top[i].id != top[j].id {
      assert top[i] != top[j];
    }
  }

  /** The sample holds the indexes of smallest hash, smaller indexes first among equal hashes, in that order. */
  lemma SampleIsSmallest(n: nat, requested: nat, hash: nat -> nat)
    ensures var s := Sample(n, requested, hash);
            && (forall i, j :: 0 <= i < j < |s| ==>
                  hash(s[i]) < hash(s[j]) || (hash(s[i]) == hash(s[j]) && s[i] < s[j]))
            && (forall i, x :: 0 <= i < |s| && 0 <= x < n && x !in s ==>
                  hash(s[i]) < hash(x) || (hash(s[i]) == hash(x) && s[i] < x))
  {
    hide TakeTop;
    var k := Ranking.Min(requested, n);
    var all, s := SampleHits(n, hash), Sample(n, requested, hash);
    var top := TakeTop(LowerIsBetter, all, k);
    assert Distinct(all);
    TakeTopSubset(LowerIsBetter, all, k);
    BestComeFirst(LowerIsBetter, all, k);
    forall i | 0 <= i < |top| ensures top[i] == Hit(s[i], hash(s[i]) as real) {
      assert top[i] in all;
    }
    forall i, x | 0 <= i < |s| && 0 <= x < n && x !in s
      ensures hash(s[i]) < hash(x) || (hash(s[i]) == hash(x) && s[i] < x)
    {
      assert all[x] in all;
      assert forall j :: 0 <= j < |top| ==> s[j] != x;
      assert Listed(LowerIsBetter, top[i], all[x]);
    }
  }

  // ---------- assignment ----------

  /** The closest centroid, the first one among equals. */
  function Nearest(v: Vector, cs: seq<Vector>): (r: nat)
    requires cs != [] && forall i :: 0 <= i < |cs| ==> |cs[i]| == |v|
    ensures r < |cs|
    ensures forall i :: 0 <= i < |cs| ==> Distance(v, cs[r]) <= Distance(v, cs[i])
    ensures forall i :: 0 <= i < r ==> Distance(v, cs[r]) < Distance(v, cs[i])
  {
    var k := |cs| - 1;
    if k == 0 then
      0
    else
      var best := Nearest(v, cs[..k]);
      if Distance(v, cs[k]) < Distance(v, cs[best]) then k else best
  }

  function Assign(vs: seq<Vector>, cs: seq<Vector>, d: nat): (r: seq<nat>)
    requires Regular(vs, d) && Regular(cs, d) && cs != []
    ensures |r| == |vs| && forall i :: 0 <= i < |vs| ==> r[i] == Nearest(vs[i], cs)
  {
    seq(|vs|, i requires 0 <= i < |vs| => Nearest(vs[i], cs))
  }

  predicate SameWidth(v: Vector, cs: seq<Vector>) {
    forall i :: 0 <= i < |cs| ==> |cs[i]| == |v|
  }

  method NearestMetricCentroid(v: Vector, cs: seq<Vector>) returns (r: Result<nat, TrainingError>)
    requires |v| <= U16_MAX
    ensures r.Ok? <==> cs != [] && SameWidth(v, cs) && IsBinary(v) && AllBinary(cs)
    ensures r.Ok? ==> r.value == Nearest(v, cs)
    ensures r.Err? ==> r.error == if cs == [] then InvalidClusterCount else InvalidVector
  {
    hide Count;
    var best: Option<(nat, real)> := None;
    for i := 0 to |cs|
      invariant AllBinary(cs[..i]) && SameWidth(v, cs[..i]) && (i > 0 ==> IsBinary(v))
      invariant if i == 0 then best == None
                else best == Some((Nearest(v, cs[..i]), Distance(v, cs[..i][Nearest(v, cs[..i])]) as real))
    {
      if |v| != |cs[i]| {
        return Err(InvalidVector);
      }
      var score := BinaryDistance(v, cs[i], BinaryHamming);
      if score.Err? {
        return Err(InvalidVector);
      }
      assert score.value == Distance(v, cs[i]) as real;
      assert cs[..i + 1][..i] == cs[..i];
      if best.None? || score.value < best.value.1 {
        best := Some((i, score.value));
      }
    }
    assert cs[..|cs|] == cs;
    if best.None? {
      return Err(InvalidClusterCount);
    }
    return Ok(best.value.0);
  }

  /** Every vector can be compared with every centroid. */
  predicate Comparable(vs: seq<Vector>, cs: seq<Vector>) {
    cs != [] && AllBinary(cs) && forall i :: 0 <= i < |vs| ==> SameWidth(vs[i], cs) && IsBinary(vs[i])
  }

  predicate Narrow(vs: seq<Vector>) {
    forall i :: 0 <= i < |vs| ==> |vs[i]| <= U16_MAX
  }

  /** The nearest centroid of every vector. */
  ghost predicate AreNearest(assign: seq<nat>, vs: seq<Vector>, cs: seq<Vector>) {
    |assign| == |vs| && forall i :: 0 <= i < |vs| ==> IsNearest(assign[i], vs[i], cs)
  }

  ghost predicate IsNearest(c: nat, v: Vector, cs: seq<Vector>) {
    cs != [] && SameWidth(v, cs) && c == Nearest(v, cs)
  }

  /** One vector after the other. */
  method AssignInOrder(vs: seq<Vector>, cs: seq<Vector>) returns (r: Result<seq<nat>, TrainingError>)
    requires Narrow(vs)
    ensures r.Ok? <==> vs == [] || Comparable(vs, cs)
    ensures r.Ok? ==> AreNearest(r.value, vs, cs)
    ensures r.Err? ==> r.error == if cs == [] then InvalidClusterCount else InvalidVector
  {
    hide Nearest, IsBinary, SameWidth;
    var out: seq<nat> := [];
    for i := 0 to |vs|
      invariant i > 0 ==> Comparable(vs[..i], cs)
      invariant AreNearest(out, vs[..i], cs)
    {
      assert vs[..i + 1] == vs[..i] + [vs[i]];
      var nearest := NearestMetricCentroid(vs[i], cs);
      if nearest.Err? {
        return Err(nearest.error);
      }
      out := out + [nearest.value];
    }
    assert vs[..|vs|] == vs;
    return Ok(out);
  }

  /** Contiguous chunks, one per worker, joined in source order: the workers make no difference. */
  method MetricAssignments(vs: seq<Vector>, cs: seq<Vector>, workers: nat) returns (r: Result<seq<nat>, TrainingError>)
    requires Narrow(vs)
    ensures r.Ok? <==> vs == [] || Comparable(vs, cs)
    ensures r.Ok? ==> AreNearest(r.value, vs, cs)
    ensures r.Err? ==> r.error == if cs == [] then InvalidClusterCount else InvalidVector
  {
    hide Comparable, AreNearest;
    var used := if workers < |vs| then workers else |vs|;
    if used <= 1 {
      r := AssignInOrder(vs, cs);
      return;
    }
    var size := ChunkSize(|vs|, used);
    var out: seq<nat> := [];
    var start := 0;
    assert AreNearest([], vs[..0], cs) by { NothingToAssign(cs); }
    while start < |vs|
      invariant 0 <= start <= |vs|
      invariant start > 0 ==> Comparable(vs[..start], cs)
      invariant AreNearest(out, vs[..start], cs)
    {
      var end := if start + size < |vs| then start + size else |vs|;
      var part := AssignInOrder(vs[start..end], cs);
      ComparableParts(vs, cs, start, end);
      if part.Err? {
        return Err(part.error);
      }
      assert vs[..end] == vs[..start] + vs[start..end];
      JoinNearest(out, vs[..start], part.value, vs[start..end], cs);
      out := out + part.value;
      start := end;
    }
    assert vs[..|vs|] == vs;
    return Ok(out);
  }

  function ChunkSize(n: nat, workers: nat): (r: nat)
    requires n > 0 && workers > 0
    ensures r > 0
  {
    (n + workers - 1) / workers
  }

  lemma NothingToAssign(cs: seq<Vector>)
    ensures AreNearest([], [], cs)
  {
  }

  lemma JoinNearest(a: seq<nat>, vs: seq<Vector>, b: seq<nat>, ws: seq<Vector>, cs: seq<Vector>)
    requires AreNearest(a, vs, cs) && AreNearest(b, ws, cs)
    ensures AreNearest(a + b, vs + ws, cs)
  {
    hide IsNearest;
    var assign, all := a + b, vs + ws;
    forall i | 0 <= i < |all| ensures IsNearest(assign[i], all[i], cs) {
      if i < |vs| {
        assert all[i] == vs[i] && assign[i] == a[i];
      } else {
        assert all[i] == ws[i - |vs|] && assign[i] == b[i - |vs|];
      }
    }
  }

  lemma ComparableParts(vs: seq<Vector>, cs: seq<Vector>, start: nat, end: nat)
    requires start < end <= |vs|
    ensures Comparable(vs, cs) ==> Comparable(vs[start..end], cs)
    ensures (start > 0 ==> Comparable(vs[..start], cs)) && Comparable(vs[start..end], cs) ==> Comparable(vs[..end], cs)
  {
    hide IsBinary, SameWidth;
    var whole, a, b := vs[..end], vs[..start], vs[start..end];
    assert whole == a + b;
  }

  /** For vectors and centroids of one width, comparable means binary and nearest means assigned. */
  lemma RegularAssignments(vs: seq<Vector>, cs: seq<Vector>, d: nat)
    requires Regular(vs, d) && Regular(cs, d) && cs != []
    ensures Narrow(vs) && (Comparable(vs, cs) <==> AllBinary(vs) && AllBinary(cs))
    ensures forall assign :: AreNearest(assign, vs, cs) ==> assign == Assign(vs, cs, d)
  {
    hide Nearest, IsBinary;
  }

  // ---------- the cost of an assignment ----------

  ghost predicate Assigns(assign: seq<nat>, vs: seq<Vector>, clusters: nat) {
    |assign| == |vs| && forall i :: 0 <= i < |assign| ==> assign[i] < clusters
  }

  /** Total distance of the vectors to the centroids they are assigned to. */
  ghost function Cost(vs: seq<Vector>, assign: seq<nat>, cs: seq<Vector>, d: nat): nat
    requires Regular(vs, d) && Regular(cs, d) && Assigns(assign, vs, |cs|)
  {
    if vs == [] then
      0
    else
      var k := |vs| - 1;
      Cost(vs[..k], assign[..k], cs, d) + Distance(vs[k], cs[assign[k]])
  }

  /** No assignment is cheaper than the nearest one. */
  lemma {:induction false} NearestIsCheapest(vs: seq<Vector>, assign: seq<nat>, cs: seq<Vector>, d: nat)
    requires Regular(vs, d) && Regular(cs, d) && cs != [] && Assigns(assign, vs, |cs|)
    ensures Cost(vs, Assign(vs, cs, d), cs, d) <= Cost(vs, assign, cs, d)
  {
    hide Distance;
    if vs != [] {
      var k := |vs| - 1;
      NearestIsCheapest(vs[..k], assign[..k], cs, d);
      assert Assign(vs, cs, d)[..k] == Assign(vs[..k], cs, d);
    }
  }

  // ---------- majorities ----------

  /** Vectors of a cluster. */
  function Members(assign: seq<nat>, c: nat): nat {
    if assign == [] then 0 else Members(assign[..|assign| - 1], c) + if assign[|assign| - 1] == c then 1 else 0
  }

  /** Vectors of a cluster that have a one in this dimension. */
  function Ones(vs: seq<Vector>, assign: seq<nat>, d: nat, c: nat, j: nat): nat
    requires Regular(vs, d) && |assign| == |vs| && j < d
  {
    if vs == [] then
      0
    else
      var k := |vs| - 1;
      Ones(vs[..k], assign[..k], d, c, j) + if assign[k] == c && vs[k][j] == 1.0 then 1 else 0
  }

  /** The majority bit; a tie keeps the prior one. */
  function Majority(ones: nat, members: nat, prior: real): real {
    if ones * 2 > members then 1.0 else if ones * 2 < members then 0.0 else prior
  }

  function NewCentroid(vs: seq<Vector>, assign: seq<nat>, d: nat, c: nat, prior: Vector): (r: Vector)
    requires Regular(vs, d) && |assign| == |vs| && |prior| == d
    ensures |r| == d
  {
    if Members(assign, c) == 0 then prior
    else seq(d, j requires 0 <= j < d => Majority(Ones(vs, assign, d, c, j), Members(assign, c), prior[j]))
  }

  function NewCentroids(vs: seq<Vector>, assign: seq<nat>, cs: seq<Vector>, d: nat): (r: seq<Vector>)
    requires Regular(vs, d) && Regular(cs, d) && |assign| == |vs|
    ensures Regular(r, d) && |r| == |cs|
    ensures forall c :: 0 <= c < |cs| ==> r[c] == NewCentroid(vs, assign, d, c, cs[c])
  {
    seq(|cs|, c requires 0 <= c < |cs| => NewCentroid(vs, assign, d, c, cs[c]))
  }

  /** Adds a vector to the counts of its cluster. */
  method CountOnes(row: seq<nat>, v: Vector) returns (r: seq<nat>)
    requires |row| == |v|
    ensures |r| == |row| && forall j :: 0 <= j < |v| ==> r[j] == row[j] + if v[j] == 1.0 then 1 else 0
  {
    r := row;
    for j := 0 to |v|
      invariant |r| == |row|
      invariant forall k :: 0 <= k < |v| ==> r[k] == row[k] + if k < j && v[k] == 1.0 then 1 else 0
    {
      r := r[j := r[j] + if v[j] == 1.0 then 1 else 0];
    }
  }

  /** The tallies after some vectors: members of each cluster and ones in each of its dimensions. */
  ghost predicate Tallied(ones: seq<seq<nat>>, counts: seq<nat>, vs: seq<Vector>, assign: seq<nat>, d: nat,
                          clusters: nat)
    requires Regular(vs, d) && |assign| == |vs|
  {
    && |ones| == clusters && |counts| == clusters
    && (forall c :: 0 <= c < clusters ==> |ones[c]| == d && counts[c] == Members(assign, c))
    && (forall c, j :: 0 <= c < clusters && 0 <= j < d ==> ones[c][j] == Ones(vs, assign, d, c, j))
  }

  lemma TallyStep(ones: seq<seq<nat>>, counts: seq<nat>, row: seq<nat>, vs: seq<Vector>, assign: seq<nat>, d: nat,
                  clusters: nat)
    requires vs != [] && Regular(vs, d) && Assigns(assign, vs, clusters)
    requires Regular(vs[..|vs| - 1], d) && Tallied(ones, counts, vs[..|vs| - 1], assign[..|vs| - 1], d, clusters)
    requires var k := |vs| - 1;
             |row| == d && forall j :: 0 <= j < d ==> row[j] == ones[assign[k]][j] + if vs[k][j] == 1.0 then 1 else 0
    ensures var k := |vs| - 1;
            Tallied(ones[assign[k] := row], counts[assign[k] := counts[assign[k]] + 1], vs, assign, d, clusters)
  {
  }

  method Tally(vs: seq<Vector>, assign: seq<nat>, d: nat, clusters: nat) returns (ones: seq<seq<nat>>, counts: seq<nat>)
    requires Regular(vs, d) && Assigns(assign, vs, clusters)
    ensures Tallied(ones, counts, vs, assign, d, clusters)
  {
    hide Ones, Members;
    ones := seq(clusters, _ => seq(d, _ => 0));
    counts := seq(clusters, _ => 0);
    StartTally(d, clusters);
    for i := 0 to |vs|
      invariant Regular(vs[..i], d) && Tallied(ones, counts, vs[..i], assign[..i], d, clusters)
    {
      var c := assign[i];
      var row := CountOnes(ones[c], vs[i]);
      ghost var seen, seenAssign := vs[..i + 1], assign[..i + 1];
      assert seen[..i] == vs[..i] && seenAssign[..i] == assign[..i];
      TallyStep(ones, counts, row, seen, seenAssign, d, clusters);
      ones, counts := ones[c := row], counts[c := counts[c] + 1];
    }
    assert vs[..|vs|] == vs && assign[..|assign|] == assign;
  }

  lemma StartTally(d: nat, clusters: nat)
    requires d <= U16_MAX
    ensures Tallied(seq(clusters, _ => seq(d, _ => 0)), seq(clusters, _ => 0), [], [], d, clusters)
  {
  }

  /** Replaces every centroid that has members by the majority of their bits. */
  method UpdateBinaryMajorities(vs: seq<Vector>, assign: seq<nat>, cs: seq<Vector>, d: nat) returns (r: seq<Vector>)
    requires Regular(vs, d) && Regular(cs, d) && Assigns(assign, vs, |cs|)
    ensures r == NewCentroids(vs, assign, cs, d)
  {
    hide Ones, Members, Majority;
    var ones, counts := Tally(vs, assign, d, |cs|);
    r := cs;
    for c := 0 to |cs|
      invariant |r| == |cs|
      invariant forall k :: 0 <= k < c ==> r[k] == NewCentroid(vs, assign, d, k, cs[k])
      invariant forall k :: c <= k < |cs| ==> r[k] == cs[k]
    {
      if counts[c] != 0 {
        var centroid := MajorityRow(ones[c], counts[c], r[c]);
        assert centroid == NewCentroid(vs, assign, d, c, cs[c]);
        r := r[c := centroid];
      }
    }
  }

  method MajorityRow(ones: seq<nat>, members: nat, prior: Vector) returns (r: Vector)
    requires |ones| == |prior|
    ensures |r| == |prior| && forall j :: 0 <= j < |r| ==> r[j] == Majority(ones[j], members, prior[j])
  {
    hide Majority;
    r := prior;
    for j := 0 to |prior|
      invariant |r| == |prior|
      invariant forall k :: 0 <= k < |prior| ==>
                  r[k] == if k < j then Majority(ones[k], members, prior[k]) else prior[k]
    {
      r := r[j := Majority(ones[j], members, r[j])];
    }
  }
}
