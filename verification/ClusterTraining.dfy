/** The Hamming training loop, and why it never makes things worse (crates/context-build/src/external.rs). */
module ClusterTraining {
  import opened Clustering
  import opened SparseMetric
  import opened Wrappers

  // ---------- the cost, cluster by cluster and dimension by dimension ----------

  /** Vectors of a cluster that differ from this bit in this dimension. */
  ghost function Mismatches(vs: seq<Vector>, assign: seq<nat>, d: nat, c: nat, j: nat, bit: real): nat
    requires Regular(vs, d) && |assign| == |vs| && j < d
  {
    if vs == [] then
      0
    else
      var k := |vs| - 1;
      Mismatches(vs[..k], assign[..k], d, c, j, bit)
      + if assign[k] == c && (vs[k][j] == 1.0) != (bit == 1.0) then 1 else 0
  }

  lemma {:induction false} MismatchesAre(vs: seq<Vector>, assign: seq<nat>, d: nat, c: nat, j: nat, bit: real)
    requires Regular(vs, d) && |assign| == |vs| && j < d
    ensures Mismatches(vs, assign, d, c, j, bit)
            == if bit == 1.0 then Members(assign, c) - Ones(vs, assign, d, c, j) else Ones(vs, assign, d, c, j)
  {
    if vs != [] {
      var k := |vs| - 1;
      MismatchesAre(vs[..k], assign[..k], d, c, j, bit);
    }
  }

  /** No bit differs from fewer members than the updated one. */
  lemma MajorityIsBest(vs: seq<Vector>, assign: seq<nat>, d: nat, c: nat, j: nat, prior: Vector, bit: real)
    requires Regular(vs, d) && |assign| == |vs| && j < d && |prior| == d
    ensures Mismatches(vs, assign, d, c, j, NewCentroid(vs, assign, d, c, prior)[j])
         <= Mismatches(vs, assign, d, c, j, bit)
  {
    hide Mismatches, Ones, Members;
    MismatchesAre(vs, assign, d, c, j, NewCentroid(vs, assign, d, c, prior)[j]);
    MismatchesAre(vs, assign, d, c, j, bit);
    MismatchesAre(vs, assign, d, c, j, 1.0);
  }

  /** The updated bit is the one that differs from fewer members; if both differ from as many, it stays. */
  lemma UpdatedBitIs(vs: seq<Vector>, assign: seq<nat>, cs: seq<Vector>, d: nat, c: nat, j: nat)
    requires Regular(vs, d) && Regular(cs, d) && |assign| == |vs| && c < |cs| && j < d
    ensures var zero, one := Mismatches(vs, assign, d, c, j, 0.0), Mismatches(vs, assign, d, c, j, 1.0);
            NewCentroids(vs, assign, cs, d)[c][j] == if one < zero then 1.0 else if zero < one then 0.0 else cs[c][j]
  {
    hide Mismatches, Ones, Members;
    MismatchesAre(vs, assign, d, c, j, 0.0);
    MismatchesAre(vs, assign, d, c, j, 1.0);
  }

  /** Mismatches in one dimension over the first n clusters. */
  ghost function DimensionCost(vs: seq<Vector>, assign: seq<nat>, cs: seq<Vector>, d: nat, j: nat, n: nat): nat
    requires Regular(vs, d) && Regular(cs, d) && |assign| == |vs| && j < d && n <= |cs|
  {
    if n == 0 then 0
    else DimensionCost(vs, assign, cs, d, j, n - 1) + Mismatches(vs, assign, d, n - 1, j, cs[n - 1][j])
  }

  /** Mismatches in the first m dimensions. */
  ghost function TotalMismatches(vs: seq<Vector>, assign: seq<nat>, cs: seq<Vector>, d: nat, m: nat): nat
    requires Regular(vs, d) && Regular(cs, d) && |assign| == |vs| && m <= d
  {
    if m == 0 then 0
    else TotalMismatches(vs, assign, cs, d, m - 1) + DimensionCost(vs, assign, cs, d, m - 1, |cs|)
  }

  function Bit(b: bool): nat { if b then 1 else 0 }

  /** One more vector adds at most one mismatch to a dimension, in its own cluster. */
  lemma {:induction false} DimensionCostStep(vs: seq<Vector>, assign: seq<nat>, cs: seq<Vector>, d: nat, j: nat, n: nat)
    requires vs != [] && Regular(vs, d) && Regular(cs, d) && Assigns(assign, vs, |cs|) && j < d && n <= |cs|
    ensures var k := |vs| - 1;
            Regular(vs[..k], d) &&
            DimensionCost(vs, assign, cs, d, j, n) == DimensionCost(vs[..k], assign[..k], cs, d, j, n)
              + Bit(assign[k] < n && (vs[k][j] == 1.0) != (cs[assign[k]][j] == 1.0))
  {
    if n > 0 {
      DimensionCostStep(vs, assign, cs, d, j, n - 1);
    }
  }

  lemma {:induction false} TotalMismatchesStep(vs: seq<Vector>, assign: seq<nat>, cs: seq<Vector>, d: nat, m: nat)
    requires vs != [] && Regular(vs, d) && Regular(cs, d) && Assigns(assign, vs, |cs|) && m <= d
    ensures var k := |vs| - 1;
            Regular(vs[..k], d) &&
            TotalMismatches(vs, assign, cs, d, m)
            == TotalMismatches(vs[..k], assign[..k], cs, d, m) + Count(Differ, vs[k][..m], cs[assign[k]][..m])
  {
    hide DimensionCost;
    var k := |vs| - 1;
    var a, b := vs[k], cs[assign[k]];
    if m > 0 {
      TotalMismatchesStep(vs, assign, cs, d, m - 1);
      DimensionCostStep(vs, assign, cs, d, m - 1, |cs|);
      assert a[..m][..m - 1] == a[..m - 1] && b[..m][..m - 1] == b[..m - 1];
    }
  }

  /** Summing by vector or by dimension and cluster gives the same cost. */
  lemma {:induction false} CostByDimension(vs: seq<Vector>, assign: seq<nat>, cs: seq<Vector>, d: nat)
    requires Regular(vs, d) && Regular(cs, d) && Assigns(assign, vs, |cs|)
    ensures Cost(vs, assign, cs, d) == TotalMismatches(vs, assign, cs, d, d)
  {
    if vs == [] {
      NoMismatches(vs, assign, cs, d, d);
    } else {
      hide TotalMismatches, Count;
      var k := |vs| - 1;
      CostByDimension(vs[..k], assign[..k], cs, d);
      TotalMismatchesStep(vs, assign, cs, d, d);
      assert vs[k][..d] == vs[k] && cs[assign[k]][..d] == cs[assign[k]];
    }
  }

  lemma {:induction false} NoMismatches(vs: seq<Vector>, assign: seq<nat>, cs: seq<Vector>, d: nat, m: nat)
    requires vs == [] && assign == [] && Regular(vs, d) && Regular(cs, d) && m <= d
    ensures TotalMismatches(vs, assign, cs, d, m) == 0
  {
    if m > 0 {
      NoMismatches(vs, assign, cs, d, m - 1);
      NoDimensionCost(vs, assign, cs, d, m - 1, |cs|);
    }
  }

  lemma {:induction false} NoDimensionCost(vs: seq<Vector>, assign: seq<nat>, cs: seq<Vector>, d: nat, j: nat, n: nat)
    requires vs == [] && assign == [] && Regular(vs, d) && Regular(cs, d) && j < d && n <= |cs|
    ensures DimensionCost(vs, assign, cs, d, j, n) == 0
  {
    if n > 0 {
      NoDimensionCost(vs, assign, cs, d, j, n - 1);
    }
  }

  // ---------- an update is best for its assignment ----------

  lemma {:induction false} UpdateIsBestInDimension(vs: seq<Vector>, assign: seq<nat>, cs: seq<Vector>, d: nat, j: nat,
                                                   other: seq<Vector>, n: nat)
    requires Regular(vs, d) && Regular(cs, d) && Assigns(assign, vs, |cs|) && j < d && n <= |cs|
    requires Regular(other, d) && |other| == |cs|
    ensures DimensionCost(vs, assign, NewCentroids(vs, assign, cs, d), d, j, n)
         <= DimensionCost(vs, assign, other, d, j, n)
  {
    hide Mismatches, NewCentroid;
    if n > 0 {
      UpdateIsBestInDimension(vs, assign, cs, d, j, other, n - 1);
      MajorityIsBest(vs, assign, d, n - 1, j, cs[n - 1], other[n - 1][j]);
    }
  }

  lemma {:induction false} UpdateIsBestInTotal(vs: seq<Vector>, assign: seq<nat>, cs: seq<Vector>, d: nat,
                                               other: seq<Vector>, m: nat)
    requires Regular(vs, d) && Regular(cs, d) && Assigns(assign, vs, |cs|) && m <= d
    requires Regular(other, d) && |other| == |cs|
    ensures TotalMismatches(vs, assign, NewCentroids(vs, assign, cs, d), d, m)
         <= TotalMismatches(vs, assign, other, d, m)
  {
    hide DimensionCost, NewCentroid;
    if m > 0 {
      UpdateIsBestInTotal(vs, assign, cs, d, other, m - 1);
      UpdateIsBestInDimension(vs, assign, cs, d, m - 1, other, |cs|);
    }
  }

  /** No centroids, the old ones included, cost less than the updated ones under the assignment of the update. */
  lemma UpdateIsBest(vs: seq<Vector>, assign: seq<nat>, cs: seq<Vector>, d: nat, other: seq<Vector>)
    requires Regular(vs, d) && Regular(cs, d) && Assigns(assign, vs, |cs|)
    requires Regular(other, d) && |other| == |cs|
    ensures Cost(vs, assign, NewCentroids(vs, assign, cs, d), d) <= Cost(vs, assign, other, d)
  {
    hide Cost, TotalMismatches, NewCentroids;
    CostByDimension(vs, assign, other, d);
    CostByDimension(vs, assign, NewCentroids(vs, assign, cs, d), d);
    UpdateIsBestInTotal(vs, assign, cs, d, other, d);
  }

  /** Majorities of bits, and bits kept on a tie, are bits. */
  lemma UpdateKeepsBinary(vs: seq<Vector>, assign: seq<nat>, cs: seq<Vector>, d: nat)
    requires Regular(vs, d) && Regular(cs, d) && |assign| == |vs| && AllBinary(cs)
    ensures AllBinary(NewCentroids(vs, assign, cs, d))
  {
    hide Ones, Members;
    forall c, j | 0 <= c < |cs| && 0 <= j < d ensures IsBit(NewCentroids(vs, assign, cs, d)[c][j]) {
      assert IsBinary(cs[c]);
    }
  }

  // ---------- training ----------

  /** The cost of centroids under their best assignment. */
  ghost function BestCost(vs: seq<Vector>, cs: seq<Vector>, d: nat): nat
    requires Regular(vs, d) && Regular(cs, d) && cs != []
  {
    Cost(vs, Assign(vs, cs, d), cs, d)
  }

  /** One round keeps the centroids binary and does not raise their best cost. */
  lemma RoundNeverRaisesCost(vs: seq<Vector>, cs: seq<Vector>, d: nat)
    requires Regular(vs, d) && Regular(cs, d) && cs != [] && AllBinary(cs)
    ensures var next := NewCentroids(vs, Assign(vs, cs, d), cs, d);
            AllBinary(next) && BestCost(vs, next, d) <= BestCost(vs, cs, d)
  {
    hide Cost, NewCentroid, Distance;
    var assign := Assign(vs, cs, d);
    UpdateIsBest(vs, assign, cs, d, cs);
    NearestIsCheapest(vs, assign, NewCentroids(vs, assign, cs, d), d);
    UpdateKeepsBinary(vs, assign, cs, d);
  }

  /** The centroids after at most this many rounds; stops when an assignment repeats. */
  ghost function Trained(vs: seq<Vector>, cs: seq<Vector>, d: nat, previous: Option<seq<nat>>, rounds: nat)
    : (r: seq<Vector>)
    requires Regular(vs, d) && Regular(cs, d) && cs != []
    ensures Regular(r, d) && |r| == |cs|
    decreases rounds
  {
    if rounds == 0 || previous == Some(Assign(vs, cs, d)) then
      cs
    else
      var assign := Assign(vs, cs, d);
      Trained(vs, NewCentroids(vs, assign, cs, d), d, Some(assign), rounds - 1)
  }

  /** The centroids after exactly this many rounds. */
  ghost function Rounds(vs: seq<Vector>, cs: seq<Vector>, d: nat, rounds: nat): (r: seq<Vector>)
    requires Regular(vs, d) && Regular(cs, d) && cs != []
    ensures Regular(r, d) && |r| == |cs|
    decreases rounds
  {
    if rounds == 0 then cs else Rounds(vs, NewCentroids(vs, Assign(vs, cs, d), cs, d), d, rounds - 1)
  }

  lemma {:induction false} RoundsStay(vs: seq<Vector>, cs: seq<Vector>, d: nat, rounds: nat)
    requires Regular(vs, d) && Regular(cs, d) && cs != []
    requires NewCentroids(vs, Assign(vs, cs, d), cs, d) == cs
    ensures Rounds(vs, cs, d, rounds) == cs
    decreases rounds
  {
    hide NewCentroid, Assign;
    if rounds > 0 {
      RoundsStay(vs, cs, d, rounds - 1);
    }
  }

  /** A second update for the same assignment changes nothing. */
  lemma UpdateIsIdempotent(vs: seq<Vector>, assign: seq<nat>, cs: seq<Vector>, d: nat)
    requires Regular(vs, d) && Regular(cs, d) && |assign| == |vs|
    ensures NewCentroids(vs, assign, NewCentroids(vs, assign, cs, d), d) == NewCentroids(vs, assign, cs, d)
  {
    hide Ones, Members;
    var next := NewCentroids(vs, assign, cs, d);
    forall c | 0 <= c < |cs| ensures NewCentroid(vs, assign, d, c, next[c]) == next[c] {
      assert next[c] == NewCentroid(vs, assign, d, c, cs[c]);
    }
  }

  lemma {:induction false} StoppingIsInvisible(vs: seq<Vector>, cs: seq<Vector>, d: nat, previous: Option<seq<nat>>,
                                               rounds: nat)
    requires Regular(vs, d) && Regular(cs, d) && cs != []
    requires previous.Some? ==> |previous.value| == |vs| && NewCentroids(vs, previous.value, cs, d) == cs
    ensures Trained(vs, cs, d, previous, rounds) == Rounds(vs, cs, d, rounds)
    decreases rounds
  {
    hide NewCentroid, Assign;
    var assign := Assign(vs, cs, d);
    if previous == Some(assign) {
      RoundsStay(vs, cs, d, rounds);
    } else if rounds > 0 {
      UpdateIsIdempotent(vs, assign, cs, d);
      StoppingIsInvisible(vs, NewCentroids(vs, assign, cs, d), d, Some(assign), rounds - 1);
    }
  }

  /** Stopping when an assignment repeats gives what all the rounds would have given. */
  lemma EarlyStopIsInvisible(r: Clusters, vs: seq<Vector>, clusters: nat, rounds: nat, hash: nat -> nat, d: nat)
    requires vs != [] && 1 <= clusters <= |vs| && Regular(vs, d) && IsResult(r, vs, clusters, rounds, hash, d)
    ensures var sample := InitialSample(vs, clusters, hash);
            Regular(sample, d) && r.centroids == Rounds(vs, sample, d, rounds)
  {
    hide Trained, Rounds, Assign, InitialSample;
    SampleIsRegular(vs, clusters, hash, d);
    StoppingIsInvisible(vs, InitialSample(vs, clusters, hash), d, None, rounds);
  }

  /** A whole training run keeps the centroids binary and ends no worse than it started. */
  lemma {:induction false} TrainingNeverRaisesCost(vs: seq<Vector>, cs: seq<Vector>, d: nat,
                                                   previous: Option<seq<nat>>, rounds: nat)
    requires Regular(vs, d) && Regular(cs, d) && cs != [] && AllBinary(cs)
    ensures AllBinary(Trained(vs, cs, d, previous, rounds))
    ensures BestCost(vs, Trained(vs, cs, d, previous, rounds), d) <= BestCost(vs, cs, d)
    decreases rounds
  {
    hide BestCost, AllBinary, NewCentroid, Assign;
    if rounds > 0 && previous != Some(Assign(vs, cs, d)) {
      var assign := Assign(vs, cs, d);
      RoundNeverRaisesCost(vs, cs, d);
      TrainingNeverRaisesCost(vs, NewCentroids(vs, assign, cs, d), d, Some(assign), rounds - 1);
    }
  }

  function Pick(vs: seq<Vector>, ids: seq<nat>): (r: seq<Vector>)
    requires forall i :: 0 <= i < |ids| ==> ids[i] < |vs|
    ensures |r| == |ids| && forall i :: 0 <= i < |r| ==> r[i] == vs[ids[i]]
  {
    seq(|ids|, i requires 0 <= i < |ids| => vs[ids[i]])
  }

  function InputError(vs: seq<Vector>, clusters: nat, rounds: nat, workers: nat): Option<TrainingError> {
    if vs == [] then Some(EmptyInput)
    else if |vs[0]| == 0 then Some(ZeroDimensions)
    else if clusters == 0 || clusters > |vs| then Some(InvalidClusterCount)
    else if rounds == 0 then Some(ZeroIterations)
    else if exists i :: 0 <= i < |vs| && |vs[i]| != |vs[0]| then Some(InvalidVector)
    else if workers == 0 then Some(InvalidWorkerCount)
    else if !AllBinary(vs) then Some(InvalidVector)
    else None
  }

  /** The initial centroids. */
  function InitialSample(vs: seq<Vector>, clusters: nat, hash: nat -> nat): (r: seq<Vector>)
    requires vs != [] && 1 <= clusters <= |vs|
    ensures |r| == clusters && forall i :: 0 <= i < |r| ==> r[i] in vs
  {
    SampleIsDistinct(|vs|, clusters, hash);
    Pick(vs, Sample(|vs|, clusters, hash))
  }

  lemma SampleIsRegular(vs: seq<Vector>, clusters: nat, hash: nat -> nat, d: nat)
    requires vs != [] && 1 <= clusters <= |vs| && Regular(vs, d)
    ensures Regular(InitialSample(vs, clusters, hash), d)
    ensures AllBinary(vs) ==> AllBinary(InitialSample(vs, clusters, hash))
  {
    hide IsBinary;
    var sample := InitialSample(vs, clusters, hash);
    forall i | 0 <= i < |sample| ensures |sample[i]| == d && (AllBinary(vs) ==> IsBinary(sample[i])) {
      var k :| 0 <= k < |vs| && vs[k] == sample[i];
    }
  }

  /** What training promises of its result: the rounds from the sample, then the nearest assignment. */
  ghost predicate IsResult(r: Clusters, vs: seq<Vector>, clusters: nat, rounds: nat, hash: nat -> nat, d: nat)
    requires vs != [] && 1 <= clusters <= |vs| && Regular(vs, d)
  {
    SampleIsRegular(vs, clusters, hash, d);
    && r.centroids == Trained(vs, InitialSample(vs, clusters, hash), d, None, rounds)
    && r.assignments == Assign(vs, r.centroids, d)
  }

  /**
   Trains Hamming clusters. Neither success nor the result depends on the number of workers.
   The assignment before the first round is a value no vector can be assigned to.
   */
  method DeterministicMetricClusters(vs: seq<Vector>, clusters: nat, rounds: nat, hash: nat -> nat, workers: nat)
    returns (r: Result<Clusters, TrainingError>)
    requires forall i :: 0 <= i < |vs| ==> |vs[i]| <= U16_MAX
    ensures r.Err? <==> InputError(vs, clusters, rounds, workers).Some?
    ensures r.Err? ==> InputError(vs, clusters, rounds, workers) == Some(r.error)
    ensures r.Ok? ==> IsResult(r.value, vs, clusters, rounds, hash, |vs[0]|)
  {
    hide Assign, NewCentroids, InitialSample, IsBinary, IsResult;
    var checked := CheckInput(vs, clusters, rounds, workers);
    if checked.Some? {
      return Err(checked.value);
    }
    var d := |vs[0]|;
    SampleIsRegular(vs, clusters, hash, d);
    var first := InitialSample(vs, clusters, hash);
    var trained := RunRounds(vs, first, d, rounds, workers);
    if trained.Err? {
      return Err(trained.error);
    }
    RegularAssignments(vs, trained.value, d);
    var assignments := MetricAssignments(vs, trained.value, workers);
    if assignments.Err? {
      return Err(InvalidVector);
    }
    var result := Clusters(trained.value, assignments.value);
    assert IsResult(result, vs, clusters, rounds, hash, d) by { ResultIs(result, vs, clusters, rounds, hash, d); }
    return Ok(result);
  }

  lemma ResultIs(r: Clusters, vs: seq<Vector>, clusters: nat, rounds: nat, hash: nat -> nat, d: nat)
    requires vs != [] && 1 <= clusters <= |vs| && Regular(vs, d) && Regular(InitialSample(vs, clusters, hash), d)
    requires r.centroids == Trained(vs, InitialSample(vs, clusters, hash), d, None, rounds)
    requires r.assignments == Assign(vs, r.centroids, d)
    ensures IsResult(r, vs, clusters, rounds, hash, d)
  {
  }

  /** The checks made before any distance is computed. */
  method CheckInput(vs: seq<Vector>, clusters: nat, rounds: nat, workers: nat) returns (e: Option<TrainingError>)
    requires forall i :: 0 <= i < |vs| ==> |vs[i]| <= U16_MAX
    ensures e.Some? ==> e == InputError(vs, clusters, rounds, workers)
    ensures e.None? ==> vs != [] && |vs[0]| > 0 && 1 <= clusters <= |vs| && rounds > 0 && workers > 0
    ensures e.None? ==> Regular(vs, |vs[0]|)
    ensures e.None? ==> InputError(vs, clusters, rounds, workers) == if AllBinary(vs) then None else Some(InvalidVector)
  {
    hide AllBinary;
    if vs == [] { return Some(EmptyInput); }
    if |vs[0]| == 0 { return Some(ZeroDimensions); }
    if clusters == 0 || clusters > |vs| { return Some(InvalidClusterCount); }
    if rounds == 0 { return Some(ZeroIterations); }
    if exists i :: 0 <= i < |vs| && |vs[i]| != |vs[0]| { return Some(InvalidVector); }
    if workers == 0 { return Some(InvalidWorkerCount); }
    return None;
  }

  method RunRounds(vs: seq<Vector>, first: seq<Vector>, d: nat, rounds: nat, workers: nat)
    returns (r: Result<seq<Vector>, TrainingError>)
    requires vs != [] && Regular(vs, d) && Regular(first, d) && first != [] && rounds > 0
    requires AllBinary(vs) ==> AllBinary(first)
    ensures r.Ok? <==> AllBinary(vs)
    ensures r.Ok? ==> r.value == Trained(vs, first, d, None, rounds) && AllBinary(r.value)
    ensures r.Err? ==> r.error == InvalidVector
  {
    hide Assign, NewCentroid, NewCentroids, AllBinary;
    var cs := first;
    var assignments: Option<seq<nat>> := None;
    var i := 0;
    while i < rounds
      invariant i <= rounds && Regular(cs, d) && |cs| == |first|
      invariant AllBinary(vs) ==> AllBinary(cs)
      invariant i > 0 ==> AllBinary(vs)
      invariant Trained(vs, first, d, None, rounds) == Trained(vs, cs, d, assignments, rounds - i)
    {
      RegularAssignments(vs, cs, d);
      var next := MetricAssignments(vs, cs, workers);
      if next.Err? {
        return Err(next.error);
      }
      if Some(next.value) == assignments {
        break;
      }
      AssignInRange(vs, cs, d);
      UpdateKeepsBinary(vs, next.value, cs, d);
      assignments := Some(next.value);
      cs := UpdateBinaryMajorities(vs, next.value, cs, d);
      i := i + 1;
    }
    return Ok(cs);
  }

  lemma AssignInRange(vs: seq<Vector>, cs: seq<Vector>, d: nat)
    requires Regular(vs, d) && Regular(cs, d) && cs != []
    ensures Assigns(Assign(vs, cs, d), vs, |cs|)
  {
  }

  /** The final cost is at most the cost of the initial sample, and all centroids are binary. */
  lemma ResultIsNoWorseThanSample(r: Clusters, vs: seq<Vector>, clusters: nat, rounds: nat, hash: nat -> nat, d: nat)
    requires vs != [] && 1 <= clusters <= |vs| && Regular(vs, d) && AllBinary(vs)
            && IsResult(r, vs, clusters, rounds, hash, d)
    ensures var sample := InitialSample(vs, clusters, hash);
            && Regular(sample, d) && Regular(r.centroids, d) && |r.centroids| == clusters
            && AllBinary(r.centroids) && Assigns(r.assignments, vs, clusters)
            && Cost(vs, r.assignments, r.centroids, d) <= Cost(vs, Assign(vs, sample, d), sample, d)
  {
    hide Cost, NewCentroid, IsBinary;
    var sample := InitialSample(vs, clusters, hash);
    SampleIsRegular(vs, clusters, hash, d);
    TrainingNeverRaisesCost(vs, sample, d, None, rounds);
  }
}
