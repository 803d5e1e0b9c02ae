/**
 The supervised generation-build job and the publication state of its output
 (crates/context-build/src/lib.rs).

 The source's methods take a job by value and return the changed one, so each is a function
 from old to new state; a rejected call leaves the caller's value as it was.
 */
module BuildJob {
  import opened Wrappers

  const U64_MAX: nat := 0xffff_ffff_ffff_ffff
  const U32_MAX: nat := 0xffff_ffff

  datatype Status =
    | Planned | Running | CancelRequested | Cancelled | Validating | Publishing | Completed | Failed | Abandoned

  /** The lifecycle table shared with the catalog. */
  predicate AllowsTransition(from: Status, to: Status) {
    from == to ||
    match from {
      case Planned => to in {Running, Validating, Cancelled}
      case Abandoned => to in {Running, Validating, Planned}
      case Running => to in {CancelRequested, Validating, Failed, Abandoned}
      case CancelRequested => to in {Cancelled, Failed, Abandoned}
      case Validating => to in {CancelRequested, Publishing, Failed, Abandoned}
      case Publishing => to in {Validating, Completed, Failed, Abandoned}
      case Failed => to == Planned
      case Cancelled => to == Planned
      case Completed => false
    }
  }

  predicate IsActive(s: Status) {
    s in {Running, CancelRequested, Validating, Publishing}
  }

  datatype JobLease = JobLease(worker: nat, expiresAt: nat)

  datatype Validation = Validation(passed: bool, findings: nat)

  datatype Job = Job(
    status: Status,
    attempt: nat,
    processed: nat,
    total: nat,
    lease: Option<JobLease>,
    validation: Option<Validation>,
    generation: Option<nat>)

  datatype Error =
    | ProgressExceedsTotal | InvalidTransition | ZeroLeaseDuration | ClockOverflow | AttemptOverflow | MissingLease
    | LeaseOwnerMismatch | LeaseExpired | LeaseNotExpired | AlreadyPublishedDifferentGeneration
    | EmptyArtifactInventory | DuplicateArtifact | SizeOverflow
    | ConflictingValidation | ValidationFailed | ReaderPinOverflow | ReaderPinUnderflow

  function PlannedJob(total: nat): Job {
    Job(Planned, 1, 0, total, None, None, None)
  }

  // ---------- transitions ----------

  datatype Call =
    | Claim(worker: nat, now: nat, ttl: nat)
    | Retry
    | RenewLease(worker: nat, now: nat, ttl: nat)
    | RecoverExpiredLease(now: nat)
    | CheckpointTo(processed: nat)
    | RequestCancel
    | RecordValidation(v: Validation)
    | Revalidate
    | Publish(generation: nat)
    | Fail

  function NewLease(worker: nat, now: nat, ttl: nat): Result<JobLease, Error> {
    if ttl == 0 then Err(ZeroLeaseDuration)
    else if now + ttl > U64_MAX then Err(ClockOverflow)
    else Ok(JobLease(worker, now + ttl))
  }

  function ClaimStep(j: Job, worker: nat, now: nat, ttl: nat): Result<Job, Error> {
    if j.status != Planned && j.status != Abandoned then
      Err(InvalidTransition)
    else if j.status == Abandoned && j.attempt + 1 > U32_MAX then
      Err(AttemptOverflow)
    else
      match NewLease(worker, now, ttl)
      case Err(e) => Err(e)
      case Ok(lease) =>
        Ok(j.(attempt := if j.status == Abandoned then j.attempt + 1 else j.attempt,
              lease := Some(lease), validation := None, generation := None,
              status := if j.processed == j.total then Validating else Running))
  }

  function RenewStep(j: Job, worker: nat, now: nat, ttl: nat): Result<Job, Error> {
    if j.lease.None? then Err(MissingLease)
    else if j.lease.value.worker != worker then Err(LeaseOwnerMismatch)
    else if now >= j.lease.value.expiresAt then Err(LeaseExpired)
    else
      match NewLease(worker, now, ttl)
      case Err(e) => Err(e)
      case Ok(lease) => Ok(j.(lease := Some(lease)))
  }

  function RecoverStep(j: Job, now: nat): Result<Job, Error> {
    if !IsActive(j.status) then Err(InvalidTransition)
    else if j.lease.None? then Err(MissingLease)
    else if now < j.lease.value.expiresAt then Err(LeaseNotExpired)
    else Ok(j.(status := Abandoned, lease := None))
  }

  /** Replaying an old checkpoint is idempotent; a cancellation request stops at the existing one. */
  function CheckpointStep(j: Job, processed: nat): Result<Job, Error> {
    if j.status == CancelRequested then
      Ok(j.(status := Cancelled, lease := None))
    else if j.status != Running then
      Err(InvalidTransition)
    else if processed > j.total then
      Err(ProgressExceedsTotal)
    else
      var reached := if processed <= j.processed then j.processed else processed;
      Ok(j.(processed := reached, status := if reached == j.total then Validating else Running))
  }

  function Step(j: Job, c: Call): Result<Job, Error> {
    match c
    case Claim(worker, now, ttl) => ClaimStep(j, worker, now, ttl)
    case Retry =>
      if j.status !in {Failed, Cancelled, Abandoned} then Err(InvalidTransition)
      else if j.attempt + 1 > U32_MAX then Err(AttemptOverflow)
      else Ok(j.(attempt := j.attempt + 1, status := Planned, lease := None, validation := None, generation := None))
    case RenewLease(worker, now, ttl) => RenewStep(j, worker, now, ttl)
    case RecoverExpiredLease(now) => RecoverStep(j, now)
    case CheckpointTo(processed) => CheckpointStep(j, processed)
    case RequestCancel =>
      if j.status == Planned then Ok(j.(status := Cancelled))
      else if j.status == Running || j.status == Validating then Ok(j.(status := CancelRequested))
      else if j.status == CancelRequested then Ok(j)
      else Err(InvalidTransition)
    case RecordValidation(v) =>
      if j.status != Validating then Err(InvalidTransition)
      else if v.passed then Ok(j.(validation := Some(v), status := Publishing))
      else Ok(j.(validation := Some(v), status := Failed, lease := None))
    case Revalidate =>
      if j.status != Publishing then Err(InvalidTransition)
      else Ok(j.(status := Validating, validation := None))
    case Publish(generation) =>
      if j.status == Publishing then Ok(j.(generation := Some(generation), status := Completed, lease := None))
      else if j.status != Completed then Err(InvalidTransition)
      else if j.generation == Some(generation) then Ok(j)
      else Err(AlreadyPublishedDifferentGeneration)
    case Fail =>
      if !IsActive(j.status) then Err(InvalidTransition)
      else Ok(j.(status := Failed, lease := None))
  }

  // ---------- runs ----------

  /** The job after a sequence of calls; rejected calls leave it unchanged. */
  ghost function Run(j: Job, calls: seq<Call>): Job {
    if calls == [] then
      j
    else
      var before := Run(j, calls[..|calls| - 1]);
      match Step(before, calls[|calls| - 1])
      case Ok(after) => after
      case Err(_) => before
  }

  ghost predicate SucceedsAt(j: Job, calls: seq<Call>, i: nat) {
    i < |calls| && Step(Run(j, calls[..i]), calls[i]).Ok?
  }

  /** What every reachable job satisfies. */
  ghost predicate Inv(j: Job) {
    && j.processed <= j.total
    && (j.lease.Some? <==> IsActive(j.status))
    && (j.status in {Validating, Publishing, Completed} ==> j.processed == j.total)
    && (j.status == Running ==> j.processed < j.total)
    && (j.status in {Publishing, Completed} ==> j.validation.Some? && j.validation.value.passed)
    && (j.generation.Some? <==> j.status == Completed)
    && j.attempt >= 1
  }

  lemma StepKeepsInv(j: Job, c: Call)
    requires Inv(j) && Step(j, c).Ok?
    ensures Inv(Step(j, c).value)
    ensures Step(j, c).value.processed >= j.processed && Step(j, c).value.total == j.total
  {
  }

  lemma {:induction false} RunKeepsInv(total: nat, calls: seq<Call>)
    ensures Inv(Run(PlannedJob(total), calls))
    ensures Run(PlannedJob(total), calls).total == total
  {
    if calls != [] {
      var n := |calls| - 1;
      RunKeepsInv(total, calls[..n]);
      if SucceedsAt(PlannedJob(total), calls, n) {
        StepKeepsInv(Run(PlannedJob(total), calls[..n]), calls[n]);
      }
    }
  }

  /** In every run of a planned job: a lease exactly in the four active states, and progress never falls. */
  lemma {:induction false} ProgressNeverFalls(total: nat, calls: seq<Call>, n: nat)
    requires n <= |calls|
    ensures Run(PlannedJob(total), calls[..n]).processed <= Run(PlannedJob(total), calls).processed <= total
    ensures Run(PlannedJob(total), calls).lease.Some? <==> IsActive(Run(PlannedJob(total), calls).status)
    decreases |calls| - n
  {
    RunKeepsInv(total, calls);
    if n == |calls| {
      assert calls[..n] == calls;
    } else {
      ProgressNeverFalls(total, calls, n + 1);
      assert calls[..n + 1][..n] == calls[..n];
      RunKeepsInv(total, calls[..n]);
      if SucceedsAt(PlannedJob(total), calls, n) {
        StepKeepsInv(Run(PlannedJob(total), calls[..n]), calls[n]);
      }
    }
  }

  // ---------- the methods and the table agree ----------

  /** Every successful call follows an edge of the table. */
  lemma StepsFollowTable(j: Job, c: Call)
    requires Inv(j) && Step(j, c).Ok?
    ensures AllowsTransition(j.status, Step(j, c).value.status)
  {
  }

  // For each edge of the table: a run that reaches its source, and the call that takes it.

  function Reach(s: Status): seq<Call> {
    var claim := Claim(1, 0, 1);
    match s
    case Planned => []
    case Running => [claim]
    case CancelRequested => [claim, RequestCancel]
    case Cancelled => [RequestCancel]
    case Validating => [claim]
    case Publishing => [claim, RecordValidation(Validation(true, 0))]
    case Completed => [claim, RecordValidation(Validation(true, 0)), Publish(1)]
    case Failed => [claim, Fail]
    case Abandoned => [claim, RecoverExpiredLease(1)]
  }

  function CallFor(from: Status, to: Status): Call {
    match to
    case Planned => Retry
    case Running => Claim(1, 0, 1)
    case CancelRequested => RequestCancel
    case Cancelled => if from == Planned then RequestCancel else CheckpointTo(0)
    case Validating =>
      if from == Publishing then Revalidate else if from == Running then CheckpointTo(1) else Claim(1, 0, 1)
    case Publishing => RecordValidation(Validation(true, 0))
    case Completed => Publish(1)
    case Failed => Fail
    case Abandoned => RecoverExpiredLease(1)
  }

  lemma RunShort(j: Job, calls: seq<Call>)
    requires |calls| <= 2
    ensures Run(j, calls) ==
            (if calls == [] then j
             else
               var k := if Step(j, calls[0]).Ok? then Step(j, calls[0]).value else j;
               if |calls| == 1 then k else if Step(k, calls[1]).Ok? then Step(k, calls[1]).value else k)
  {
    if calls != [] {
      assert calls[..0] == [] && calls[..1] == [calls[0]] && [calls[0]][..0] == [];
      assert Run(j, [calls[0]]) == if Step(j, calls[0]).Ok? then Step(j, calls[0]).value else j;
    }
  }

  /** Every edge of the table between different statuses is taken by some call in some reachable job. */
  lemma EveryEdgeIsTaken(from: Status, to: Status)
    requires AllowsTransition(from, to) && from != to
    ensures exists total, calls, c ::
              var j := Run(PlannedJob(total), calls);
              j.status == from && Step(j, c).Ok? && Step(j, c).value.status == to
  {
    var total := if from in {Validating, Publishing} || (to == Validating && from != Running) then 0 else 1;
    var calls, c := Reach(from), CallFor(from, to);
    RunShort(PlannedJob(total), calls);
    var j := Run(PlannedJob(total), calls);
    assert j.status == from && Step(j, c).Ok? && Step(j, c).value.status == to;
  }

  // ---------- completion ----------

  /** A completed job never changes again: its generation is fixed. */
  lemma {:induction false} CompletedIsFinal(j: Job, calls: seq<Call>)
    requires Inv(j) && j.status == Completed
    ensures Run(j, calls) == j
  {
    if calls != [] {
      CompletedIsFinal(j, calls[..|calls| - 1]);
    }
  }

  /** A recorded validation was recorded by a call after the last claim or retry. */
  lemma {:induction false} ValidationIsCurrent(j0: Job, calls: seq<Call>) returns (i: nat)
    requires j0.validation.None? && Run(j0, calls).validation.Some?
    ensures SucceedsAt(j0, calls, i) && calls[i] == RecordValidation(Run(j0, calls).validation.value)
    ensures forall k :: i < k < |calls| && SucceedsAt(j0, calls, k) ==> !calls[k].Claim? && !calls[k].Retry?
  {
    hide Step;
    assert calls != [];
    var n := |calls| - 1;
    if SucceedsAt(j0, calls, n) {
      ValidationStep(Run(j0, calls[..n]), calls[n]);
    }
    if SucceedsAt(j0, calls, n) && calls[n].RecordValidation? {
      i := n;
    } else {
      i := ValidationIsCurrent(j0, calls[..n]);
      assert calls[..n][..i] == calls[..i];
      forall k | i < k < |calls| && SucceedsAt(j0, calls, k) ensures !calls[k].Claim? && !calls[k].Retry? {
        if k < n {
          assert calls[..n][..k] == calls[..k];
          assert SucceedsAt(j0, calls[..n], k);
        }
      }
    }
  }

  lemma ValidationStep(j: Job, c: Call)
    requires Step(j, c).Ok?
    ensures c.RecordValidation? ==> Step(j, c).value.validation == Some(c.v)
    ensures c.Claim? || c.Retry? || c.Revalidate? ==> Step(j, c).value.validation.None?
    ensures !(c.RecordValidation? || c.Claim? || c.Retry? || c.Revalidate?) ==>
              Step(j, c).value.validation == j.validation
  {
  }

  /** Completed means full progress, a generation, and a passing validation recorded in the current attempt. */
  lemma CompletedMeansValidated(total: nat, calls: seq<Call>) returns (i: nat)
    requires Run(PlannedJob(total), calls).status == Completed
    ensures var j := Run(PlannedJob(total), calls);
            && j.processed == total && j.generation.Some?
            && SucceedsAt(PlannedJob(total), calls, i)
            && calls[i].RecordValidation? && calls[i].v.passed && j.validation == Some(calls[i].v)
    ensures forall k :: i < k < |calls| && SucceedsAt(PlannedJob(total), calls, k) ==>
              !calls[k].Claim? && !calls[k].Retry?
  {
    RunKeepsInv(total, calls);
    i := ValidationIsCurrent(PlannedJob(total), calls);
  }

  // ---------- generation manifests ----------

  datatype GenerationState = Staged | Validated | Published | Retiring | Retired | RebuildRequired

  datatype Artifact = Artifact(kind: nat, name: string, payloadBytes: nat, checksum: nat)

  datatype Manifest = Manifest(
    artifacts: seq<Artifact>,
    totalPayloadBytes: nat,
    validation: Option<Validation>,
    state: GenerationState,
    pins: nat)

  ghost function PayloadSum(artifacts: seq<Artifact>): nat {
    if artifacts == [] then 0 else PayloadSum(artifacts[..|artifacts| - 1]) + artifacts[|artifacts| - 1].payloadBytes
  }

  ghost predicate DistinctIdentities(artifacts: seq<Artifact>) {
    forall i, j :: 0 <= i < j < |artifacts| ==>
                     (artifacts[i].kind, artifacts[i].name) != (artifacts[j].kind, artifacts[j].name)
  }

  lemma {:induction false} PrefixSum(artifacts: seq<Artifact>, n: nat)
    requires n <= |artifacts|
    ensures PayloadSum(artifacts[..n]) <= PayloadSum(artifacts)
    decreases |artifacts| - n
  {
    if n == |artifacts| {
      assert artifacts[..n] == artifacts;
    } else {
      PrefixSum(artifacts, n + 1);
      assert artifacts[..n + 1][..n] == artifacts[..n];
    }
  }

  /** An inventory is staged exactly when it is non-empty, duplicate-free and its size fits 64 bits. */
  method Stage(artifacts: seq<Artifact>) returns (r: Result<Manifest, Error>)
    ensures r.Ok? <==> artifacts != [] && DistinctIdentities(artifacts) && PayloadSum(artifacts) <= U64_MAX
    ensures r.Ok? ==> r.value == Manifest(artifacts, PayloadSum(artifacts), None, Staged, 0)
  {
    if artifacts == [] {
      return Err(EmptyArtifactInventory);
    }
    var identities: set<(nat, string)> := {};
    var total := 0;
    for i := 0 to |artifacts|
      invariant forall k :: 0 <= k < i ==> (artifacts[k].kind, artifacts[k].name) in identities
      invariant forall id :: id in identities ==> exists k :: 0 <= k < i && id == (artifacts[k].kind, artifacts[k].name)
      invariant DistinctIdentities(artifacts[..i])
      invariant total == PayloadSum(artifacts[..i]) <= U64_MAX
    {
      assert artifacts[..i + 1][..i] == artifacts[..i];
      var id := (artifacts[i].kind, artifacts[i].name);
      if id in identities {
        return Err(DuplicateArtifact);
      }
      identities := identities + {id};
      PrefixSum(artifacts, i + 1);
      if total + artifacts[i].payloadBytes > U64_MAX {
        return Err(SizeOverflow);
      }
      total := total + artifacts[i].payloadBytes;
    }
    assert artifacts[..|artifacts|] == artifacts;
    r := Ok(Manifest(artifacts, total, None, Staged, 0));
  }

  datatype ManifestCall = Validate(v: Validation) | PublishManifest | Pin | Unpin | Retire

  function ManifestStep(m: Manifest, c: ManifestCall): Result<Manifest, Error> {
    match c
    case Validate(v) =>
      if m.state == Staged && m.validation.None? then
        Ok(m.(validation := Some(v), state := if v.passed then Validated else RebuildRequired))
      else if (m.state == Validated || m.state == RebuildRequired) && m.validation.Some? then
        if m.validation.value == v then Ok(m) else Err(ConflictingValidation)
      else
        Err(InvalidTransition)
    case PublishManifest =>
      if m.state == Validated then Ok(m.(state := Published))
      else if m.state == Published then Ok(m)
      else if m.state == RebuildRequired then Err(ValidationFailed)
      else Err(InvalidTransition)
    case Pin =>
      if m.state != Published then Err(InvalidTransition)
      else if m.pins + 1 > U32_MAX then Err(ReaderPinOverflow)
      else Ok(m.(pins := m.pins + 1))
    case Unpin =>
      if m.pins == 0 then Err(ReaderPinUnderflow)
      else
        Ok(m.(pins := m.pins - 1, state := if m.pins == 1 && m.state == Retiring then Retired else m.state))
    case Retire =>
      if m.state == Published then Ok(m.(state := if m.pins == 0 then Retired else Retiring))
      else if m.state == Retiring || m.state == Retired then Ok(m)
      else Err(InvalidTransition)
  }

  ghost function ManifestRun(m: Manifest, calls: seq<ManifestCall>): Manifest {
    if calls == [] then
      m
    else
      var before := ManifestRun(m, calls[..|calls| - 1]);
      match ManifestStep(before, calls[|calls| - 1])
      case Ok(after) => after
      case Err(_) => before
  }

  /** Successful calls of one kind. */
  ghost function Count(m: Manifest, calls: seq<ManifestCall>, c: ManifestCall): nat {
    if calls == [] then
      0
    else
      var n := |calls| - 1;
      Count(m, calls[..n], c) + if calls[n] == c && ManifestStep(ManifestRun(m, calls[..n]), c).Ok? then 1 else 0
  }

  /**
   Only validated generations are published; readers hold pins only while it is open or retiring; Retired means
   none are left.
   */
  ghost predicate ManifestInv(m: Manifest) {
    && (m.state in {Validated, Published, Retiring, Retired} ==> m.validation.Some? && m.validation.value.passed)
    && (m.state == RebuildRequired ==> m.validation.Some? && !m.validation.value.passed)
    && (m.state == Staged ==> m.validation.None?)
    && (m.pins > 0 ==> m.state == Published || m.state == Retiring)
    && (m.state == Retiring ==> m.pins > 0)
  }

  lemma {:induction false} PinsAreConserved(artifacts: seq<Artifact>, size: nat, calls: seq<ManifestCall>)
    ensures var m0 := Manifest(artifacts, size, None, Staged, 0);
            var m := ManifestRun(m0, calls);
            && ManifestInv(m)
            && m.artifacts == artifacts && m.totalPayloadBytes == size
            && m.pins + Count(m0, calls, Unpin) == Count(m0, calls, Pin)
  {
    if calls != [] {
      PinsAreConserved(artifacts, size, calls[..|calls| - 1]);
    }
  }

  /** A retired generation has no readers left and never changes again. */
  lemma {:induction false} RetiredIsFinal(m: Manifest, calls: seq<ManifestCall>)
    requires ManifestInv(m) && m.state == Retired
    ensures ManifestRun(m, calls) == m && m.pins == 0
  {
    if calls != [] {
      RetiredIsFinal(m, calls[..|calls| - 1]);
    }
  }
}
