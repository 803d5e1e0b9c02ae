/**
 When each call of a build job or of a generation is accepted and what it then does, over every
 run from the start (crates/context-build/src/lib.rs).
 */
module BuildJobLaws {
  import opened BuildJob
  import opened Wrappers

  // ---------- build jobs ----------

  ghost predicate GoodTerm(now: nat, ttl: nat) {
    0 < ttl && now + ttl < 0x1_0000_0000_0000_0000
  }

  /** The calls a reachable job accepts. */
  ghost predicate Admits(j: Job, c: Call) {
    match c
    case Claim(_, now, ttl) =>
      && GoodTerm(now, ttl)
      && (j.status == Planned || (j.status == Abandoned && j.attempt < 0xffff_ffff))
    case Retry => j.status in {Failed, Cancelled, Abandoned} && j.attempt < 0xffff_ffff
    case RenewLease(worker, now, ttl) =>
      && GoodTerm(now, ttl)
      && exists expiresAt :: j.lease == Some(JobLease(worker, expiresAt)) && now < expiresAt
    case RecoverExpiredLease(now) => j.lease.Some? && j.lease.value.expiresAt <= now
    case CheckpointTo(processed) => j.status == CancelRequested || (j.status == Running && processed <= j.total)
    case RequestCancel => j.status in {Planned, Running, Validating, CancelRequested}
    case RecordValidation(_) => j.status == Validating
    case Revalidate => j.status == Publishing
    case Publish(generation) => j.status == Publishing || j.generation == Some(generation)
    case Fail => j.lease.Some?
  }

  /**
   In every run of a planned job, a call is accepted exactly when the job admits it: a lease is
   recovered only once it has expired and renewed only before, by its own worker.
   */
  lemma AcceptedIffAdmitted(total: nat, calls: seq<Call>, i: nat)
    requires i < |calls|
    ensures SucceedsAt(PlannedJob(total), calls, i) <==> Admits(Run(PlannedJob(total), calls[..i]), calls[i])
  {
    var k, c := Run(PlannedJob(total), calls[..i]), calls[i];
    RunKeepsInv(total, calls[..i]);
    if c.RenewLease? && k.lease.Some? {
      assert k.lease == Some(JobLease(k.lease.value.worker, k.lease.value.expiresAt));
    }
  }

  /** The largest checkpoint accepted from a running job. */
  ghost function LargestCheckpoint(j: Job, calls: seq<Call>): nat {
    if calls == [] then
      0
    else
      var n := |calls| - 1;
      var before := LargestCheckpoint(j, calls[..n]);
      if calls[n].CheckpointTo? && Run(j, calls[..n]).status == Running && SucceedsAt(j, calls, n)
         && calls[n].processed > before
      then calls[n].processed else before
  }

  /** Progress is the largest accepted checkpoint: accepted ones are recorded, older ones change nothing. */
  lemma {:induction false} ProgressIsLargestCheckpoint(total: nat, calls: seq<Call>)
    ensures Run(PlannedJob(total), calls).processed == LargestCheckpoint(PlannedJob(total), calls)
  {
    if calls != [] {
      ProgressIsLargestCheckpoint(total, calls[..|calls| - 1]);
    }
  }

  /** Where an accepted call leads. */
  ghost function Leads(j: Job, c: Call): Status {
    match c
    case Claim(_, _, _) => if j.processed < j.total then Running else Validating
    case Retry => Planned
    case RenewLease(_, _, _) => j.status
    case RecoverExpiredLease(_) => Abandoned
    case CheckpointTo(processed) =>
      if j.status == CancelRequested then Cancelled else if processed < j.total then Running else Validating
    case RequestCancel => if j.status == Planned then Cancelled else CancelRequested
    case RecordValidation(v) => if v.passed then Publishing else Failed
    case Revalidate => Validating
    case Publish(_) => Completed
    case Fail => Failed
  }

  /** Attempts begin with every accepted retry and every claim of an abandoned job. */
  ghost function Attempts(j: Job, calls: seq<Call>): nat {
    if calls == [] then
      1
    else
      var n := |calls| - 1;
      Attempts(j, calls[..n]) +
      if SucceedsAt(j, calls, n) && (calls[n].Retry? || (calls[n].Claim? && Run(j, calls[..n]).status == Abandoned))
      then 1 else 0
  }

  /** The lease granted last, while the job is active. */
  ghost function LastLease(j: Job, calls: seq<Call>): Option<JobLease> {
    if calls == [] then
      None
    else
      var n := |calls| - 1;
      if !IsActive(Run(j, calls).status) then None
      else if SucceedsAt(j, calls, n) && (calls[n].Claim? || calls[n].RenewLease?)
      then Some(JobLease(calls[n].worker, calls[n].now + calls[n].ttl))
      else LastLease(j, calls[..n])
  }

  /** The generation of the publication, if the job is completed. */
  ghost function PublishedGeneration(j: Job, calls: seq<Call>): Option<nat> {
    if calls == [] then
      None
    else
      var n := |calls| - 1;
      if SucceedsAt(j, calls, n) && calls[n].Publish? then Some(calls[n].generation)
      else PublishedGeneration(j, calls[..n])
  }

  /** Status, attempt, lease and generation of a job follow from its accepted calls. */
  lemma {:induction false} RunIsHistory(total: nat, calls: seq<Call>)
    ensures var j0 := PlannedJob(total);
            var j := Run(j0, calls);
            && j.attempt == Attempts(j0, calls)
            && j.lease == LastLease(j0, calls)
            && j.generation == PublishedGeneration(j0, calls)
            && (calls != [] ==>
                  var n := |calls| - 1;
                  var before := Run(j0, calls[..n]);
                  j.status == if SucceedsAt(j0, calls, n) then Leads(before, calls[n]) else before.status)
  {
    if calls != [] {
      var n := |calls| - 1;
      RunIsHistory(total, calls[..n]);
      RunKeepsInv(total, calls[..n]);
      if SucceedsAt(PlannedJob(total), calls, n) {
        HistoryStep(Run(PlannedJob(total), calls[..n]), calls[n]);
      }
    }
  }

  lemma HistoryStep(j: Job, c: Call)
    requires Inv(j) && Step(j, c).Ok?
    ensures var k := Step(j, c).value;
            && k.status == Leads(j, c)
            && k.attempt == j.attempt + (if c.Retry? || (c.Claim? && j.status == Abandoned) then 1 else 0)
            && k.generation == (if c.Publish? then Some(c.generation) else j.generation)
            && k.lease == (if !IsActive(k.status) then None
                           else if c.Claim? || c.RenewLease? then Some(JobLease(c.worker, c.now + c.ttl)) else j.lease)
  {
  }

  // ---------- generations ----------

  /** The calls a generation accepts. */
  ghost predicate ManifestAdmits(m: Manifest, c: ManifestCall) {
    match c
    case Validate(v) => m.state == Staged || (m.validation == Some(v) && m.state in {Validated, RebuildRequired})
    case PublishManifest => m.state in {Validated, Published}
    case Pin => m.state == Published && m.pins < 0xffff_ffff
    case Unpin => m.pins > 0
    case Retire => m.state in {Published, Retiring, Retired}
  }

  /**
   The state of a generation follows from its accepted calls: it is retired once asked to retire and
   without readers, retiring while readers are left, published before that, and validated before that.
   */
  lemma {:induction false} StateIsHistory(artifacts: seq<Artifact>, size: nat, calls: seq<ManifestCall>)
    ensures var m0 := Manifest(artifacts, size, None, Staged, 0);
            var m := ManifestRun(m0, calls);
            var published, retired := Count(m0, calls, PublishManifest) > 0, Count(m0, calls, Retire) > 0;
            && (retired ==> published)
            && (published ==> m.validation.Some? && m.validation.value.passed)
            && m.state == (if retired then (if m.pins == 0 then Retired else Retiring)
                           else if published then Published
                           else if m.validation.None? then Staged
                           else if m.validation.value.passed then Validated
                           else RebuildRequired)
  {
    if calls != [] {
      var m0, n := Manifest(artifacts, size, None, Staged, 0), |calls| - 1;
      StateIsHistory(artifacts, size, calls[..n]);
      PinsAreConserved(artifacts, size, calls[..n]);
    }
  }

  /** In every run of a staged generation, a call is accepted exactly when the generation admits it. */
  lemma ManifestAcceptsIff(artifacts: seq<Artifact>, size: nat, calls: seq<ManifestCall>, c: ManifestCall)
    ensures var m := ManifestRun(Manifest(artifacts, size, None, Staged, 0), calls);
            ManifestStep(m, c).Ok? <==> ManifestAdmits(m, c)
  {
    PinsAreConserved(artifacts, size, calls);
  }

  /** The validation of a generation is the one that was accepted; no two different ones are. */
  lemma {:induction false} ValidationIsUnique(artifacts: seq<Artifact>, size: nat, calls: seq<ManifestCall>,
                                              v: Validation)
    ensures var m0 := Manifest(artifacts, size, None, Staged, 0);
            ManifestRun(m0, calls).validation == Some(v) <==> Count(m0, calls, Validate(v)) > 0
  {
    if calls != [] {
      ValidationIsUnique(artifacts, size, calls[..|calls| - 1], v);
      PinsAreConserved(artifacts, size, calls[..|calls| - 1]);
    }
  }
}
