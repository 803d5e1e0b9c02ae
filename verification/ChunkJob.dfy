/**
 The fenced lifecycle of one document-chunk job (crates/context-build/src/document_chunk_job.rs).

 `Step` gives every call's new state and reply; the class performs the calls in place and is
 proved against it. The theorems range over whole runs: any sequence of calls, with any
 clocks, tokens and leases, on a newly created job.
 */
module ChunkJob {
  import opened Wrappers

  const MAX_ATTEMPTS: nat := 3
  const MAX_LEASE_TICKS: nat := 60_000
  const U64_MAX: nat := 0xffff_ffff_ffff_ffff

  datatype Status =
    | Queued | Leased | Parsing | Chunking | Embedding | Validating | Publishing
    | Ready | CancelRequested | Cancelled | Failed | Superseded | Retired

  datatype Lease = Lease(token: nat, expiresAt: nat)

  datatype Error =
    | InvalidIdentity | InvalidLease | LeaseHeld | StaleLease | LeaseExpired | InvalidTransition
    | ProgressExceedsTotal | RetryLimit | ConflictingPublication | SourceVersionNotNewer | ArithmeticOverflow

  datatype Job = Job(
    sourceVersion: nat,
    profileRevision: nat,
    status: Status,
    attempt: nat,
    processedUnits: nat,
    totalUnits: nat,
    lease: Option<Lease>,
    priorReadyGeneration: Option<nat>,
    publicationDigest: Option<nat>)

  predicate AllowsAdvance(from: Status, to: Status) {
    match from
    case Leased => to == Parsing
    case Parsing => to == Chunking
    case Chunking => to == Embedding
    case Embedding => to == Validating
    case Validating => to == Publishing
    case _ => false
  }

  predicate IsActive(s: Status) {
    s in {Leased, Parsing, Chunking, Embedding, Validating, Publishing, CancelRequested}
  }

  // ---------- transitions ----------

  datatype Call =
    | Claim(now: nat, leaseTicks: nat, token: nat)
    | Heartbeat(lease: Lease, leaseTicks: nat, now: nat)
    | Advance(lease: Lease, now: nat, next: Status, processed: nat)
    | Publish(lease: Lease, now: nat, digest: nat)
    | Cancel
    | FinishCancellation(lease: Lease, now: nat)
    | Fail(lease: Lease, now: nat)
    | Retry
    | Supersede(newerVersion: nat)

  datatype Reply = Granted(lease: Lease) | Done | Rejected(error: Error)

  datatype Outcome = Outcome(job: Job, reply: Reply)

  function NewJob(sourceVersion: nat, profileRevision: nat, totalUnits: nat, prior: nat): Result<Job, Error> {
    if sourceVersion == 0 || profileRevision == 0 then
      Err(InvalidIdentity)
    else if totalUnits == 0 then
      Err(ProgressExceedsTotal)
    else
      Ok(Job(sourceVersion, profileRevision, Queued, 0, 0, totalUnits, None,
             if prior == 0 then None else Some(prior), None))
  }

  /** Why a presented lease is not the current unexpired one, if it is not. */
  function LeaseProblem(j: Job, lease: Lease, now: nat): Option<Error> {
    if j.lease != Some(lease) then Some(StaleLease)
    else if now >= lease.expiresAt then Some(LeaseExpired)
    else None
  }

  function Held(j: Job, now: nat): bool {
    j.lease.Some? && now < j.lease.value.expiresAt
  }

  function ClaimStep(j: Job, now: nat, leaseTicks: nat, token: nat): Outcome {
    if leaseTicks == 0 || leaseTicks > MAX_LEASE_TICKS || token == 0 then
      Outcome(j, Rejected(InvalidLease))
    else if j.status == CancelRequested then
      if Held(j, now) then Outcome(j, Rejected(LeaseHeld))
      else Outcome(j.(status := Cancelled, lease := None), Rejected(InvalidTransition))
    else if j.attempt >= MAX_ATTEMPTS then
      Outcome(j, Rejected(RetryLimit))
    else if Held(j, now) then
      Outcome(j, Rejected(LeaseHeld))
    else if j.status != Queued && !IsActive(j.status) then
      Outcome(j, Rejected(InvalidTransition))
    else if now + leaseTicks > U64_MAX then
      Outcome(j, Rejected(ArithmeticOverflow))
    else
      var lease := Lease(token, now + leaseTicks);
      Outcome(j.(lease := Some(lease), attempt := j.attempt + 1, status := Leased, processedUnits := 0), Granted(lease))
  }

  function HeartbeatStep(j: Job, lease: Lease, leaseTicks: nat, now: nat): Outcome {
    match LeaseProblem(j, lease, now)
    case Some(e) => Outcome(j, Rejected(e))
    case None =>
      if j.status == CancelRequested then
        Outcome(j.(status := Cancelled, lease := None), Rejected(InvalidTransition))
      else if leaseTicks == 0 || leaseTicks > MAX_LEASE_TICKS then
        Outcome(j, Rejected(InvalidLease))
      else if now + leaseTicks > U64_MAX then
        Outcome(j, Rejected(ArithmeticOverflow))
      else
        var renewed := Lease(lease.token, now + leaseTicks);
        Outcome(j.(lease := Some(renewed)), Granted(renewed))
  }

  function AdvanceStep(j: Job, lease: Lease, now: nat, next: Status, processed: nat): Outcome {
    match LeaseProblem(j, lease, now)
    case Some(e) => Outcome(j, Rejected(e))
    case None =>
      if processed > j.totalUnits || processed < j.processedUnits then
        Outcome(j, Rejected(ProgressExceedsTotal))
      else if j.status != next && !AllowsAdvance(j.status, next) then
        Outcome(j, Rejected(InvalidTransition))
      else
        Outcome(j.(status := next, processedUnits := processed), Done)
  }

  function PublishStep(j: Job, lease: Lease, now: nat, digest: nat): Outcome {
    match LeaseProblem(j, lease, now)
    case Some(e) => Outcome(j, Rejected(e))
    case None =>
      if digest == 0 then
        Outcome(j, Rejected(InvalidIdentity))
      else if j.status == Ready then
        Outcome(j, if j.publicationDigest == Some(digest) then Done else Rejected(ConflictingPublication))
      else if j.status != Publishing then
        Outcome(j, Rejected(InvalidTransition))
      else
        Outcome(j.(publicationDigest := Some(digest), status := Ready, processedUnits := j.totalUnits), Done)
  }

  function FinishCancellationStep(j: Job, lease: Lease, now: nat): Outcome {
    match LeaseProblem(j, lease, now)
    case Some(e) => Outcome(j, Rejected(e))
    case None =>
      if j.status != CancelRequested then Outcome(j, Rejected(InvalidTransition))
      else Outcome(j.(status := Cancelled, lease := None), Done)
  }

  function FailStep(j: Job, lease: Lease, now: nat): Outcome {
    match LeaseProblem(j, lease, now)
    case Some(e) => Outcome(j, Rejected(e))
    case None =>
      if !IsActive(j.status) then Outcome(j, Rejected(InvalidTransition))
      else Outcome(j.(status := Failed, lease := None), Done)
  }

  function Step(j: Job, c: Call): Outcome {
    match c
    case Claim(now, leaseTicks, token) => ClaimStep(j, now, leaseTicks, token)
    case Heartbeat(lease, leaseTicks, now) => HeartbeatStep(j, lease, leaseTicks, now)
    case Advance(lease, now, next, processed) => AdvanceStep(j, lease, now, next, processed)
    case Publish(lease, now, digest) => PublishStep(j, lease, now, digest)
    case Cancel =>
      if !IsActive(j.status) then Outcome(j, Rejected(InvalidTransition))
      else Outcome(j.(status := CancelRequested), Done)
    case FinishCancellation(lease, now) => FinishCancellationStep(j, lease, now)
    case Fail(lease, now) => FailStep(j, lease, now)
    case Retry =>
      if j.status != Cancelled && j.status != Failed then Outcome(j, Rejected(InvalidTransition))
      else if j.attempt >= MAX_ATTEMPTS then Outcome(j, Rejected(RetryLimit))
      else Outcome(j.(status := Queued), Done)
    case Supersede(newerVersion) =>
      if newerVersion <= j.sourceVersion then Outcome(j, Rejected(SourceVersionNotNewer))
      else if j.status == Ready || j.status == Retired then Outcome(j, Rejected(InvalidTransition))
      else Outcome(j.(status := Superseded, lease := None), Done)
  }

  // ---------- the mutable job ----------

  class DocumentChunkJob {
    const sourceVersion: nat
    const profileRevision: nat
    var status: Status
    var attempt: nat
    var processedUnits: nat
    const totalUnits: nat
    var lease: Option<Lease>
    const priorReadyGeneration: Option<nat>
    var publicationDigest: Option<nat>

    function State(): Job
      reads this
    {
      Job(sourceVersion, profileRevision, status, attempt, processedUnits, totalUnits, lease,
          priorReadyGeneration, publicationDigest)
    }

    constructor (sourceVersion: nat, profileRevision: nat, totalUnits: nat, prior: nat)
      requires sourceVersion != 0 && profileRevision != 0 && totalUnits != 0
      ensures NewJob(sourceVersion, profileRevision, totalUnits, prior) == Ok(State())
    {
      this.sourceVersion, this.profileRevision, this.totalUnits := sourceVersion, profileRevision, totalUnits;
      status, attempt, processedUnits, lease, publicationDigest := Queued, 0, 0, None, None;
      priorReadyGeneration := if prior == 0 then None else Some(prior);
    }

    method ClaimLease(now: nat, leaseTicks: nat, token: nat) returns (r: Result<Lease, Error>)
      modifies this
      ensures Step(old(State()), Claim(now, leaseTicks, token))
           == Outcome(State(), if r.Ok? then Granted(r.value) else Rejected(r.error))
    {
      if leaseTicks == 0 || leaseTicks > MAX_LEASE_TICKS || token == 0 {
        return Err(InvalidLease);
      }
      if status == CancelRequested {
        if lease.Some? && now < lease.value.expiresAt {
          return Err(LeaseHeld);
        }
        status := Cancelled;
        lease := None;
        return Err(InvalidTransition);
      }
      if attempt >= MAX_ATTEMPTS {
        return Err(RetryLimit);
      }
      if lease.Some? && now < lease.value.expiresAt {
        return Err(LeaseHeld);
      }
      if status != Queued && !IsActive(status) {
        return Err(InvalidTransition);
      }
      if now + leaseTicks > U64_MAX {
        return Err(ArithmeticOverflow);
      }
      var granted := Lease(token, now + leaseTicks);
      lease := Some(granted);
      attempt := attempt + 1;
      status := Leased;
      processedUnits := 0;
      return Ok(granted);
    }

    method RequireLease(presented: Lease, now: nat) returns (r: Option<Error>)
      ensures r == LeaseProblem(State(), presented, now)
    {
      if lease != Some(presented) {
        return Some(StaleLease);
      }
      if now >= presented.expiresAt {
        return Some(LeaseExpired);
      }
      return None;
    }

    method HeartbeatLease(presented: Lease, leaseTicks: nat, now: nat) returns (r: Result<Lease, Error>)
      modifies this
      ensures Step(old(State()), Heartbeat(presented, leaseTicks, now))
           == Outcome(State(), if r.Ok? then Granted(r.value) else Rejected(r.error))
    {
      var problem := RequireLease(presented, now);
      if problem.Some? {
        return Err(problem.value);
      }
      if status == CancelRequested {
        status := Cancelled;
        lease := None;
        return Err(InvalidTransition);
      }
      if leaseTicks == 0 || leaseTicks > MAX_LEASE_TICKS {
        return Err(InvalidLease);
      }
      if now + leaseTicks > U64_MAX {
        return Err(ArithmeticOverflow);
      }
      var renewed := Lease(presented.token, now + leaseTicks);
      lease := Some(renewed);
      return Ok(renewed);
    }

    method AdvanceStage(presented: Lease, now: nat, next: Status, processed: nat) returns (r: Option<Error>)
      modifies this
      ensures Step(old(State()), Advance(presented, now, next, processed))
           == Outcome(State(), if r.None? then Done else Rejected(r.value))
    {
      var problem := RequireLease(presented, now);
      if problem.Some? {
        return problem;
      }
      if processed > totalUnits || processed < processedUnits {
        return Some(ProgressExceedsTotal);
      }
      if status != next && !AllowsAdvance(status, next) {
        return Some(InvalidTransition);
      }
      status := next;
      processedUnits := processed;
      return None;
    }

    method PublishDigest(presented: Lease, now: nat, digest: nat) returns (r: Option<Error>)
      modifies this
      ensures Step(old(State()), Publish(presented, now, digest))
           == Outcome(State(), if r.None? then Done else Rejected(r.value))
    {
      var problem := RequireLease(presented, now);
      if problem.Some? {
        return problem;
      }
      if digest == 0 {
        return Some(InvalidIdentity);
      }
      if status == Ready {
        return if publicationDigest == Some(digest) then None else Some(ConflictingPublication);
      }
      if status != Publishing {
        return Some(InvalidTransition);
      }
      publicationDigest := Some(digest);
      status := Ready;
      processedUnits := totalUnits;
      return None;
    }

    method RequestCancel() returns (r: Option<Error>)
      modifies this
      ensures Step(old(State()), Cancel) == Outcome(State(), if r.None? then Done else Rejected(r.value))
    {
      if !IsActive(status) {
        return Some(InvalidTransition);
      }
      status := CancelRequested;
      return None;
    }

    method FinishCancel(presented: Lease, now: nat) returns (r: Option<Error>)
      modifies this
      ensures Step(old(State()), FinishCancellation(presented, now))
           == Outcome(State(), if r.None? then Done else Rejected(r.value))
    {
      var problem := RequireLease(presented, now);
      if problem.Some? {
        return problem;
      }
      if status != CancelRequested {
        return Some(InvalidTransition);
      }
      status := Cancelled;
      lease := None;
      return None;
    }

    method RecordFailure(presented: Lease, now: nat) returns (r: Option<Error>)
      modifies this
      ensures Step(old(State()), Fail(presented, now)) == Outcome(State(), if r.None? then Done else Rejected(r.value))
    {
      var problem := RequireLease(presented, now);
      if problem.Some? {
        return problem;
      }
      if !IsActive(status) {
        return Some(InvalidTransition);
      }
      status := Failed;
      lease := None;
      return None;
    }

    method RetryJob() returns (r: Option<Error>)
      modifies this
      ensures Step(old(State()), Retry) == Outcome(State(), if r.None? then Done else Rejected(r.value))
    {
      if status != Cancelled && status != Failed {
        return Some(InvalidTransition);
      }
      if attempt >= MAX_ATTEMPTS {
        return Some(RetryLimit);
      }
      status := Queued;
      return None;
    }

    method SupersedeJob(newerVersion: nat) returns (r: Option<Error>)
      modifies this
      ensures Step(old(State()), Supersede(newerVersion))
           == Outcome(State(), if r.None? then Done else Rejected(r.value))
    {
      if newerVersion <= sourceVersion {
        return Some(SourceVersionNotNewer);
      }
      if status == Ready || status == Retired {
        return Some(InvalidTransition);
      }
      status := Superseded;
      lease := None;
      return None;
    }
  }

  // ---------- runs ----------

  /** The job after a sequence of calls, whatever their replies. */
  ghost function Run(j: Job, calls: seq<Call>): Job {
    if calls == [] then j else Step(Run(j, calls[..|calls| - 1]), calls[|calls| - 1]).job
  }

  /** The reply to call i of a run. */
  ghost function ReplyAt(j: Job, calls: seq<Call>, i: nat): Reply
    requires i < |calls|
  {
    Step(Run(j, calls[..i]), calls[i]).reply
  }

  ghost predicate IsNew(j: Job) {
    exists v, p, t, g :: NewJob(v, p, t, g) == Ok(j)
  }

  // ---------- one call at a time ----------

  /** What every reachable job satisfies: in particular a lease exists exactly in active and Ready states. */
  ghost predicate Inv(j: Job) {
    && (j.lease.Some? <==> IsActive(j.status) || j.status == Ready)
    && (j.publicationDigest.Some? <==> j.status == Ready)
    && j.attempt <= MAX_ATTEMPTS
    && j.processedUnits <= j.totalUnits
    && (j.status == Ready ==> j.processedUnits == j.totalUnits)
    && j.status != Retired
  }

  lemma StepKeepsInv(j: Job, c: Call)
    requires Inv(j)
    ensures Inv(Step(j, c).job)
  {
  }

  /** The two error paths that still finish a requested cancellation. */
  ghost predicate CancelsOnError(j: Job, c: Call) {
    && j.status == CancelRequested
    && match c {
         case Claim(now, leaseTicks, token) => 0 < leaseTicks <= MAX_LEASE_TICKS && token != 0 && !Held(j, now)
         case Heartbeat(lease, _, now) => LeaseProblem(j, lease, now).None?
         case _ => false
       }
  }

  /** A rejected call changes the job exactly on those two paths, and then only cancels it. */
  lemma RejectedCallsChangeNothingElse(j: Job, c: Call)
    requires Inv(j) && Step(j, c).reply.Rejected?
    ensures Step(j, c).job == if CancelsOnError(j, c) then j.(status := Cancelled, lease := None) else j
    ensures Step(j, c).job != j <==> CancelsOnError(j, c)
  {
  }

  lemma {:induction false} RunKeepsInv(j: Job, calls: seq<Call>)
    requires Inv(j)
    ensures Inv(Run(j, calls))
  {
    if calls != [] {
      RunKeepsInv(j, calls[..|calls| - 1]);
      StepKeepsInv(Run(j, calls[..|calls| - 1]), calls[|calls| - 1]);
    }
  }

  /** No run changes the job's identity, its total work or the generation it would replace. */
  lemma {:induction false} RunKeepsIdentity(j: Job, calls: seq<Call>)
    ensures var k := Run(j, calls);
            && k.sourceVersion == j.sourceVersion && k.profileRevision == j.profileRevision
            && k.totalUnits == j.totalUnits && k.priorReadyGeneration == j.priorReadyGeneration
  {
    if calls != [] {
      RunKeepsIdentity(j, calls[..|calls| - 1]);
    }
  }

  /** In every run of a new job a lease exists exactly while the job is active or Ready. */
  lemma LeaseExactlyWhenActiveOrReady(j: Job, calls: seq<Call>)
    requires IsNew(j)
    ensures Inv(Run(j, calls))
    ensures Run(j, calls).lease.Some? <==> IsActive(Run(j, calls).status) || Run(j, calls).status == Ready
  {
    RunKeepsInv(j, calls);
  }

  // ---------- fencing ----------

  /** Call i claimed the job. */
  ghost predicate ClaimedAt(j: Job, calls: seq<Call>, i: nat) {
    i < |calls| && calls[i].Claim? && ReplyAt(j, calls, i).Granted?
  }

  /** Call i was answered with a lease: a successful claim or heartbeat. */
  ghost predicate GrantedAt(j: Job, calls: seq<Call>, i: nat) {
    i < |calls| && ReplyAt(j, calls, i).Granted?
  }

  /** No two successful claims of the run used the same token. */
  ghost predicate FreshTokens(j: Job, calls: seq<Call>) {
    forall i, k :: 0 <= i < k < |calls| && ClaimedAt(j, calls, i) && ClaimedAt(j, calls, k) ==>
      calls[i].token != calls[k].token
  }

  ghost predicate Presents(c: Call, lease: Lease) {
    match c
    case Heartbeat(l, _, _) => l == lease
    case Advance(l, _, _, _) => l == lease
    case Publish(l, _, _) => l == lease
    case FinishCancellation(l, _) => l == lease
    case Fail(l, _) => l == lease
    case _ => false
  }

  lemma PrefixReplies(j: Job, calls: seq<Call>, n: nat, i: nat)
    requires i < n <= |calls|
    ensures ReplyAt(j, calls[..n], i) == ReplyAt(j, calls, i)
    ensures ClaimedAt(j, calls[..n], i) == ClaimedAt(j, calls, i)
    ensures GrantedAt(j, calls[..n], i) == GrantedAt(j, calls, i)
  {
    assert calls[..n][..i] == calls[..i];
  }

  /** Apart from a successful claim, a call keeps the lease's token or drops the lease, and keeps the attempt count. */
  lemma LeaseTokenStep(j: Job, c: Call)
    ensures if c.Claim? && Step(j, c).reply.Granted? then
              && Step(j, c).job.attempt == j.attempt + 1
              && Step(j, c).job.lease.Some? && Step(j, c).job.lease.value.token == c.token
            else
              && Step(j, c).job.attempt == j.attempt
              && (Step(j, c).job.lease.Some? ==>
                    j.lease.Some? && Step(j, c).job.lease.value.token == j.lease.value.token)
  {
  }

  /** The current lease carries the token of the last successful claim. */
  lemma {:induction false} LeaseIsFromLastClaim(j: Job, calls: seq<Call>) returns (last: nat)
    requires IsNew(j) && Run(j, calls).lease.Some?
    ensures ClaimedAt(j, calls, last) && calls[last].token == Run(j, calls).lease.value.token
    ensures forall i :: last < i < |calls| ==> !ClaimedAt(j, calls, i)
  {
    hide Step;
    assert calls != [];
    var n := |calls| - 1;
    LeaseTokenStep(Run(j, calls[..n]), calls[n]);
    if ClaimedAt(j, calls, n) {
      last := n;
    } else {
      last := LeaseIsFromLastClaim(j, calls[..n]);
      PrefixReplies(j, calls, n, last);
      forall i | last < i < |calls| ensures !ClaimedAt(j, calls, i) {
        if i < n {
          PrefixReplies(j, calls, n, i);
        }
      }
    }
  }

  /**
   Fencing: once a later claim has succeeded, a lease of an earlier claim is refused as stale
   by every call that takes one, and the job stays as it is.
   */
  lemma EarlierLeaseIsFenced(j: Job, calls: seq<Call>, i: nat, k: nat, lease: Lease, c: Call)
    requires IsNew(j) && FreshTokens(j, calls)
    requires i < k && ClaimedAt(j, calls, i) && ClaimedAt(j, calls, k)
    requires lease.token == calls[i].token && Presents(c, lease)
    ensures Step(Run(j, calls), c) == Outcome(Run(j, calls), Rejected(StaleLease))
  {
    if Run(j, calls).lease.Some? {
      var last := LeaseIsFromLastClaim(j, calls);
      assert i < last;
      assert calls[i].token != calls[last].token;
    }
  }

  /** What is granted is the presented or claimed token with the new expiry, and it is then the held lease. */
  lemma GrantStep(j: Job, c: Call)
    ensures Step(j, c).reply.Granted? ==>
              var lease := Step(j, c).reply.lease;
              && Step(j, c).job.lease == Some(lease) && 0 < lease.expiresAt <= U64_MAX
              && match c {
                   case Claim(now, leaseTicks, token) => lease == Lease(token, now + leaseTicks)
                   case Heartbeat(presented, leaseTicks, now) => lease == Lease(presented.token, now + leaseTicks)
                   case _ => false
                 }
    ensures !Step(j, c).reply.Granted? ==> Step(j, c).job.lease.None? || Step(j, c).job.lease == j.lease
  {
  }

  /** The held lease is the last one granted. */
  lemma {:induction false} HeldIsLastGrant(j: Job, calls: seq<Call>) returns (last: nat)
    requires IsNew(j) && Run(j, calls).lease.Some?
    ensures GrantedAt(j, calls, last) && Run(j, calls).lease == Some(ReplyAt(j, calls, last).lease)
    ensures 0 < Run(j, calls).lease.value.expiresAt <= U64_MAX
    ensures forall i :: last < i < |calls| ==> !GrantedAt(j, calls, i)
  {
    hide Step;
    assert calls != [];
    var n := |calls| - 1;
    GrantStep(Run(j, calls[..n]), calls[n]);
    if GrantedAt(j, calls, n) {
      last := n;
    } else {
      last := HeldIsLastGrant(j, calls[..n]);
      PrefixReplies(j, calls, n, last);
      forall i | last < i < |calls| ensures !GrantedAt(j, calls, i) {
        if i < n {
          PrefixReplies(j, calls, n, i);
        }
      }
    }
  }

  lemma HeldAfterGrant(j: Job, calls: seq<Call>, m: nat)
    requires GrantedAt(j, calls, m)
    ensures Run(j, calls[..m + 1]).lease == Some(ReplyAt(j, calls, m).lease)
  {
    hide Step;
    assert calls[..m + 1][..m] == calls[..m];
    GrantStep(Run(j, calls[..m]), calls[m]);
  }

  /** Every call that presents the lease is refused as stale and changes nothing. */
  ghost predicate Fenced(j: Job, lease: Lease) {
    forall c :: Presents(c, lease) ==> Step(j, c) == Outcome(j, Rejected(StaleLease))
  }

  /** Some call that presents the lease is accepted or changes the job. */
  ghost predicate Honoured(j: Job, lease: Lease) {
    exists c :: Presents(c, lease) && (!Step(j, c).reply.Rejected? || Step(j, c).job != j)
  }

  /** Until it expires, a heartbeat with the held lease renews it or finishes a requested cancellation. */
  lemma HeldLeaseIsHonoured(j: Job, now: nat)
    requires j.lease.Some? && now < j.lease.value.expiresAt <= U64_MAX
    ensures var c := Heartbeat(j.lease.value, 1, now);
            Step(j, c).reply == Granted(Lease(j.lease.value.token, now + 1)) || Step(j, c).job != j
  {
  }

  /** In every run a lease is fenced exactly when it is not the held one, and honoured exactly when it is. */
  lemma FencedIffNotHeld(j: Job, calls: seq<Call>, lease: Lease)
    requires IsNew(j)
    ensures Fenced(Run(j, calls), lease) <==> Run(j, calls).lease != Some(lease)
    ensures Honoured(Run(j, calls), lease) <==> Run(j, calls).lease == Some(lease)
  {
    var job := Run(j, calls);
    if job.lease == Some(lease) {
      var last := HeldIsLastGrant(j, calls);
      HeldLeaseIsHonoured(job, lease.expiresAt - 1);
      assert Presents(Heartbeat(lease, 1, lease.expiresAt - 1), lease);
    }
  }

  /** At every point after a successful claim, each lease granted before that claim is fenced. */
  ghost predicate AlwaysFenced(j: Job, calls: seq<Call>) {
    forall n, i, k :: 0 <= i < k < n <= |calls| && GrantedAt(j, calls, i) && ClaimedAt(j, calls, k) ==>
      Fenced(Run(j, calls[..n]), ReplyAt(j, calls, i).lease)
  }

  /** At no point after a successful claim is a lease granted before that claim honoured. */
  ghost predicate NeverReplayed(j: Job, calls: seq<Call>) {
    forall n, i, k :: 0 <= i < k < n <= |calls| && GrantedAt(j, calls, i) && ClaimedAt(j, calls, k) ==>
      !Honoured(Run(j, calls[..n]), ReplyAt(j, calls, i).lease)
  }

  /** No grant at or after a successful claim equals a lease granted before that claim. */
  ghost predicate NoLeaseReturns(j: Job, calls: seq<Call>) {
    forall i, k, m ::
      (0 <= i < k <= m < |calls| && GrantedAt(j, calls, i) && ClaimedAt(j, calls, k) && GrantedAt(j, calls, m)) ==>
      ReplyAt(j, calls, m).lease != ReplyAt(j, calls, i).lease
  }

  /**
   The exact condition of fencing: the leases of earlier claims are refused as stale throughout
   exactly when no equal lease is granted again, and where that fails one of them is honoured.
   */
  lemma RunIsFencedIffNoLeaseReturns(j: Job, calls: seq<Call>)
    requires IsNew(j)
    ensures AlwaysFenced(j, calls) <==> NoLeaseReturns(j, calls)
    ensures NeverReplayed(j, calls) <==> NoLeaseReturns(j, calls)
  {
    hide Step, Fenced, Honoured;
    if NoLeaseReturns(j, calls) {
      forall n, i, k | 0 <= i < k < n <= |calls| && GrantedAt(j, calls, i) && ClaimedAt(j, calls, k)
        ensures Fenced(Run(j, calls[..n]), ReplyAt(j, calls, i).lease)
        ensures !Honoured(Run(j, calls[..n]), ReplyAt(j, calls, i).lease)
      {
        FencedIffNotHeld(j, calls[..n], ReplyAt(j, calls, i).lease);
        UnreturnedIsNotHeld(j, calls, n, i, k);
      }
    }
    forall i, k, m | 0 <= i < k <= m < |calls|
      && GrantedAt(j, calls, i) && ClaimedAt(j, calls, k) && GrantedAt(j, calls, m)
      ensures AlwaysFenced(j, calls) || NeverReplayed(j, calls) ==>
                ReplyAt(j, calls, m).lease != ReplyAt(j, calls, i).lease
    {
      HeldAfterGrant(j, calls, m);
      FencedIffNotHeld(j, calls[..m + 1], ReplyAt(j, calls, i).lease);
      assert 0 <= i < k < m + 1 <= |calls|;
    }
  }

  lemma UnreturnedIsNotHeld(j: Job, calls: seq<Call>, n: nat, i: nat, k: nat)
    requires IsNew(j) && NoLeaseReturns(j, calls)
    requires i < k < n <= |calls| && GrantedAt(j, calls, i) && ClaimedAt(j, calls, k)
    ensures Run(j, calls[..n]).lease != Some(ReplyAt(j, calls, i).lease)
  {
    hide Step;
    if Run(j, calls[..n]).lease.Some? {
      var last := HeldIsLastGrant(j, calls[..n]);
      PrefixReplies(j, calls, n, last);
      PrefixReplies(j, calls, n, k);
      assert GrantedAt(j, calls[..n], k);
      assert k <= last && GrantedAt(j, calls, last);
    }
  }

  /** The token of a grant is that of the last successful claim up to it. */
  lemma GrantCarriesClaim(j: Job, calls: seq<Call>, m: nat) returns (claim: nat)
    requires IsNew(j) && GrantedAt(j, calls, m)
    ensures claim <= m && ClaimedAt(j, calls, claim) && calls[claim].token == ReplyAt(j, calls, m).lease.token
    ensures forall k :: claim < k <= m ==> !ClaimedAt(j, calls, k)
  {
    hide Step;
    HeldAfterGrant(j, calls, m);
    var prefix := calls[..m + 1];
    claim := LeaseIsFromLastClaim(j, prefix);
    PrefixReplies(j, calls, m + 1, claim);
    forall k | claim < k <= m ensures !ClaimedAt(j, calls, k) {
      PrefixReplies(j, calls, m + 1, k);
    }
  }

  /** Fresh tokens are enough. */
  lemma FreshTokensSuffice(j: Job, calls: seq<Call>)
    requires IsNew(j) && FreshTokens(j, calls)
    ensures NoLeaseReturns(j, calls)
  {
    hide Step;
    forall i, k, m | 0 <= i < k <= m < |calls|
      && GrantedAt(j, calls, i) && ClaimedAt(j, calls, k) && GrantedAt(j, calls, m)
      ensures ReplyAt(j, calls, m).lease != ReplyAt(j, calls, i).lease
    {
      var a := GrantCarriesClaim(j, calls, i);
      var b := GrantCarriesClaim(j, calls, m);
      assert a < b;
    }
  }

  /** They are not needed: a token claimed again after its lease has expired stays fenced by the later expiry. */
  lemma FreshTokensAreNotNeeded(j: Job, now: nat, later: nat, leaseTicks: nat, token: nat)
    requires IsNew(j) && 0 < leaseTicks <= MAX_LEASE_TICKS && token != 0
    requires now + leaseTicks <= later && later + leaseTicks <= U64_MAX
    ensures var calls := [Claim(now, leaseTicks, token), Claim(later, leaseTicks, token)];
            && ClaimedAt(j, calls, 0) && ClaimedAt(j, calls, 1) && !FreshTokens(j, calls)
            && NoLeaseReturns(j, calls) && AlwaysFenced(j, calls)
  {
    hide AlwaysFenced;
    var calls := [Claim(now, leaseTicks, token), Claim(later, leaseTicks, token)];
    assert calls[..0] == [] && calls[..1][..0] == [];
    assert Run(j, calls[..1]) == j.(lease := Some(Lease(token, now + leaseTicks)), attempt := 1, status := Leased);
    assert ReplyAt(j, calls, 0) == Granted(Lease(token, now + leaseTicks));
    assert ReplyAt(j, calls, 1) == Granted(Lease(token, later + leaseTicks));
    assert calls[0].token == calls[1].token;
    RunIsFencedIffNoLeaseReturns(j, calls);
  }

  /**
   A lease can return, whatever the job, token and clock: after fail and retry the same claim
   recreates an equal lease, and the old holder advances the job with it.
   */
  lemma ReusedTokenIsNotFenced(j: Job, now: nat, leaseTicks: nat, token: nat)
    requires IsNew(j) && 0 < leaseTicks <= MAX_LEASE_TICKS && token != 0 && now + leaseTicks <= U64_MAX
    ensures var claim, stale := Claim(now, leaseTicks, token), Lease(token, now + leaseTicks);
            var calls := [claim, Fail(stale, now), Retry, claim];
            && ClaimedAt(j, calls, 0) && ReplyAt(j, calls, 0) == Granted(stale) && ClaimedAt(j, calls, 3)
            && Step(Run(j, calls), Advance(stale, now, Parsing, 0)).reply == Done
  {
    var claim, stale := Claim(now, leaseTicks, token), Lease(token, now + leaseTicks);
    var calls := [claim, Fail(stale, now), Retry, claim];
    assert calls[..0] == [] && calls[..1][..0] == [] && calls[..2][..1] == calls[..1];
    assert calls[..3][..2] == calls[..2] && calls[..4][..3] == calls[..3] && calls[..4] == calls;
    var j1 := j.(lease := Some(stale), attempt := 1, status := Leased);
    assert Run(j, calls[..1]) == j1;
    assert Run(j, calls[..2]) == j1.(lease := None, status := Failed);
    assert Run(j, calls[..3]) == j1.(lease := None, status := Queued);
    assert Run(j, calls) == j1.(attempt := 2);
  }

  // ---------- the walk to Ready ----------

  const WALK: seq<Status> := [Leased, Parsing, Chunking, Embedding, Validating, Publishing, Ready]

  /** The statuses passed through since the last successful claim, without repetitions. */
  ghost function Trail(j: Job, calls: seq<Call>): seq<Status> {
    if calls == [] then
      []
    else
      var n := |calls| - 1;
      var before := Trail(j, calls[..n]);
      var now := Run(j, calls).status;
      if ClaimedAt(j, calls, n) then [Leased]
      else if before != [] && before[|before| - 1] != now then before + [now]
      else before
  }

  /** A job at stage k of the walk has passed through exactly the stages up to k since its claim. */
  ghost predicate OnWalk(s: Status, trail: seq<Status>) {
    && (forall k :: 0 <= k < |WALK| && s == WALK[k] ==> trail == WALK[..k + 1])
    && (trail != [] ==> trail[|trail| - 1] == s)
    && (IsActive(s) || s == Ready ==> trail != [])
  }

  lemma WalkStep(j: Job, c: Call, trail: seq<Status>)
    requires Inv(j) && OnWalk(j.status, trail)
    requires !(c.Claim? && Step(j, c).reply.Granted?)
    ensures var now := Step(j, c).job.status;
            OnWalk(now, if trail != [] && trail[|trail| - 1] != now then trail + [now] else trail)
  {
    var now := Step(j, c).job.status;
    if now != j.status && now in WALK {
      assert AllowsAdvance(j.status, now) || (j.status == Publishing && now == Ready);
      var k := match j.status {
        case Leased => 0 case Parsing => 1 case Chunking => 2 case Embedding => 3 case Validating => 4 case _ => 5
      };
      assert WALK[k] == j.status && WALK[k + 1] == now;
      assert WALK[..k + 1] + [now] == WALK[..k + 2];
    }
  }

  lemma {:induction false} RunsStayOnWalk(j: Job, calls: seq<Call>)
    requires IsNew(j)
    ensures OnWalk(Run(j, calls).status, Trail(j, calls))
  {
    if calls != [] {
      var n := |calls| - 1;
      RunsStayOnWalk(j, calls[..n]);
      RunKeepsInv(j, calls[..n]);
      if ClaimedAt(j, calls, n) {
        assert WALK[..1] == [Leased];
      } else {
        WalkStep(Run(j, calls[..n]), calls[n], Trail(j, calls[..n]));
      }
    }
  }

  /** Ready is reached only by walking Leased through Publishing inside one claim, with no cancellation in between. */
  lemma ReadyOnlyByWalking(j: Job, calls: seq<Call>)
    requires IsNew(j) && Run(j, calls).status == Ready
    ensures Trail(j, calls) == WALK
  {
    RunsStayOnWalk(j, calls);
    assert WALK[6] == Ready && WALK[..7] == WALK;
  }

  /** A Ready job stays Ready with the same digest, attempt and progress in every continuation. */
  lemma {:induction false} ReadyIsFinal(j: Job, calls: seq<Call>)
    requires Inv(j) && j.status == Ready
    ensures var k := Run(j, calls);
            k == j.(lease := k.lease) && k.lease.Some?
  {
    if calls != [] {
      ReadyIsFinal(j, calls[..|calls| - 1]);
      RunKeepsInv(j, calls[..|calls| - 1]);
    }
  }

  lemma {:induction false} RunAppend(j: Job, calls: seq<Call>, more: seq<Call>)
    ensures Run(j, calls + more) == Run(Run(j, calls), more)
  {
    if more == [] {
      assert calls + more == calls;
    } else {
      var n := |more| - 1;
      assert (calls + more)[..|calls| + n] == calls + more[..n];
      RunAppend(j, calls, more[..n]);
    }
  }

  lemma {:induction false} SupersededStays(j: Job, calls: seq<Call>)
    requires Inv(j) && j.status == Superseded
    ensures Run(j, calls) == j
  {
    if calls != [] {
      SupersededStays(j, calls[..|calls| - 1]);
    }
  }

  lemma SupersedeStep(j: Job, newerVersion: nat)
    requires Inv(j)
    ensures var r := Step(j, Supersede(newerVersion));
            && (r.reply == Done <==> newerVersion > j.sourceVersion && j.status != Ready)
            && (r.reply == Done ==> r.job.status == Superseded && r.job.lease == None)
  {
  }

  lemma SupersededRefuses(j: Job, calls: seq<Call>)
    requires Inv(j) && j.status == Superseded
    ensures Run(j, calls) == j && j.lease == None
    ensures forall lease :: Fenced(j, lease)
    ensures forall c :: !Step(j, c).reply.Granted?
  {
    SupersededStays(j, calls);
  }

  /**
   Superseding is accepted exactly for a newer version of a job that is not Ready; from then on,
   whatever is called, the job is Superseded, holds no lease and refuses every lease as stale.
   */
  lemma SupersededIsFinal(j: Job, calls: seq<Call>, newerVersion: nat, more: seq<Call>)
    requires IsNew(j)
    ensures var at, run := |calls|, calls + [Supersede(newerVersion)] + more;
            && (ReplyAt(j, run, at) == Done <==> newerVersion > j.sourceVersion && Run(j, calls).status != Ready)
            && (ReplyAt(j, run, at) == Done ==>
                  && Run(j, run).status == Superseded
                  && Run(j, run).lease == None
                  && (forall i :: at < i < |run| ==> !GrantedAt(j, run, i))
                  && (forall lease :: Fenced(Run(j, run), lease)))
  {
    var c := Supersede(newerVersion);
    var at, run := |calls|, calls + [c] + more;
    assert run[..at] == calls && run[at] == c;
    RunKeepsInv(j, calls);
    RunKeepsIdentity(j, calls);
    SupersedeStep(Run(j, calls), newerVersion);
    if ReplyAt(j, run, at) == Done {
      StepKeepsInv(Run(j, calls), c);
      var k := Step(Run(j, calls), c).job;
      assert (calls + [c])[..at] == calls;
      assert Run(j, calls + [c]) == k;
      hide Step, Inv, Fenced, Run;
      RunAppend(j, calls + [c], more);
      SupersededRefuses(k, more);
      forall i | at < i < |run| ensures !GrantedAt(j, run, i) {
        assert run[..i] == calls + [c] + more[..i - at - 1];
        RunAppend(j, calls + [c], more[..i - at - 1]);
        SupersededRefuses(k, more[..i - at - 1]);
      }
    }
  }

  // ---------- bounded work ----------

  ghost function Rank(s: Status): nat {
    match s
    case Leased => 10
    case Parsing => 9
    case Chunking => 8
    case Embedding => 7
    case Validating => 6
    case Publishing => 5
    case CancelRequested => 4
    case Cancelled => 3
    case Failed => 3
    case Queued => 2
    case _ => 0
  }

  /** Remaining attempts first, then the distance to a final status. */
  ghost function Measure(j: Job): nat
    requires j.attempt <= MAX_ATTEMPTS
  {
    11 * (MAX_ATTEMPTS - j.attempt) + Rank(j.status)
  }

  lemma ChangesLowerMeasure(j: Job, c: Call)
    requires Inv(j)
    ensures Inv(Step(j, c).job)
    ensures var k := Step(j, c).job;
            if k.status != j.status || k.attempt != j.attempt then Measure(k) < Measure(j) else Measure(k) == Measure(j)
  {
  }

  /** The number of calls that changed the status or the attempt count. */
  ghost function Changes(j: Job, calls: seq<Call>): nat {
    if calls == [] then
      0
    else
      var before, after := Run(j, calls[..|calls| - 1]), Run(j, calls);
      Changes(j, calls[..|calls| - 1])
      + if after.status != before.status || after.attempt != before.attempt then 1 else 0
  }

  ghost function Claims(j: Job, calls: seq<Call>): nat {
    if calls == [] then 0
    else Claims(j, calls[..|calls| - 1]) + if ClaimedAt(j, calls, |calls| - 1) then 1 else 0
  }

  lemma {:induction false} RunsLowerMeasure(j: Job, calls: seq<Call>)
    requires IsNew(j)
    ensures Inv(Run(j, calls))
    ensures Changes(j, calls) + Measure(Run(j, calls)) <= Measure(j)
    ensures Claims(j, calls) == Run(j, calls).attempt
  {
    hide Step, Rank;
    if calls != [] {
      var n := |calls| - 1;
      RunsLowerMeasure(j, calls[..n]);
      LeaseTokenStep(Run(j, calls[..n]), calls[n]);
      ChangesLowerMeasure(Run(j, calls[..n]), calls[n]);
    }
  }

  /** However long the run, at most three claims succeed and at most 35 calls change status or attempt. */
  lemma WorkIsBounded(j: Job, calls: seq<Call>)
    requires IsNew(j)
    ensures Claims(j, calls) <= MAX_ATTEMPTS
    ensures Changes(j, calls) <= 35
  {
    RunsLowerMeasure(j, calls);
  }
}
