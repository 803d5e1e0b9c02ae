/**
 When each call of a document-chunk job is accepted and what it then does, over every run of a
 new job (crates/context-build/src/document_chunk_job.rs).
 */
module ChunkJobLaws {
  import opened ChunkJob
  import opened Wrappers

  /** The presented lease is the job's own and has not expired. */
  ghost predicate Live(j: Job, lease: Lease, now: nat) {
    j.lease == Some(lease) && now < lease.expiresAt
  }

  /** Some lease of the job has not expired. */
  ghost predicate Busy(j: Job, now: nat) {
    exists lease :: Live(j, lease, now)
  }

  /** `to` is `from` or the stage after it, short of Ready. */
  ghost predicate Forward(from: Status, to: Status) {
    to == from || exists k :: 0 <= k && k + 2 < |WALK| && from == WALK[k] && to == WALK[k + 1]
  }

  ghost predicate GoodTicks(now: nat, leaseTicks: nat) {
    0 < leaseTicks <= 60_000 && now + leaseTicks < 0x1_0000_0000_0000_0000
  }

  /** The calls a reachable job accepts. */
  ghost predicate Admits(j: Job, c: Call) {
    match c
    case Claim(now, leaseTicks, token) =>
      && token != 0 && GoodTicks(now, leaseTicks) && j.attempt < 3 && !Busy(j, now)
      && (j.status == Queued || (j.lease.Some? && j.status !in {Ready, CancelRequested}))
    case Heartbeat(lease, leaseTicks, now) =>
      Live(j, lease, now) && GoodTicks(now, leaseTicks) && j.status != CancelRequested
    case Advance(lease, now, next, processed) =>
      Live(j, lease, now) && j.processedUnits <= processed <= j.totalUnits && Forward(j.status, next)
    case Publish(lease, now, digest) =>
      && Live(j, lease, now) && digest != 0
      && (j.status == Publishing || j.publicationDigest == Some(digest))
    case Cancel => j.lease.Some? && j.status != Ready
    case FinishCancellation(lease, now) => Live(j, lease, now) && j.status == CancelRequested
    case Fail(lease, now) => Live(j, lease, now) && j.status != Ready
    case Retry => j.status in {Cancelled, Failed} && j.attempt < 3
    case Supersede(newerVersion) => j.sourceVersion < newerVersion && j.status != Ready
  }

  lemma WalkAdvances(k: nat)
    requires k + 2 < |WALK|
    ensures forall to :: AllowsAdvance(WALK[k], to) <==> to == WALK[k + 1]
  {
    assert k == 0 || k == 1 || k == 2 || k == 3 || k == 4;
  }

  lemma AdvancesAreOnWalk(from: Status, to: Status) returns (k: nat)
    requires AllowsAdvance(from, to)
    ensures k + 2 < |WALK| && from == WALK[k]
  {
    k := if from == Leased then 0 else if from == Parsing then 1 else if from == Chunking then 2
         else if from == Embedding then 3 else 4;
  }

  lemma ForwardIsAdvance(from: Status, to: Status)
    ensures Forward(from, to) <==> to == from || AllowsAdvance(from, to)
  {
    hide AllowsAdvance, WALK;
    if AllowsAdvance(from, to) {
      var k := AdvancesAreOnWalk(from, to);
      WalkAdvances(k);
    }
    if k :| 0 <= k && k + 2 < |WALK| && from == WALK[k] && to == WALK[k + 1] {
      WalkAdvances(k);
    }
  }

  /** In every run of a new job, a call is accepted exactly when the job admits it. */
  lemma AcceptedIffAdmitted(j: Job, calls: seq<Call>, i: nat)
    requires IsNew(j) && i < |calls|
    ensures !ReplyAt(j, calls, i).Rejected? <==> Admits(Run(j, calls[..i]), calls[i])
  {
    var k, c := Run(j, calls[..i]), calls[i];
    RunKeepsInv(j, calls[..i]);
    if c.Advance? {
      ForwardIsAdvance(k.status, c.next);
    }
    if c.Claim? && k.lease.Some? {
      assert Busy(k, c.now) <==> Live(k, k.lease.value, c.now);
    }
  }

  // ---------- a job is its history ----------

  /** What an accepted call does to a job. */
  ghost function Apply(j: Job, c: Call): Job {
    match c
    case Claim(now, leaseTicks, token) =>
      j.(status := Leased, attempt := j.attempt + 1, processedUnits := 0, lease := Some(Lease(token, now + leaseTicks)))
    case Heartbeat(lease, leaseTicks, now) => j.(lease := Some(Lease(lease.token, now + leaseTicks)))
    case Advance(_, _, next, processed) => j.(status := next, processedUnits := processed)
    case Publish(_, _, digest) =>
      j.(status := Ready, processedUnits := j.totalUnits, publicationDigest := Some(digest))
    case Cancel => j.(status := CancelRequested)
    case FinishCancellation(_, _) => j.(status := Cancelled, lease := None)
    case Fail(_, _) => j.(status := Failed, lease := None)
    case Retry => j.(status := Queued)
    case Supersede(_) => j.(status := Superseded, lease := None)
  }

  /** Replaying the accepted calls of a run, without looking at leases, clocks or limits again. */
  ghost function Replay(j: Job, calls: seq<Call>): Job {
    if calls == [] then
      j
    else
      var n := |calls| - 1;
      var before := Replay(j, calls[..n]);
      if !ReplyAt(j, calls, n).Rejected? then Apply(before, calls[n])
      else if before.status == CancelRequested && ReplyAt(j, calls, n) == Rejected(InvalidTransition)
              && (calls[n].Claim? || calls[n].Heartbeat?)
      then Apply(before, FinishCancellation(Lease(0, 0), 0))
      else before
  }

  lemma ApplyIsStep(j: Job, c: Call)
    requires Inv(j) && !Step(j, c).reply.Rejected?
    ensures Step(j, c).job == Apply(j, c)
  {
  }

  /**
   A job is the replay of its accepted calls. The only refusals that leave a trace are those of
   a claim or heartbeat that finds a cancellation to finish.
   */
  lemma {:induction false} RunIsReplay(j: Job, calls: seq<Call>)
    requires IsNew(j)
    ensures Run(j, calls) == Replay(j, calls)
  {
    if calls != [] {
      var n := |calls| - 1;
      var k, c := Run(j, calls[..n]), calls[n];
      RunIsReplay(j, calls[..n]);
      RunKeepsInv(j, calls[..n]);
      if Step(k, c).reply.Rejected? {
        RejectedCallsChangeNothingElse(k, c);
      } else {
        ApplyIsStep(k, c);
      }
    }
  }

  // ---------- every status is reached ----------

  lemma NoCalls(j: Job) returns (calls: seq<Call>)
    ensures Run(j, calls) == j
  {
    calls := [];
  }

  lemma Then(j: Job, calls: seq<Call>, c: Call) returns (longer: seq<Call>)
    ensures longer == calls + [c] && Run(j, longer) == Step(Run(j, calls), c).job
  {
    longer := calls + [c];
    assert longer[..|calls|] == calls;
  }

  /** A job claimed at 0 and carried along the walk, up to its given stage. */
  lemma {:induction false} WalkTo(j: Job, stage: nat) returns (calls: seq<Call>)
    requires IsNew(j) && stage < |WALK|
    ensures Run(j, calls) == j.(status := WALK[stage], attempt := 1, lease := Some(Lease(1, 1)),
                                processedUnits := if WALK[stage] == Ready then j.totalUnits else 0,
                                publicationDigest := if WALK[stage] == Ready then Some(1) else None)
  {
    if stage == 0 {
      calls := Then(j, [], Claim(0, 1, 1));
    } else {
      var before := WalkTo(j, stage - 1);
      if stage == 6 {
        calls := Then(j, before, Publish(Lease(1, 1), 0, 1));
      } else {
        assert WALK[stage - 1] != Ready;
        ForwardIsAdvance(WALK[stage - 1], WALK[stage]);
        calls := Then(j, before, Advance(Lease(1, 1), 0, WALK[stage], 0));
      }
    }
  }

  lemma LeaveWalk(j: Job, s: Status) returns (calls: seq<Call>)
    requires IsNew(j) && s in {CancelRequested, Cancelled, Failed, Superseded}
    ensures Run(j, calls).status == s
  {
    hide Run;
    calls := WalkTo(j, 0);
    assert WALK[0] == Leased;
    if s == Failed {
      calls := Then(j, calls, Fail(Lease(1, 1), 0));
    } else if s == Superseded {
      calls := Then(j, calls, Supersede(j.sourceVersion + 1));
    } else {
      calls := Then(j, calls, Cancel);
      if s == Cancelled {
        calls := Then(j, calls, FinishCancellation(Lease(1, 1), 0));
      }
    }
  }

  /** From every new job the runs lead to every status but Retired, which no run reaches. */
  lemma ReachedIffNotRetired(j: Job, s: Status)
    requires IsNew(j)
    ensures (exists calls :: Run(j, calls).status == s) <==> s != Retired
  {
    hide Run;
    if calls :| Run(j, calls).status == s {
      RunKeepsInv(j, calls);
    }
    if s in WALK {
      var stage :| 0 <= stage < |WALK| && WALK[stage] == s;
      var calls := WalkTo(j, stage);
    } else if s == Queued {
      var calls := NoCalls(j);
    } else if s != Retired {
      var calls := LeaveWalk(j, s);
    }
  }
}
