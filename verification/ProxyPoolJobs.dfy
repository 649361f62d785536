/** Job counters and statuses over runs whose steps are complete: counters equal the
    reservations made, no job gets more than it asked for, and statuses say which is which. */
module ProxyPoolJobs {
  import opened Wrappers
  import opened ProxyPool
  import opened ProxyPoolFacts
  import opened ProxyPoolFulfillment
  import opened ProxyPrefill
  import opened ProxyPrefillRefinement
  import opened ProxyPoolSound
  import opened ProxyPoolRuns

  // ------------------------------------------------------------------ serving

  lemma {:induction false} ServeAllKeeps(env: Env, p: Pool, t: nat, js: seq<nat>)
    requires JobsSound(p) && forall i :: 0 <= i < |js| ==> js[i] < |p.jobs|
    ensures JobsSound(ServeAll(env, p, t, js).pool)
    decreases |js|
  {
    hide JobsSound, Serve;
    if js != [] {
      ServeKeeps(env, p, js[0]);
      var r := Serve(env, p, js[0]);
      if r.Some? && AvailableCount(r.value.entries, t) != 0 {
        ServeAllKeeps(env, r.value, t, js[1..]);
      }
    }
  }

  lemma FulfillKeeps(env: Env, p: Pool, t: nat)
    requires JobsSound(p) && t < |p.targets|
    ensures JobsSound(Fulfill(env, p, t).pool)
  {
    UnfinishedInRange(p.jobs, p.targets[t].scope, |p.jobs|);
    ServeAllKeeps(env, p, t, UnfinishedJobs(p.jobs, p.targets[t].scope, |p.jobs|));
  }

  lemma FailingKeeps(rs: seq<Reservation>, j: nat, job: Job, scope: Scope)
    requires JobSound(rs, j, job)
    ensures JobSound(rs, j, FailedJob(job, scope))
  {
  }

  lemma MarkFailedKeeps(p: Pool, t: nat)
    requires JobsSound(p) && t < |p.targets|
    ensures JobsSound(MarkFailed(p, t))
  {
    var q := MarkFailed(p, t);
    hide JobSound, FailedJob;
    forall j: nat | j < |q.jobs| ensures JobSound(q.reservations, j, q.jobs[j]) {
      assert JobSound(p.reservations, j, p.jobs[j]);
      FailingKeeps(p.reservations, j, p.jobs[j], p.targets[t].scope);
    }
  }

  lemma {:induction false} FulfillListedKeeps(env: Env, p: Pool, batch: seq<nat>, waiting: set<Scope>)
    requires JobsSound(p) && forall i :: 0 <= i < |batch| ==> batch[i] < |p.targets|
    ensures var r := FulfillListed(env, p, batch, waiting); r.Some? ==> JobsSound(r.value)
    decreases |batch|
  {
    hide JobsSound, Fulfill;
    if batch != [] {
      if p.targets[batch[0]].scope !in waiting {
        FulfillListedKeeps(env, p, batch[1..], waiting);
      } else {
        FulfillKeeps(env, p, batch[0]);
        FulfillFrame(env, p, batch[0]);
        var o := Fulfill(env, p, batch[0]);
        if o.Done? {
          FulfillListedKeeps(env, o.pool, batch[1..], waiting);
        }
      }
    }
  }

  lemma SameJobsSound(p: Pool, q: Pool)
    requires JobsSound(p) && q.jobs == p.jobs && q.reservations == p.reservations
    ensures JobsSound(q)
  {
  }

  lemma PrefillKeeps(env: Env, p: Pool, requested: seq<nat>, supply: Supply, now: int, staleBefore: int)
    requires JobsSound(p) && Generous(p, supply)
    ensures JobsSound(OrUnchanged(p, FillBatch(env, p, requested, supply, now, staleBefore)))
  {
    FillBatchUnfolds(env, p, requested, supply, now, staleBefore);
    hide JobsSound, FillBatch, FulfillListed, LockedBatch, BatchRows, ClaimAll, ClearAll, InsertRows, WaitingScopes, Generous, Owned, Needed;
    var r := FillBatch(env, p, requested, supply, now, staleBefore);
    if r.Some? {
      var batch := LockedBatch(p.targets, set i | i in requested, |p.targets|);
      var q := Filled(env, p, batch, BatchRows(p, batch, supply).value, now);
      SameJobsSound(p, q);
      FulfillListedKeeps(env, q, batch, WaitingScopes(q, batch));
      var s := FulfillListed(env, q, batch, WaitingScopes(q, batch)).value;
      SameJobsSound(s, s.(targets := ClearAll(s.targets, batch)));
    }
  }

  // ------------------------------------------------------------------ creating

  ghost predicate JobsInRange(p: Pool) {
    forall k | 0 <= k < |p.reservations| :: p.reservations[k].job < |p.jobs|
  }

  /** Static reservations add to the new job alone, at most `limit`. */
  lemma {:induction false} StaticCounts(env: Env, rs: seq<Reservation>, client: nat, job: nat, limit: nat, lines: seq<string>, j: nat)
    ensures var qs := ReserveStatic(env, rs, client, job, limit, lines);
            && |rs| <= |qs| <= |rs| + limit
            && CountFor(qs, j) == CountFor(rs, j) + (if j == job then |qs| - |rs| else 0)
            && (forall k | 0 <= k < |qs| :: qs[k].job == job || (k < |rs| && qs[k] == rs[k]))
    decreases |lines|
  {
    if lines != [] && limit != 0 {
      var fingerprint := env.digest(lines[0]);
      var x := Reservation(client, job, None, fingerprint, lines[0]);
      if FingerprintIssued(rs, fingerprint) {
        StaticCounts(env, rs, client, job, limit, lines[1..], j);
      } else {
        CountAppends(rs, x, j);
        hide CountFor, FingerprintIssued;
        StaticCounts(env, rs + [x], client, job, limit - 1, lines[1..], j);
      }
    }
  }

  /** The counter written for a new job is the number of its reservations, within its target. */
  ghost predicate NewJobCounted(p: Pool, q: Pool, r: JobRequest, autoGenerate: bool) {
    && |q.jobs| == |p.jobs| + 1 && q.jobs[..|p.jobs|] == p.jobs
    && var n := CountFor(q.reservations, |p.jobs|);
       n <= r.candidateCount &&
       q.jobs[|p.jobs|] == CreatedJob(r).(readyCount := n, status := FinalStatus(n, r.candidateCount, autoGenerate))
  }

  ghost predicate OthersCounted(p: Pool, q: Pool) {
    && (forall j: nat | j < |p.jobs| :: CountFor(q.reservations, j) == CountFor(p.reservations, j))
    && (forall k | 0 <= k < |q.reservations| :: q.reservations[k].job <= |p.jobs|)
  }

  /** What the pool and then the catalog give a new job. */
  function Filling(env: Env, s: Pool, job: nat, limit: nat, catalog: seq<string>, topped: bool): seq<Reservation>
    requires job < |s.jobs|
  {
    if topped then ReserveStatic(env, s.reservations, s.jobs[job].client, job, limit, catalog) else s.reservations
  }

  lemma FillingCounts(env: Env, p: Pool, r: JobRequest, catalog: seq<string>, topped: bool)
    requires ValidRequest(r) && JobsInRange(p)
    ensures var job := |p.jobs|;
            var a := p.(jobs := p.jobs + [CreatedJob(r)]);
            var s := Reserve(env, a, job);
            s.Some? ==>
              && s.value.jobs == a.jobs
              && var rs := Filling(env, s.value, job, Shortage(s.value, job), catalog, topped);
                 && CountFor(rs, job) == |rs| - |p.reservations| && 0 <= |rs| - |p.reservations| <= r.candidateCount
                 && OthersCounted(p, s.value.(reservations := rs))
  {
    var job := |p.jobs|;
    var a := p.(jobs := p.jobs + [CreatedJob(r)]);
    CountZero(a.reservations, job);
    assert ReservationTarget(a.jobs[job]) == r.candidateCount;
    hide CountFor, OpenStock, Reserve, ReserveStatic, ReservationTarget;
    ReserveCounts(env, a, job);
    var s := Reserve(env, a, job);
    if s.Some? {
      forall j: nat
        ensures j != job ==> CountFor(s.value.reservations, j) == CountFor(p.reservations, j)
        ensures j != job ==> CountFor(Filling(env, s.value, job, Shortage(s.value, job), catalog, topped), j) == CountFor(p.reservations, j)
      {
        StaticCounts(env, s.value.reservations, s.value.jobs[job].client, job, Shortage(s.value, job), catalog, j);
        if j != job {
          ReserveLeavesOthers(env, a, job, j);
        }
      }
      StaticCounts(env, s.value.reservations, s.value.jobs[job].client, job, Shortage(s.value, job), catalog, job);
    }
  }

  lemma FillJobCounts(env: Env, p: Pool, r: JobRequest, catalog: seq<string>, autoGenerate: bool)
    requires ValidRequest(r) && JobsInRange(p)
    ensures var c := FillJob(env, p.(jobs := p.jobs + [CreatedJob(r)]), |p.jobs|, catalog, autoGenerate);
            c.Some? ==> NewJobCounted(p, c.value, r, autoGenerate) && OthersCounted(p, c.value)
  {
    hide CountFor, Reserve, ReserveStatic, Shortage, FinalStatus, OthersCounted;
    FillingCounts(env, p, r, catalog, true);
    FillingCounts(env, p, r, catalog, false);
    var c := FillJob(env, p.(jobs := p.jobs + [CreatedJob(r)]), |p.jobs|, catalog, autoGenerate);
    var s := Reserve(env, p.(jobs := p.jobs + [CreatedJob(r)]), |p.jobs|);
    if c.Some? {
      SameReservationsCounted(p, s.value.(reservations := c.value.reservations), c.value);
    }
  }

  lemma SameReservationsCounted(p: Pool, q: Pool, r: Pool)
    requires OthersCounted(p, q) && r.reservations == q.reservations
    ensures OthersCounted(p, r)
  {
  }

  lemma NewJobIsSound(rs: seq<Reservation>, j: nat, r: JobRequest, autoGenerate: bool)
    requires ValidRequest(r) && CountFor(rs, j) <= r.candidateCount
    ensures var n := CountFor(rs, j);
            JobSound(rs, j, CreatedJob(r).(readyCount := n, status := FinalStatus(n, r.candidateCount, autoGenerate)))
  {
  }

  lemma CountedIsSound(p: Pool, q: Pool, r: JobRequest, autoGenerate: bool)
    requires JobsSound(p) && ValidRequest(r) && NewJobCounted(p, q, r, autoGenerate) && OthersCounted(p, q)
    ensures JobsSound(q)
  {
    NewJobIsSound(q.reservations, |p.jobs|, r, autoGenerate);
    hide CountFor, JobSound, FinalStatus;
    forall j: nat | j < |q.jobs| ensures JobSound(q.reservations, j, q.jobs[j]) {
      if j < |p.jobs| {
        assert q.jobs[..|p.jobs|][j] == q.jobs[j] == p.jobs[j];
        assert JobSound(p.reservations, j, p.jobs[j]);
        SoundByCount(p.reservations, q.reservations, j, p.jobs[j]);
      }
    }
  }

  lemma CreateOnKeeps(env: Env, p: Pool, r: JobRequest, catalog: seq<string>, autoGenerate: bool, brokered: bool)
    requires JobsSound(p) && ValidRequest(r)
    ensures var c := CreateOn(env, p, r, catalog, autoGenerate, brokered); c.Some? ==> JobsSound(c.value)
  {
    assert JobsInRange(p);
    hide FillJob, NewJobCounted, OthersCounted, WithTarget, JobsSound;
    FillJobCounts(env, p, r, catalog, autoGenerate);
    var f := FillJob(env, p.(jobs := p.jobs + [CreatedJob(r)]), |p.jobs|, catalog, autoGenerate);
    if f.Some? {
      CountedIsSound(p, f.value, r, autoGenerate);
      SameJobsSound(f.value, f.value.(targets := WithTarget(f.value.targets, Target(r.scope, 1000, 200, true, false, None))));
    }
  }

  lemma EnsureLeavesJobs(env: Env, p: Pool, scope: Scope, minimum: nat, rotate: bool, supply: Option<seq<string>>)
    ensures var q := EnsureInventory(env, p, scope, minimum, rotate, supply);
            q.Some? ==> q.value.jobs == p.jobs && q.value.reservations == p.reservations
  {
    FoundWithTarget(p.targets, DefaultTarget(scope));
    hide FindTarget, WithTarget, Stock, Discard, InsertStrictly, Rotates;
  }

  lemma CreateKeeps(env: Env, p: Pool, r: JobRequest, supply: Option<seq<string>>, catalog: seq<string>, autoGenerate: bool, brokered: bool)
    requires JobsSound(p) && ValidRequest(r)
    ensures JobsSound(OrUnchanged(p, CreateJob(env, p, r, supply, catalog, autoGenerate, brokered)))
  {
    hide JobsSound, EnsureInventory, CreateOn;
    EnsureLeavesJobs(env, p, r.scope, r.candidateCount, r.freshPool, supply);
    CreateOnKeeps(env, p, r, catalog, autoGenerate, brokered);
    var e := EnsureInventory(env, p, r.scope, r.candidateCount, r.freshPool, supply);
    if e.Some? {
      SameJobsSound(p, e.value);
      CreateOnKeeps(env, e.value, r, catalog, autoGenerate, brokered);
    }
  }

  // ------------------------------------------------------------------ panel steps

  lemma {:induction false} RemoveLeavesJobs(p: Pool, ts: seq<nat>)
    requires forall i :: 0 <= i < |ts| ==> ts[i] < |p.targets|
    ensures RemoveAvailable(p, ts).jobs == p.jobs && RemoveAvailable(p, ts).reservations == p.reservations
    decreases |ts|
  {
    if ts != [] {
      RemoveLeavesJobs(p.(
        entries := Discard(p.entries, set i | i in AvailableIds(p.entries, ts[0])),
        targets := p.targets[ts[0] := p.targets[ts[0]].(active := false, refillPending := false)]), ts[1..]);
    }
  }

  lemma {:induction false} ResizeLeavesJobs(p: Pool, ts: seq<nat>, count: nat, threshold: nat, now: int, staleBefore: int, delivered: bool)
    requires forall i :: 0 <= i < |ts| ==> ts[i] < |p.targets|
    ensures var q := Resize(p, ts, count, threshold, now, staleBefore, delivered); q.jobs == p.jobs && q.reservations == p.reservations
    decreases |ts|
  {
    if ts != [] {
      hide Discard, Excess, AvailableCount;
      var t := ts[0];
      var es := Discard(p.entries, Excess(p.entries, t, count));
      var resized := p.targets[t := p.targets[t].(targetCount := count, replenishBelow := threshold, active := true)];
      var targets := if AvailableCount(es, t) < threshold then QueueRefill(resized, t, now, staleBefore, delivered).0 else resized;
      ResizeLeavesJobs(p.(entries := es, targets := targets), ts[1..], count, threshold, now, staleBefore, delivered);
    }
  }

  // ------------------------------------------------------------------ over runs

  /** Steps that are complete: a reservation comes with the write-back of its counters. */
  predicate Whole(op: Op) {
    !op.ReserveOp? && !op.WriteBackOp?
  }

  lemma StepKeepsJobs(env: Env, p: Pool, op: Op)
    requires JobsSound(p) && Enabled(p, op) && Whole(op)
    ensures JobsSound(Step(env, p, op))
  {
    hide JobsSound, TopUp, Fulfill, MarkFailed, CreateJob, FillBatch, RemoveAvailable, Resize;
    match op
    case TopUpOp(t, supply) => TopUpLeavesJobs(env, p, t, supply); SameJobsSound(p, Step(env, p, op));
    case FulfillOp(t) => FulfillKeeps(env, p, t);
    case MarkFailedOp(t) => MarkFailedKeeps(p, t);
    case ClaimOp(t, now, staleBefore, delivered) => SameJobsSound(p, Step(env, p, op));
    case ClearOp(t) => SameJobsSound(p, Step(env, p, op));
    case CreateOp(r, lines, catalog, autoGenerate, brokered) => CreateKeeps(env, p, r, lines, catalog, autoGenerate, brokered);
    case PrefillOp(requested, supplies, now, staleBefore) => PrefillKeeps(env, p, requested, supplies, now, staleBefore);
    case RemoveOp(ts) => RemoveLeavesJobs(p, ts); SameJobsSound(p, Step(env, p, op));
    case ResizeOp(ts, count, threshold, now, staleBefore, delivered) =>
      ResizeLeavesJobs(p, ts, count, threshold, now, staleBefore, delivered);
      SameJobsSound(p, Step(env, p, op));
    case ExpandOp(d) => SameJobsSound(p, Step(env, p, op));
  }

  lemma TopUpLeavesJobs(env: Env, p: Pool, t: nat, supply: Option<seq<string>>)
    requires t < |p.targets| && Supplies(supply, Needed(p, t))
    ensures var q := OrUnchanged(p, TopUp(env, p, t, supply)); q.jobs == p.jobs && q.reservations == p.reservations
  {
  }

  /** Over any run of whole steps, counters equal reservations, no job has more than it asked
      for, and ready, partial, and waiting or failed mean all, some and none. */
  lemma {:induction false} JobsStaySound(env: Env, p: Pool, ops: seq<Op>)
    requires JobsSound(p) && Legal(env, p, ops) && forall i | 0 <= i < |ops| :: Whole(ops[i])
    ensures JobsSound(Run(env, p, ops))
    decreases |ops|
  {
    hide JobsSound, Enabled, Step;
    if ops != [] {
      StepKeepsJobs(env, p, ops[0]);
      JobsStaySound(env, Step(env, p, ops[0]), ops[1..]);
    }
  }

  // ------------------------------------------------------------------ however reservations interleave

  lemma {:induction false} ServeAllCaps(env: Env, p: Pool, t: nat, js: seq<nat>)
    requires Capped(p) && forall i :: 0 <= i < |js| ==> js[i] < |p.jobs|
    ensures Capped(ServeAll(env, p, t, js).pool)
    decreases |js|
  {
    hide Capped, Serve;
    if js != [] {
      ServeCaps(env, p, js[0]);
      var r := Serve(env, p, js[0]);
      if r.Some? && AvailableCount(r.value.entries, t) != 0 {
        ServeAllCaps(env, r.value, t, js[1..]);
      }
    }
  }

  lemma FulfillCaps(env: Env, p: Pool, t: nat)
    requires Capped(p) && t < |p.targets|
    ensures Capped(Fulfill(env, p, t).pool)
  {
    UnfinishedInRange(p.jobs, p.targets[t].scope, |p.jobs|);
    ServeAllCaps(env, p, t, UnfinishedJobs(p.jobs, p.targets[t].scope, |p.jobs|));
  }

  lemma {:induction false} FulfillListedCaps(env: Env, p: Pool, batch: seq<nat>, waiting: set<Scope>)
    requires Capped(p) && forall i :: 0 <= i < |batch| ==> batch[i] < |p.targets|
    ensures var r := FulfillListed(env, p, batch, waiting); r.Some? ==> Capped(r.value)
    decreases |batch|
  {
    hide Capped, Fulfill;
    if batch != [] {
      if p.targets[batch[0]].scope !in waiting {
        FulfillListedCaps(env, p, batch[1..], waiting);
      } else {
        FulfillCaps(env, p, batch[0]);
        FulfillFrame(env, p, batch[0]);
        var o := Fulfill(env, p, batch[0]);
        if o.Done? {
          FulfillListedCaps(env, o.pool, batch[1..], waiting);
        }
      }
    }
  }

  lemma PrefillCaps(env: Env, p: Pool, requested: seq<nat>, supply: Supply, now: int, staleBefore: int)
    requires Capped(p) && Generous(p, supply)
    ensures Capped(OrUnchanged(p, FillBatch(env, p, requested, supply, now, staleBefore)))
  {
    FillBatchUnfolds(env, p, requested, supply, now, staleBefore);
    hide Capped, FillBatch, FulfillListed, LockedBatch, BatchRows, ClaimAll, ClearAll, InsertRows, WaitingScopes, Generous, Owned, Needed;
    var r := FillBatch(env, p, requested, supply, now, staleBefore);
    if r.Some? {
      var batch := LockedBatch(p.targets, set i | i in requested, |p.targets|);
      var q := Filled(env, p, batch, BatchRows(p, batch, supply).value, now);
      SameDemandCapped(p, q);
      FulfillListedCaps(env, q, batch, WaitingScopes(q, batch));
      var s := FulfillListed(env, q, batch, WaitingScopes(q, batch)).value;
      SameDemandCapped(s, s.(targets := ClearAll(s.targets, batch)));
    }
  }

  lemma CountedIsCapped(p: Pool, q: Pool, r: JobRequest, autoGenerate: bool)
    requires Capped(p) && ValidRequest(r) && NewJobCounted(p, q, r, autoGenerate) && OthersCounted(p, q)
    ensures Capped(q)
  {
    hide CountFor, FinalStatus;
    forall j: nat | j < |q.jobs| ensures CountFor(q.reservations, j) <= ReservationTarget(q.jobs[j]) {
      if j < |p.jobs| {
        assert q.jobs[..|p.jobs|][j] == q.jobs[j] == p.jobs[j];
      }
    }
  }

  lemma CreateOnCaps(env: Env, p: Pool, r: JobRequest, catalog: seq<string>, autoGenerate: bool, brokered: bool)
    requires Capped(p) && ValidRequest(r)
    ensures var c := CreateOn(env, p, r, catalog, autoGenerate, brokered); c.Some? ==> Capped(c.value)
  {
    assert JobsInRange(p);
    hide FillJob, NewJobCounted, OthersCounted, WithTarget, Capped;
    FillJobCounts(env, p, r, catalog, autoGenerate);
    var f := FillJob(env, p.(jobs := p.jobs + [CreatedJob(r)]), |p.jobs|, catalog, autoGenerate);
    if f.Some? {
      CountedIsCapped(p, f.value, r, autoGenerate);
      SameDemandCapped(f.value, f.value.(targets := WithTarget(f.value.targets, Target(r.scope, 1000, 200, true, false, None))));
    }
  }

  lemma CreateCaps(env: Env, p: Pool, r: JobRequest, supply: Option<seq<string>>, catalog: seq<string>, autoGenerate: bool, brokered: bool)
    requires Capped(p) && ValidRequest(r)
    ensures Capped(OrUnchanged(p, CreateJob(env, p, r, supply, catalog, autoGenerate, brokered)))
  {
    hide Capped, EnsureInventory, CreateOn;
    EnsureLeavesJobs(env, p, r.scope, r.candidateCount, r.freshPool, supply);
    CreateOnCaps(env, p, r, catalog, autoGenerate, brokered);
    var e := EnsureInventory(env, p, r.scope, r.candidateCount, r.freshPool, supply);
    if e.Some? {
      SameDemandCapped(p, e.value);
      CreateOnCaps(env, e.value, r, catalog, autoGenerate, brokered);
    }
  }

  lemma StepCaps(env: Env, p: Pool, op: Op)
    requires Capped(p) && Enabled(p, op)
    ensures Capped(Step(env, p, op))
  {
    hide Capped, TopUp, Reserve, Fulfill, CreateJob, FillBatch, RemoveAvailable, Resize;
    match op
    case TopUpOp(t, supply) => TopUpLeavesJobs(env, p, t, supply); SameDemandCapped(p, Step(env, p, op));
    case ReserveOp(j) => ReserveCaps(env, p, j);
    case WriteBackOp(j, ready, status) => SameDemandCapped(p, Step(env, p, op));
    case FulfillOp(t) => FulfillCaps(env, p, t);
    case MarkFailedOp(t) => SameDemandCapped(p, Step(env, p, op));
    case ClaimOp(t, now, staleBefore, delivered) => SameDemandCapped(p, Step(env, p, op));
    case ClearOp(t) => SameDemandCapped(p, Step(env, p, op));
    case CreateOp(r, lines, catalog, autoGenerate, brokered) => CreateCaps(env, p, r, lines, catalog, autoGenerate, brokered);
    case PrefillOp(requested, supplies, now, staleBefore) => PrefillCaps(env, p, requested, supplies, now, staleBefore);
    case RemoveOp(ts) => RemoveLeavesJobs(p, ts); SameDemandCapped(p, Step(env, p, op));
    case ResizeOp(ts, count, threshold, now, staleBefore, delivered) =>
      ResizeLeavesJobs(p, ts, count, threshold, now, staleBefore, delivered);
      SameDemandCapped(p, Step(env, p, op));
    case ExpandOp(d) => SameDemandCapped(p, Step(env, p, op));
  }

  /** However reservations, status writes and all other steps interleave, no job is ever given
      more than it asked for. */
  lemma {:induction false} NobodyGetsTooMuch(env: Env, p: Pool, ops: seq<Op>)
    requires Capped(p) && Legal(env, p, ops)
    ensures Capped(Run(env, p, ops))
    decreases |ops|
  {
    hide Capped, Enabled, Step;
    if ops != [] {
      StepCaps(env, p, ops[0]);
      NobodyGetsTooMuch(env, Step(env, p, ops[0]), ops[1..]);
    }
  }

  /** So after any run, reservations half written back included, the next fulfilment of an
      active target serves oldest first. */
  lemma EveryFulfilmentIsFair(env: Env, ops: seq<Op>, t: nat)
    requires Legal(env, Empty, ops)
    ensures var p := Run(env, Empty, ops);
            && Capped(p) && UniqueScopes(p.targets)
            && (t < |p.targets| && p.targets[t].active ==>
                  var q := Fulfill(env, p, t).pool;
                  && Capped(q) && IssuedInOrder(p, q, t)
                  && forall i: nat, j: nat | i < j < |p.jobs| == |q.jobs| ::
                       Unfinished(p.jobs[i], p.targets[t].scope) && CountFor(q.reservations, j) > CountFor(p.reservations, j) ==>
                         q.jobs[i].status == Ready && CountFor(q.reservations, i) == ReservationTarget(p.jobs[i]))
  {
    RunIsGood(env, Empty, ops);
    NobodyGetsTooMuch(env, Empty, ops);
    var p := Run(env, Empty, ops);
    assert UniqueScopes(p.targets);
    hide Run, Legal, Sound, Fulfill, Capped, IssuedInOrder, CountFor, UniqueScopes, Extends, ReservationTarget;
    if t < |p.targets| && p.targets[t].active {
      FulfillsOldestFirst(env, p, t);
    }
  }
}
