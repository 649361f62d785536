/** Runs of pool operations.  The two transactions of a refill and the status writes of
    fulfilment are separate steps, so that overlapping refills, job creations, prefills and
    panel steps interleave freely. */
module ProxyPoolRuns {
  import opened Wrappers
  import opened Sequences
  import opened ProxyPool
  import opened ProxyPoolFacts
  import opened ProxyPrefill
  import opened ProxyPoolSound
  import Expansion = PoolExpansion

  datatype Op =
    | TopUpOp(target: nat, supply: Option<seq<string>>)
    | ReserveOp(job: nat)
    | WriteBackOp(job: nat, ready: nat, status: JobStatus)
    | FulfillOp(target: nat)
    | MarkFailedOp(target: nat)
    | ClaimOp(target: nat, now: int, staleBefore: int, delivered: bool)
    | ClearOp(target: nat)
    | CreateOp(request: JobRequest, lines: Option<seq<string>>, catalog: seq<string>, autoGenerate: bool, brokered: bool)
    | PrefillOp(requested: seq<nat>, supplies: Supply, now: int, staleBefore: int)
    | RemoveOp(targets: seq<nat>)
    | ResizeOp(targets: seq<nat>, count: nat, threshold: nat, now: int, staleBefore: int, delivered: bool)
    | ExpandOp(demand: Expansion.Demand)

  ghost predicate Enabled(p: Pool, op: Op) {
    match op
    case TopUpOp(t, supply) => t < |p.targets| && p.targets[t].active && Supplies(supply, Needed(p, t))
    case ReserveOp(j) => j < |p.jobs|
    case WriteBackOp(j, _, _) => j < |p.jobs|
    case FulfillOp(t) => t < |p.targets|
    case MarkFailedOp(t) => t < |p.targets|
    case ClaimOp(_, _, _, _) => true
    case ClearOp(t) => t < |p.targets|
    case CreateOp(r, _, _, _, _) => ValidRequest(r)
    case PrefillOp(_, supplies, _, _) => Generous(p, supplies)
    case RemoveOp(ts) => forall i :: 0 <= i < |ts| ==> ts[i] < |p.targets|
    case ResizeOp(ts, count, threshold, _, _, _) =>
      1 <= threshold <= count && forall i :: 0 <= i < |ts| ==> ts[i] < |p.targets|
    case ExpandOp(_) => true
  }

  function OrUnchanged(p: Pool, r: Option<Pool>): Pool {
    if r.Some? then r.value else p
  }

  ghost function Step(env: Env, p: Pool, op: Op): Pool
    requires Enabled(p, op)
  {
    match op
    case TopUpOp(t, supply) => OrUnchanged(p, TopUp(env, p, t, supply))
    case ReserveOp(j) => OrUnchanged(p, Reserve(env, p, j))
    case WriteBackOp(j, ready, status) => p.(jobs := p.jobs[j := p.jobs[j].(readyCount := ready, status := status)])
    case FulfillOp(t) => Fulfill(env, p, t).pool
    case MarkFailedOp(t) => MarkFailed(p, t)
    case ClaimOp(t, now, staleBefore, delivered) => p.(targets := QueueRefill(p.targets, t, now, staleBefore, delivered).0)
    case ClearOp(t) => p.(targets := ClearClaim(p.targets, t))
    case CreateOp(r, lines, catalog, autoGenerate, brokered) =>
      OrUnchanged(p, CreateJob(env, p, r, lines, catalog, autoGenerate, brokered))
    case PrefillOp(requested, supplies, now, staleBefore) =>
      OrUnchanged(p, FillBatch(env, p, requested, supplies, now, staleBefore))
    case RemoveOp(ts) => RemoveAvailable(p, ts)
    case ResizeOp(ts, count, threshold, now, staleBefore, delivered) =>
      Resize(p, ts, count, threshold, now, staleBefore, delivered)
    case ExpandOp(d) => p.(targets := Expansion.Expand(d, p.targets))
  }

  ghost predicate Legal(env: Env, p: Pool, ops: seq<Op>)
    decreases |ops|
  {
    ops == [] || (Enabled(p, ops[0]) && Legal(env, Step(env, p, ops[0]), ops[1..]))
  }

  ghost function Run(env: Env, p: Pool, ops: seq<Op>): Pool
    requires Legal(env, p, ops)
    decreases |ops|
  {
    if ops == [] then p else Run(env, Step(env, p, ops[0]), ops[1..])
  }

  const Empty := Pool([], [], [], [])

  // ------------------------------------------------------------------ every step is good

  lemma TopUpIsGood(env: Env, p: Pool, t: nat, supply: Option<seq<string>>)
    requires Sound(env, p) && t < |p.targets| && Supplies(supply, Needed(p, t))
    ensures Good(env, p, OrUnchanged(p, TopUp(env, p, t, supply)))
  {
    assert Extends(p, p);
    if Needed(p, t) != 0 && supply.Some? {
      InsertingIsGood(env, p, RowsOf(t, supply.value[..Needed(p, t)]));
    }
  }

  lemma WithTargetUnique(targets: seq<Target>, fallback: Target)
    requires UniqueScopes(targets)
    ensures UniqueScopes(WithTarget(targets, fallback))
  {
  }

  lemma EnsureIsGood(env: Env, p: Pool, scope: Scope, minimum: nat, rotate: bool, supply: Option<seq<string>>)
    requires Sound(env, p)
    ensures var r := EnsureInventory(env, p, scope, minimum, rotate, supply); r.Some? ==> Good(env, p, r.value)
  {
    hide Sound, Extends, Discard, InsertStrictly, Stock, FindTarget;
    var r := EnsureInventory(env, p, scope, minimum, rotate, supply);
    if r.Some? {
      var q := p.(targets := WithTarget(p.targets, DefaultTarget(scope)));
      LateTargetIsGood(env, p, DefaultTarget(scope));
      FoundWithTarget(p.targets, DefaultTarget(scope));
      var t := FindTarget(q.targets, scope, |q.targets|).value;
      var gone := if rotate && Rotates(scope.provider) then (set i | i in AvailableIds(q.entries, t)) else {};
      var s := q.(entries := Discard(q.entries, gone));
      DiscardingIsGood(env, q, gone);
      DiscardNothing(q.entries);
      ExtendsTransitive(p, q, s);
      var needed := Max(0, Max(1, minimum) - AvailableCount(s.entries, t));
      if needed != 0 {
        var rows := RowsOf(t, supply.value[..needed]);
        StrictIsInsert(env, s.entries, rows);
        InsertingIsGood(env, s, rows);
        ExtendsTransitive(p, s, s.(entries := InsertRows(env, s.entries, rows)));
      }
    }
  }

  lemma FoundWithTarget(targets: seq<Target>, fallback: Target)
    ensures FindTarget(WithTarget(targets, fallback), fallback.scope, |WithTarget(targets, fallback)|).Some?
  {
  }

  lemma DiscardNothing(es: seq<Entry>)
    ensures Discard(es, {}) == es
  {
  }

  lemma FillJobIsGood(env: Env, p: Pool, job: nat, catalog: seq<string>, autoGenerate: bool)
    requires Sound(env, p) && job < |p.jobs|
    ensures var r := FillJob(env, p, job, catalog, autoGenerate);
            r.Some? ==> Good(env, p, r.value) && r.value.targets == p.targets
  {
    ReserveIsGood(env, p, job);
    IssueAllFrame(env, p, job, Take(OpenStock(p, p.jobs[job].scope), Shortage(p, job)));
    var q := Reserve(env, p, job);
    hide Sound, Extends;
    if q.Some? {
      ReserveStaticIsGood(env, q.value, job, Shortage(q.value, job), catalog);
      var s := q.value.(reservations := ReserveStatic(env, q.value.reservations, q.value.jobs[job].client, job, Shortage(q.value, job), catalog));
      ExtendsTransitive(p, q.value, s);
      var r := FillJob(env, p, job, catalog, autoGenerate).value;
      if r.reservations == s.reservations {
        RecountingIsGood(env, s, r.jobs);
        ExtendsTransitive(p, s, r);
      } else {
        RecountingIsGood(env, q.value, r.jobs);
        ExtendsTransitive(p, q.value, r);
      }
    }
  }

  lemma LateTargetIsGood(env: Env, p: Pool, fallback: Target)
    requires Sound(env, p)
    ensures Good(env, p, p.(targets := WithTarget(p.targets, fallback)))
  {
    WithTargetUnique(p.targets, fallback);
    RetargetingIsGood(env, p, WithTarget(p.targets, fallback));
  }

  lemma NewJobIsGood(env: Env, p: Pool, job: Job)
    requires Sound(env, p)
    ensures Good(env, p, p.(jobs := p.jobs + [job]))
  {
    RecountingIsGood(env, p, p.jobs + [job]);
  }

  lemma CreateOnIsGood(env: Env, p: Pool, r: JobRequest, catalog: seq<string>, autoGenerate: bool, brokered: bool)
    requires Sound(env, p)
    ensures var c := CreateOn(env, p, r, catalog, autoGenerate, brokered); c.Some? ==> Good(env, p, c.value)
  {
    hide Sound, Extends, FillJob, WithTarget;
    var q := p.(jobs := p.jobs + [CreatedJob(r)]);
    NewJobIsGood(env, p, CreatedJob(r));
    FillJobIsGood(env, q, |p.jobs|, catalog, autoGenerate);
    var f := FillJob(env, q, |p.jobs|, catalog, autoGenerate);
    if f.Some? {
      ExtendsTransitive(p, q, f.value);
      var fallback := Target(r.scope, 1000, 200, true, false, None);
      LateTargetIsGood(env, f.value, fallback);
      ExtendsTransitive(p, f.value, f.value.(targets := WithTarget(f.value.targets, fallback)));
    }
  }

  lemma CreateIsGood(env: Env, p: Pool, r: JobRequest, supply: Option<seq<string>>, catalog: seq<string>, autoGenerate: bool, brokered: bool)
    requires Sound(env, p)
    ensures Good(env, p, OrUnchanged(p, CreateJob(env, p, r, supply, catalog, autoGenerate, brokered)))
  {
    assert Extends(p, p);
    EnsureIsGood(env, p, r.scope, r.candidateCount, r.freshPool, supply);
    hide Sound, Extends, EnsureInventory, CreateOn;
    CreateOnIsGood(env, p, r, catalog, autoGenerate, brokered);
    var e := EnsureInventory(env, p, r.scope, r.candidateCount, r.freshPool, supply);
    if e.Some? && Dynamic(r.scope.provider) {
      CreateOnIsGood(env, e.value, r, catalog, autoGenerate, brokered);
      var c := CreateOn(env, e.value, r, catalog, autoGenerate, brokered);
      if c.Some? {
        ExtendsTransitive(p, e.value, c.value);
      }
    }
  }

  lemma {:induction false} BatchRowsInRange(p: Pool, batch: seq<nat>, supply: Supply)
    requires BatchSupplied(p, batch, supply)
    ensures var r := BatchRows(p, batch, supply);
            r.Some? ==> forall k | 0 <= k < |r.value| :: r.value[k].target in batch && r.value[k].target < |p.targets|
    decreases |batch|
  {
    if batch != [] {
      BatchRowsInRange(p, batch[1..], supply);
      assert Supplies(supply(batch[0]), Needed(p, batch[0]));
    }
  }

  lemma {:induction false} FulfillListedIsGood(env: Env, p: Pool, batch: seq<nat>, waiting: set<Scope>)
    requires Sound(env, p) && forall i :: 0 <= i < |batch| ==> batch[i] < |p.targets|
    ensures var r := FulfillListed(env, p, batch, waiting); r.Some? ==> Good(env, p, r.value)
    decreases |batch|
  {
    assert Extends(p, p);
    hide Sound, Extends;
    if batch != [] {
      if p.targets[batch[0]].scope !in waiting {
        FulfillListedIsGood(env, p, batch[1..], waiting);
      } else {
        FulfillIsGood(env, p, batch[0]);
        FulfillFrame(env, p, batch[0]);
        var o := Fulfill(env, p, batch[0]);
        if o.Done? {
          FulfillListedIsGood(env, o.pool, batch[1..], waiting);
          var r := FulfillListed(env, o.pool, batch[1..], waiting);
          if r.Some? {
            ExtendsTransitive(p, o.pool, r.value);
          }
        }
      }
    }
  }

  lemma FilledBatchIsGood(env: Env, p: Pool, batch: seq<nat>, rows: seq<Row>, now: int)
    requires Sound(env, p) && forall k | 0 <= k < |rows| :: rows[k].target < |p.targets|
    ensures Good(env, p, p.(targets := ClaimAll(p.targets, batch, now), entries := InsertRows(env, p.entries, rows)))
  {
    InsertingIsGood(env, p, rows);
    var a := p.(entries := InsertRows(env, p.entries, rows));
    RetargetingIsGood(env, a, ClaimAll(p.targets, batch, now));
    ExtendsTransitive(p, a, a.(targets := ClaimAll(p.targets, batch, now)));
  }

  lemma ClearingIsGood(env: Env, p: Pool, batch: seq<nat>)
    requires Sound(env, p)
    ensures Good(env, p, p.(targets := ClearAll(p.targets, batch)))
  {
    RetargetingIsGood(env, p, ClearAll(p.targets, batch));
  }

  lemma PrefillIsGood(env: Env, p: Pool, requested: seq<nat>, supply: Supply, now: int, staleBefore: int)
    requires Sound(env, p) && Generous(p, supply)
    ensures Good(env, p, OrUnchanged(p, FillBatch(env, p, requested, supply, now, staleBefore)))
  {
    assert Extends(p, p);
    hide Sound, Extends, InsertRows, ClaimAll, ClearAll;
    var r := FillBatch(env, p, requested, supply, now, staleBefore);
    if r.Some? {
      var batch := LockedBatch(p.targets, set i | i in requested, |p.targets|);
      BatchRowsInRange(p, batch, supply);
      var rows := BatchRows(p, batch, supply).value;
      var q := p.(targets := ClaimAll(p.targets, batch, now), entries := InsertRows(env, p.entries, rows));
      FilledBatchIsGood(env, p, batch, rows, now);
      FulfillListedIsGood(env, q, batch, WaitingScopes(q, batch));
      var s := FulfillListed(env, q, batch, WaitingScopes(q, batch)).value;
      ExtendsTransitive(p, q, s);
      ClearingIsGood(env, s, batch);
      ExtendsTransitive(p, s, s.(targets := ClearAll(s.targets, batch)));
    }
  }

  lemma {:induction false} RemoveIsGood(env: Env, p: Pool, ts: seq<nat>)
    requires Sound(env, p) && forall i :: 0 <= i < |ts| ==> ts[i] < |p.targets|
    ensures Good(env, p, RemoveAvailable(p, ts))
    decreases |ts|
  {
    assert Extends(p, p);
    if ts != [] {
      var t := ts[0];
      var a := p.(entries := Discard(p.entries, set i | i in AvailableIds(p.entries, t)));
      DiscardingIsGood(env, p, set i | i in AvailableIds(p.entries, t));
      var targets := p.targets[t := p.targets[t].(active := false, refillPending := false)];
      RetargetingIsGood(env, a, targets);
      hide Sound, Extends;
      var b := a.(targets := targets);
      ExtendsTransitive(p, a, b);
      RemoveIsGood(env, b, ts[1..]);
      ExtendsTransitive(p, b, RemoveAvailable(b, ts[1..]));
    }
  }

  lemma ResizeOneIsGood(env: Env, p: Pool, gone: set<nat>, targets: seq<Target>)
    requires Sound(env, p) && |targets| == |p.targets| && forall t | 0 <= t < |targets| :: targets[t].scope == p.targets[t].scope
    ensures Good(env, p, p.(entries := Discard(p.entries, gone), targets := targets))
  {
    DiscardingIsGood(env, p, gone);
    var a := p.(entries := Discard(p.entries, gone));
    RetargetingIsGood(env, a, targets);
    ExtendsTransitive(p, a, a.(targets := targets));
  }

  lemma {:induction false} ResizeIsGood(env: Env, p: Pool, ts: seq<nat>, count: nat, threshold: nat, now: int, staleBefore: int, delivered: bool)
    requires Sound(env, p) && forall i :: 0 <= i < |ts| ==> ts[i] < |p.targets|
    ensures Good(env, p, Resize(p, ts, count, threshold, now, staleBefore, delivered))
    decreases |ts|
  {
    assert Extends(p, p);
    hide Sound, Extends, AvailableCount, Excess, Discard;
    if ts != [] {
      var t := ts[0];
      var es := Discard(p.entries, Excess(p.entries, t, count));
      var resized := p.targets[t := p.targets[t].(targetCount := count, replenishBelow := threshold, active := true)];
      var targets := if AvailableCount(es, t) < threshold then QueueRefill(resized, t, now, staleBefore, delivered).0 else resized;
      ResizeOneIsGood(env, p, Excess(p.entries, t, count), targets);
      var b := p.(entries := es, targets := targets);
      ResizeIsGood(env, b, ts[1..], count, threshold, now, staleBefore, delivered);
      ExtendsTransitive(p, b, Resize(b, ts[1..], count, threshold, now, staleBefore, delivered));
    }
  }

  lemma ExpandIsGood(env: Env, p: Pool, d: Expansion.Demand)
    requires Sound(env, p)
    ensures Good(env, p, p.(targets := Expansion.Expand(d, p.targets)))
  {
    Expansion.InsertTargetsKeeps(p.targets, Expansion.Desired(d, d.bundles));
    RetargetingIsGood(env, p, Expansion.Expand(d, p.targets));
  }

  lemma StepIsGood(env: Env, p: Pool, op: Op)
    requires Sound(env, p) && Enabled(p, op)
    ensures Good(env, p, Step(env, p, op))
  {
    assert Extends(p, p);
    assert UniqueScopes(p.targets);
    hide Sound, Extends;
    match op
    case TopUpOp(t, supply) => TopUpIsGood(env, p, t, supply);
    case ReserveOp(j) => ReserveIsGood(env, p, j);
    case WriteBackOp(j, ready, status) => RecountingIsGood(env, p, Step(env, p, op).jobs);
    case FulfillOp(t) => FulfillIsGood(env, p, t);
    case MarkFailedOp(t) => RecountingIsGood(env, p, MarkFailed(p, t).jobs);
    case ClaimOp(t, now, staleBefore, delivered) => RetargetingIsGood(env, p, Step(env, p, op).targets);
    case ClearOp(t) => RetargetingIsGood(env, p, Step(env, p, op).targets);
    case CreateOp(r, lines, catalog, autoGenerate, brokered) => CreateIsGood(env, p, r, lines, catalog, autoGenerate, brokered);
    case PrefillOp(requested, supplies, now, staleBefore) => PrefillIsGood(env, p, requested, supplies, now, staleBefore);
    case RemoveOp(ts) => RemoveIsGood(env, p, ts);
    case ResizeOp(ts, count, threshold, now, staleBefore, delivered) => ResizeIsGood(env, p, ts, count, threshold, now, staleBefore, delivered);
    case ExpandOp(d) => ExpandIsGood(env, p, d);
  }

  /** Along any run the pool stays sound and the history is only extended. */
  lemma {:induction false} RunIsGood(env: Env, p: Pool, ops: seq<Op>)
    requires Sound(env, p) && Legal(env, p, ops)
    ensures Good(env, p, Run(env, p, ops))
    decreases |ops|
  {
    assert Extends(p, p);
    hide Sound, Extends;
    if ops != [] {
      StepIsGood(env, p, ops[0]);
      RunIsGood(env, Step(env, p, ops[0]), ops[1..]);
      ExtendsTransitive(p, Step(env, p, ops[0]), Run(env, p, ops));
    }
  }
}
