/** The pool operations as the handlers and workers perform them, row by row, on the mutable
    tables.  Each ends in the tables its specification function gives. */
module ProxyPoolDesk {
  import opened Wrappers
  import opened Sequences
  import opened ProxyPool
  import opened ProxyPrefill
  import opened ProxyPrefillRefinement
  import opened ProxyPoolRuns

  class PoolDesk {
    var targets: seq<Target>
    var entries: seq<Entry>
    var jobs: seq<Job>
    var reservations: seq<Reservation>

    constructor ()
      ensures View() == Empty
    {
      targets, entries, jobs, reservations := [], [], [], [];
    }

    function View(): Pool
      reads this
    {
      Pool(targets, entries, jobs, reservations)
    }

    /** Roll a failed transaction back to its savepoint. */
    method Restore(before: Pool)
      modifies this
      ensures View() == before
    {
      targets, entries, jobs, reservations := before.targets, before.entries, before.jobs, before.reservations;
    }

    // ---------------------------------------------------------------- control/proxy_jobs.py

    method ReservePoolProxies(env: Env, job: nat) returns (ok: bool)
      requires job < |jobs|
      modifies this
      ensures var r := Reserve(env, old(View()), job); ok == r.Some? && View() == OrUnchanged(old(View()), r)
    {
      var before := View();
      var remaining := Shortage(before, job);
      var ids := Take(OpenStock(before, jobs[job].scope), remaining);
      var i := 0;
      while i < |ids|
        invariant 0 <= i <= |ids| && jobs == before.jobs && targets == before.targets && |entries| == |before.entries|
        invariant IssueAll(env, before, job, ids) == IssueAll(env, View(), job, ids[i..])
      {
        var entry := entries[ids[i]];
        var value := env.repair(jobs[job].scope, entry.line);
        var rewritten := value != entry.line;
        if rewritten {
          entry := entry.(line := value);
          entry := entry.(fingerprint := env.digest(value));
        }
        entry := entry.(state := Reserved);
        entry := entry.(client := Some(jobs[job].client));
        if rewritten && FingerprintUsed(entries, entry.fingerprint, ids[i]) {
          Restore(before);
          return false;
        }
        if FingerprintIssued(reservations, entry.fingerprint) {
          Restore(before);
          return false;
        }
        entries := entries[ids[i] := entry];
        reservations := reservations + [Reservation(jobs[job].client, job, Some(ids[i]), entry.fingerprint, value)];
        assert ids[i..][1..] == ids[i + 1..];
        i := i + 1;
      }
      ok := true;
    }

    /** Catalog lines that were issued before are skipped. */
    method ReserveStaticProxies(env: Env, job: nat, catalog: seq<string>)
      requires job < |jobs|
      modifies `reservations
      ensures reservations == ReserveStatic(env, old(reservations), jobs[job].client, job, Shortage(old(View()), job), catalog)
    {
      ghost var start := reservations;
      var remaining := Shortage(View(), job);
      var issued := 0;
      var i := 0;
      while i < |catalog| && issued < remaining
        invariant 0 <= i <= |catalog| && 0 <= issued <= remaining
        invariant ReserveStatic(env, start, jobs[job].client, job, remaining, catalog) ==
                    ReserveStatic(env, reservations, jobs[job].client, job, remaining - issued, catalog[i..])
      {
        assert catalog[i..][1..] == catalog[i + 1..];
        var fingerprint := env.digest(catalog[i]);
        if !FingerprintIssued(reservations, fingerprint) {
          reservations := reservations + [Reservation(jobs[job].client, job, None, fingerprint, catalog[i])];
          issued := issued + 1;
        }
        i := i + 1;
      }
    }

    /** `ok` is false when reserving for some job raised; the jobs before it keep what they got. */
    method FulfillWaitingJobs(env: Env, t: nat) returns (ok: bool)
      requires t < |targets|
      modifies this
      ensures var o := Fulfill(env, old(View()), t); ok == o.Done? && View() == o.pool
      ensures targets == old(targets) && |jobs| == |old(jobs)|
    {
      hide ServeAll, Reserve, Stock, CountFor, UnfinishedJobs, ReservationTarget;
      ghost var before := View();
      UnfinishedInRange(jobs, targets[t].scope, |jobs|);
      var waiting := UnfinishedJobs(jobs, targets[t].scope, |jobs|);
      assert waiting[0..] == waiting;
      assert Fulfill(env, before, t) == ServeAll(env, before, t, waiting[0..]);
      hide Fulfill;
      var i := 0;
      while i < |waiting|
        invariant 0 <= i <= |waiting| && targets == before.targets && |jobs| == |before.jobs|
        invariant Fulfill(env, before, t) == ServeAll(env, View(), t, waiting[i..])
      {
        var job := waiting[i];
        assert waiting[i..][1..] == waiting[i + 1..] && waiting[i..][0] == job;
        ServeAllNext(env, View(), t, waiting[i..]);
        var reserved := ReservePoolProxies(env, job);
        if !reserved {
          return false;
        }
        var ready := CountFor(reservations, job);
        var status;
        if ready >= ReservationTarget(jobs[job]) {
          status := Ready;
        } else if ready > 0 {
          status := Partial;
        } else {
          status := Waiting;
        }
        jobs := jobs[job := jobs[job].(readyCount := ready, status := status)];
        if AvailableCount(entries, t) == 0 {
          return true;
        }
        i := i + 1;
      }
      ServeNobody(env, View(), t);
      assert waiting[|waiting|..] == [];
      ok := true;
    }

    // ---------------------------------------------------------------- control/tasks.py

    method MarkTargetJobsFailed(t: nat)
      requires t < |targets|
      modifies `jobs
      ensures |jobs| == |old(jobs)| &&
              forall j | 0 <= j < |jobs| ::
                jobs[j] ==
                  if old(jobs)[j].scope == targets[t].scope && (old(jobs)[j].status == Waiting || old(jobs)[j].status == Partial)
                  then old(jobs)[j].(status := if old(jobs)[j].readyCount == 0 then Failed else Partial)
                  else old(jobs)[j]
      ensures View() == MarkFailed(old(View()), t)
    {
      ghost var before := View();
      for i := 0 to |jobs|
        invariant |jobs| == |before.jobs|
        invariant forall k | 0 <= k < i :: jobs[k] == FailedJob(before.jobs[k], targets[t].scope)
        invariant forall k | i <= k < |jobs| :: jobs[k] == before.jobs[k]
      {
        if Unfinished(jobs[i], targets[t].scope) {
          jobs := jobs[i := jobs[i].(status := if jobs[i].readyCount == 0 then Failed else Partial)];
        }
      }
    }

    method TopUpTarget(env: Env, t: nat, supply: Option<seq<string>>) returns (ok: bool)
      requires t < |targets| && Supplies(supply, Needed(View(), t))
      modifies `entries
      ensures var r := TopUp(env, old(View()), t, supply); ok == r.Some? && View() == OrUnchanged(old(View()), r)
    {
      var needed := Needed(View(), t);
      if needed != 0 {
        if supply.None? {
          return false;
        }
        var rows := [];
        for k := 0 to needed
          invariant rows == RowsOf(t, supply.value[..k])
        {
          rows := rows + [Row(t, supply.value[k])];
        }
        entries := InsertRows(env, entries, rows);
      }
      ok := true;
    }

    method RefillProxyPool(env: Env, t: nat, supply: Option<seq<string>>) returns (ok: bool)
      requires t < |targets| ==> Supplies(supply, Needed(View(), t))
      modifies this
      ensures var o := Refill(env, old(View()), t, supply); ok == o.Done? && View() == o.pool
    {
      ok := true;
      if t < |targets| {
        if targets[t].active {
          ok := TopUpTarget(env, t, supply);
          if ok {
            ok := FulfillWaitingJobs(env, t);
          }
          if !ok {
            MarkTargetJobsFailed(t);
          }
        }
        targets := targets[t := targets[t].(refillPending := false, refillRequestedAt := None)];
      }
    }

    method QueueRefillProxyPool(t: nat, now: int, staleBefore: int, delivered: bool) returns (queued: bool)
      modifies `targets
      ensures var claimable :=
                t < |old(targets)| && old(targets)[t].active &&
                (!old(targets)[t].refillPending || old(targets)[t].refillRequestedAt.None? || old(targets)[t].refillRequestedAt.value <= staleBefore);
              && (queued <==> claimable && delivered)
              && targets ==
                   if queued then old(targets)[t := old(targets)[t].(refillPending := true, refillRequestedAt := Some(now))]
                   else if claimable then old(targets)[t := old(targets)[t].(refillPending := false, refillRequestedAt := None)]
                   else old(targets)
      ensures (targets, queued) == QueueRefill(old(targets), t, now, staleBefore, delivered)
    {
      queued := t < |targets| && Claimable(targets[t], staleBefore);
      if queued {
        targets := targets[t := targets[t].(refillPending := true, refillRequestedAt := Some(now))];
        if !delivered {
          targets := targets[t := targets[t].(refillPending := false, refillRequestedAt := None)];
          queued := false;
          assert targets == ClearClaim(old(targets), t);
        }
      }
    }

    // ---------------------------------------------------------------- control/views.py

    method GetOrCreateTarget(fallback: Target) returns (t: nat)
      modifies `targets
      ensures targets == WithTarget(old(targets), fallback)
      ensures FindTarget(targets, fallback.scope, |targets|) == Some(t)
    {
      var found := FindTarget(targets, fallback.scope, |targets|);
      if found.None? {
        targets := targets + [fallback];
        found := Some(|targets| - 1);
      }
      t := found.value;
    }

    method EnsureDynamicInventory(env: Env, scope: Scope, minimum: nat, rotate: bool, supply: Option<seq<string>>) returns (ok: bool)
      modifies this
      ensures var r := EnsureInventory(env, old(View()), scope, minimum, rotate, supply);
              ok == r.Some? && (ok ==> View() == r.value)
    {
      hide WithTarget, FindTarget, Stock, Discard, FingerprintUsed, RowsOf, InsertStrictly, Rotates, DefaultTarget;
      assert DefaultTarget(scope).scope == scope by {
        DefaultScope(scope);
      }
      var t := GetOrCreateTarget(DefaultTarget(scope));
      if !targets[t].active {
        return false;
      }
      if rotate && Rotates(scope.provider) {
        entries := Discard(entries, set i | i in AvailableIds(entries, t));
      }
      var needed := Max(0, Max(1, minimum) - AvailableCount(entries, t));
      if needed == 0 {
        return true;
      }
      if supply.None? || |supply.value| < needed {
        return false;
      }
      var inserted := InsertStrictly(env, entries, RowsOf(t, supply.value[..needed]));
      ok := inserted.Some?;
      if ok {
        entries := inserted.value;
      }
    }

    /** Any error on the way rolls the whole request back. */
    method CreateProxyJob(env: Env, r: JobRequest, supply: Option<seq<string>>, catalog: seq<string>,
                          autoGenerate: bool, brokered: bool) returns (ok: bool)
      modifies this
      ensures var c := CreateJob(env, old(View()), r, supply, catalog, autoGenerate, brokered);
              ok == c.Some? && View() == OrUnchanged(old(View()), c)
    {
      var before := View();
      if Dynamic(r.scope.provider) {
        var ensured := EnsureDynamicInventory(env, r.scope, r.candidateCount, r.freshPool, supply);
        if !ensured {
          Restore(before);
          return false;
        }
      }
      ok := CreateOnInventory(env, r, catalog, autoGenerate, brokered);
      if !ok {
        Restore(before);
      }
    }

    method CreateOnInventory(env: Env, r: JobRequest, catalog: seq<string>, autoGenerate: bool, brokered: bool) returns (ok: bool)
      modifies this
      ensures var c := CreateOn(env, old(View()), r, catalog, autoGenerate, brokered);
              ok == c.Some? && (ok ==> View() == c.value)
    {
      hide Reserve, ReserveStatic, WithTarget, FindTarget, CountFor, Stock;
      var pk, issued := |jobs|, |reservations|;
      jobs := jobs + [CreatedJob(r)];
      ghost var start := View();
      ReserveFrame(env, start, pk);
      ok := ReservePoolProxies(env, pk);
      if !ok {
        return;
      }
      if |reservations| - issued < r.candidateCount && r.scope.region == "" && r.scope.city == "" {
        ReserveStaticProxies(env, pk, catalog);
      }
      var ready := Max(0, |reservations| - issued);
      var status;
      if ready >= r.candidateCount {
        status := Ready;
      } else if ready > 0 {
        status := Partial;
      } else if autoGenerate {
        status := Waiting;
      } else {
        status := Failed;
      }
      jobs := jobs[pk := jobs[pk].(readyCount := ready, status := status)];
      assert FillJob(env, start, pk, catalog, autoGenerate) == Some(View());
      if autoGenerate && brokered && ready < r.candidateCount {
        var _ := GetOrCreateTarget(Target(r.scope, 1000, 200, true, false, None));
      }
    }

    // ---------------------------------------------------------------- control/panel_operations.py

    method RemoveAvailableStock(ts: seq<nat>)
      requires forall i :: 0 <= i < |ts| ==> ts[i] < |targets|
      modifies `targets, `entries
      ensures View() == RemoveAvailable(old(View()), ts)
    {
      ghost var before := View();
      for i := 0 to |ts|
        invariant |targets| == |before.targets|
        invariant RemoveAvailable(before, ts) == RemoveAvailable(View(), ts[i..])
      {
        var t := ts[i];
        assert ts[i..][1..] == ts[i + 1..];
        entries := Discard(entries, set k | k in AvailableIds(entries, t));
        targets := targets[t := targets[t].(active := false, refillPending := false)];
      }
    }

    method ResizePools(ts: seq<nat>, count: nat, threshold: nat, now: int, staleBefore: int, delivered: bool)
      requires forall i :: 0 <= i < |ts| ==> ts[i] < |targets|
      modifies `targets, `entries
      ensures View() == Resize(old(View()), ts, count, threshold, now, staleBefore, delivered)
    {
      ghost var before := View();
      for i := 0 to |ts|
        invariant |targets| == |before.targets|
        invariant Resize(before, ts, count, threshold, now, staleBefore, delivered) ==
                    Resize(View(), ts[i..], count, threshold, now, staleBefore, delivered)
      {
        var t := ts[i];
        assert ts[i..][1..] == ts[i + 1..];
        entries := Discard(entries, Excess(entries, t, count));
        targets := targets[t := targets[t].(targetCount := count, replenishBelow := threshold, active := true)];
        if AvailableCount(entries, t) < threshold {
          var _ := QueueRefillProxyPool(t, now, staleBefore, delivered);
        }
      }
    }

    // ---------------------------------------------------------------- control/prefill.py

    /** Write the pending rows and empty the buffer once it is full. */
    method Flush(env: Env, pending: seq<Row>, full: nat) returns (left: seq<Row>)
      modifies `entries
      ensures InsertRows(env, entries, left) == InsertRows(env, old(entries), pending)
      ensures full <= |pending| ==> left == []
    {
      left := pending;
      if |left| >= full {
        entries := InsertRows(env, entries, left);
        left := [];
      }
    }

    /** Generate what target `t` needs and buffer it, writing whenever the buffer is full. */
    method BufferLines(env: Env, t: nat, lines: seq<string>, pending: seq<Row>, full: nat) returns (left: seq<Row>)
      modifies `entries
      ensures InsertRows(env, entries, left) == InsertRows(env, old(entries), pending + RowsOf(t, lines))
    {
      left := pending;
      ghost var start := entries;
      assert pending + RowsOf(t, lines[..0]) == pending;
      for k := 0 to |lines|
        invariant InsertRows(env, entries, left) == InsertRows(env, start, pending + RowsOf(t, lines[..k]))
      {
        InsertRowsChunks(env, entries, left, [Row(t, lines[k])]);
        InsertRowsChunks(env, start, pending + RowsOf(t, lines[..k]), [Row(t, lines[k])]);
        assert pending + RowsOf(t, lines[..k]) + [Row(t, lines[k])] == pending + RowsOf(t, lines[..k + 1]);
        left := left + [Row(t, lines[k])];
        left := Flush(env, left, full);
      }
      assert lines[..|lines|] == lines;
    }

    /** One transaction over the requested keys; `full` is the entry batch size. */
    method FillTargetBatch(env: Env, requested: seq<nat>, supply: Supply, full: nat, now: int, staleBefore: int)
        returns (ok: bool, created: nat)
      requires Generous(View(), supply) && full > 0
      modifies this
      ensures var r := FillBatch(env, old(View()), requested, supply, now, staleBefore);
              ok == r.Some? && View() == OrUnchanged(old(View()), r)
      ensures ok ==> created == BatchCreated(env, old(View()), requested, supply)
    {
      hide LockedBatch, BatchRows, InsertRows, FulfillListed, WaitingScopes, ClaimAll, ClearAll, Owned, Generous, Needed, FillBatch, StockOf;
      created := 0;
      var before := View();
      var batch := LockedBatch(targets, set i | i in requested, |targets|);
      GenerousSupplies(before, batch, supply);
      FillBatchUnfolds(env, before, requested, supply, now, staleBefore);
      if exists i :: 0 <= i < |requested| && requested[i] !in batch {
        return false, 0;
      }
      if exists i :: 0 <= i < |batch| && Owned(targets[batch[i]], staleBefore) {
        return false, 0;
      }
      targets := ClaimAll(targets, batch, now);
      var beforeAvailable := StockOf(entries, batch);
      ok := GenerateBatch(env, before, batch, supply, full);
      if ok {
        var afterAvailable: int := StockOf(entries, batch);
        created := Max(0, afterAvailable - beforeAvailable);
        ok := FulfillBatch(env, batch);
      }
      if ok {
        targets := ClearAll(targets, batch);
      } else {
        Restore(before);
      }
    }

    /** Generate for the whole batch from the stock `before` counted. */
    method GenerateBatch(env: Env, before: Pool, batch: seq<nat>, supply: Supply, full: nat) returns (ok: bool)
      requires entries == before.entries && full > 0 && BatchSupplied(before, batch, supply)
      modifies `entries
      ensures var rows := BatchRows(before, batch, supply);
              ok == rows.Some? && (ok ==> entries == InsertRows(env, before.entries, rows.value))
    {
      var pending: seq<Row> := [];
      ghost var all := BatchRows(before, batch, supply);
      ghost var done: seq<Row> := [];
      assert batch[0..] == batch && (all.Some? ==> [] + all.value == all.value);
      assert Split(all, done, BatchRows(before, batch[0..], supply));
      hide InsertRows, BatchRows, Split, RowsOf, Stock;
      for i := 0 to |batch|
        invariant InsertRows(env, entries, pending) == InsertRows(env, before.entries, done)
        invariant BatchSupplied(before, batch[i..], supply)
        invariant Split(all, done, BatchRows(before, batch[i..], supply))
      {
        assert batch[i..][1..] == batch[i + 1..];
        var t := batch[i];
        SplitNext(all, done, before, batch[i..], supply);
        var needed := Needed(before, t);
        if needed != 0 {
          if supply(t).None? {
            return false;
          }
          var lines := supply(t).value[..needed];
          InsertsMore(env, entries, pending, before.entries, done, RowsOf(t, lines));
          pending := BufferLines(env, t, lines, pending, full);
          done := done + RowsOf(t, lines);
        }
      }
      SplitEnds(all, done, before, batch[|batch|..], supply);
      entries := InsertRows(env, entries, pending);
      ok := true;
    }

    /** Fulfil the targets of the batch with a waiting job. */
    method FulfillBatch(env: Env, batch: seq<nat>) returns (ok: bool)
      requires forall i :: 0 <= i < |batch| ==> batch[i] < |targets|
      modifies this
      ensures var r := FulfillListed(env, old(View()), batch, WaitingScopes(old(View()), batch));
              ok == r.Some? && (ok ==> View() == r.value)
      ensures targets == old(targets)
    {
      var waiting := WaitingScopes(View(), batch);
      ghost var before := View();
      for i := 0 to |batch|
        invariant targets == before.targets
        invariant FulfillListed(env, before, batch, waiting) == FulfillListed(env, View(), batch[i..], waiting)
      {
        assert batch[i..][1..] == batch[i + 1..];
        if targets[batch[i]].scope in waiting {
          ok := FulfillWaitingJobs(env, batch[i]);
          if !ok {
            return;
          }
        }
      }
      ok := true;
    }

    /** `fill_targets_direct`: whatever the entry batch size, the outcome is `FillDirect`; when
        it completes it returns the lines created. */
    method FillTargetsDirect(env: Env, wanted: seq<nat>, size: nat, full: nat, supply: Supply, now: int, staleBefore: int)
        returns (ok: bool, created: nat)
      requires Generous(View(), supply) && size > 0 && full > 0
      modifies this
      ensures (View(), ok) == FillDirect(env, old(View()), wanted, size, supply, now, staleBefore)
      ensures ok ==> created == DirectCreated(env, old(View()), wanted, size, supply, now, staleBefore)
    {
      hide FillBatch, Generous, BatchCreated;
      ghost var before := View();
      var offset := 0;
      created := 0;
      assert wanted[0..] == wanted;
      while offset < |wanted|
        invariant 0 <= offset <= |wanted| && Generous(View(), supply)
        invariant FillDirect(env, before, wanted, size, supply, now, staleBefore) ==
                    FillDirect(env, View(), wanted[offset..], size, supply, now, staleBefore)
        invariant DirectCreated(env, before, wanted, size, supply, now, staleBefore) ==
                    created + DirectCreated(env, View(), wanted[offset..], size, supply, now, staleBefore)
      {
        var requested := Take(wanted[offset..], size);
        assert wanted[offset..][|requested|..] == wanted[offset + |requested|..];
        FillBatchTargets(env, View(), requested, supply, now, staleBefore);
        var made;
        ok, made := FillTargetBatch(env, requested, supply, full, now, staleBefore);
        if !ok {
          return;
        }
        created := created + made;
        offset := offset + |requested|;
      }
      ok := true;
    }
  }

  lemma ReserveFrame(env: Env, p: Pool, job: nat)
    requires job < |p.jobs|
    ensures var q := Reserve(env, p, job);
            q.Some? ==> q.value.jobs == p.jobs && q.value.targets == p.targets && |q.value.entries| == |p.entries|
  {
    IssueAllFrame(env, p, job, Take(OpenStock(p, p.jobs[job].scope), Shortage(p, job)));
  }

  lemma DefaultScope(scope: Scope)
    ensures DefaultTarget(scope).scope == scope
  {
  }

  lemma ServeNobody(env: Env, p: Pool, t: nat)
    ensures ServeAll(env, p, t, []) == Done(p)
  {
  }

  /** One turn of the loop of `fulfill_waiting_jobs`. */
  lemma ServeAllNext(env: Env, p: Pool, t: nat, js: seq<nat>)
    requires js != [] && forall i :: 0 <= i < |js| ==> js[i] < |p.jobs|
    ensures match Reserve(env, p, js[0])
            case None => ServeAll(env, p, t, js) == Raised(p)
            case Some(q) =>
              && q.jobs == p.jobs && q.targets == p.targets
              && var r := Recount(q, js[0]);
                 ServeAll(env, p, t, js) == if AvailableCount(r.entries, t) == 0 then Done(r) else ServeAll(env, r, t, js[1..])
  {
    IssueAllFrame(env, p, js[0], Take(OpenStock(p, p.jobs[js[0]].scope), Shortage(p, js[0])));
  }

  /** `rest` completes `done` to `all`, or both generations fail. */
  predicate Split(all: Option<seq<Row>>, done: seq<Row>, rest: Option<seq<Row>>) {
    match rest
    case None => all.None?
    case Some(rows) => all == Some(done + rows)
  }

  lemma SplitNext(all: Option<seq<Row>>, done: seq<Row>, p: Pool, batch: seq<nat>, supply: Supply)
    requires batch != [] && BatchSupplied(p, batch, supply) && Split(all, done, BatchRows(p, batch, supply))
    ensures Supplies(supply(batch[0]), Needed(p, batch[0])) && BatchSupplied(p, batch[1..], supply)
    ensures var t, n := batch[0], Needed(p, batch[0]);
            if n == 0 then Split(all, done, BatchRows(p, batch[1..], supply))
            else if supply(t).None? then all.None?
            else Split(all, done + RowsOf(t, supply(t).value[..n]), BatchRows(p, batch[1..], supply))
  {
    RowsSplit(p, batch, supply);
    assert Supplies(supply(batch[0]), Needed(p, batch[0]));
    hide BatchRows, Stock, RowsOf;
    var t, n, rest := batch[0], Needed(p, batch[0]), BatchRows(p, batch[1..], supply);
    if n != 0 && supply(t).Some? && rest.Some? {
      assert done + (RowsOf(t, supply(t).value[..n]) + rest.value) == (done + RowsOf(t, supply(t).value[..n])) + rest.value;
    }
  }

  lemma SplitEnds(all: Option<seq<Row>>, done: seq<Row>, p: Pool, batch: seq<nat>, supply: Supply)
    requires batch == [] && Split(all, done, BatchRows(p, batch, supply))
    ensures all == Some(done)
  {
    assert done + [] == done;
  }

  lemma InsertsMore(env: Env, es: seq<Entry>, pending: seq<Row>, base: seq<Entry>, done: seq<Row>, rows: seq<Row>)
    requires InsertRows(env, es, pending) == InsertRows(env, base, done)
    ensures InsertRows(env, es, pending + rows) == InsertRows(env, base, done + rows)
  {
    InsertRowsChunks(env, es, pending, rows);
    InsertRowsChunks(env, base, done, rows);
  }
}
