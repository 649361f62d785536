/** Stock levels: no step lifts a target above its target count, and a job on a generated
    provider is served completely or not created at all. */
module ProxyPoolStock {
  import opened Wrappers
  import opened Sequences
  import opened ProxyPool
  import opened ProxyPoolFacts
  import opened ProxyPrefill
  import opened ProxyPrefillRefinement
  import opened ProxyPoolSound
  import opened ProxyPoolRuns
  import Expansion = PoolExpansion

  // ------------------------------------------------------------------ how the stock of a target changes

  lemma {:induction false} StockShrinks(es: seq<Entry>, fs: seq<Entry>, t: nat, n: nat)
    requires n <= |es| && n <= |fs| && forall i | 0 <= i < n :: LaterEntry(es[i], fs[i])
    ensures |Stock(fs, {t}, n)| <= |Stock(es, {t}, n)|
  {
    if n > 0 {
      StockShrinks(es, fs, t, n - 1);
    }
  }

  lemma {:induction false} NoStock(es: seq<Entry>, t: nat, n: nat)
    requires n <= |es| && forall i | 0 <= i < n :: es[i].target != t
    ensures Stock(es, {t}, n) == []
  {
    if n > 0 {
      NoStock(es, t, n - 1);
    }
  }

  function CountRows(rows: seq<Row>, t: nat): nat
    decreases |rows|
  {
    if rows == [] then 0 else (if rows[0].target == t then 1 else 0) + CountRows(rows[1..], t)
  }

  lemma {:induction false} InsertingAddsAtMost(env: Env, es: seq<Entry>, rows: seq<Row>, t: nat)
    ensures AvailableCount(InsertRows(env, es, rows), t) <= AvailableCount(es, t) + CountRows(rows, t)
    decreases |rows|
  {
    if rows != [] {
      var e := NewEntry(env, rows[0]);
      StockAppends(es, e, {t});
      InsertingAddsAtMost(env, if FingerprintUsed(es, e.fingerprint, |es|) then es else es + [e], rows[1..], t);
    }
  }

  lemma {:induction false} CountRowsOf(t: nat, lines: seq<string>, u: nat)
    ensures CountRows(RowsOf(t, lines), u) == if u == t then |lines| else 0
    decreases |lines|
  {
    if lines != [] {
      assert RowsOf(t, lines)[1..] == RowsOf(t, lines[1..]);
      CountRowsOf(t, lines[1..], u);
    }
  }

  lemma {:induction false} CountRowsAppend(a: seq<Row>, b: seq<Row>, t: nat)
    ensures CountRows(a + b, t) == CountRows(a, t) + CountRows(b, t)
    decreases |a|
  {
    if a == [] {
      assert a + b == b;
    } else {
      assert (a + b)[1..] == a[1..] + b;
      CountRowsAppend(a[1..], b, t);
    }
  }

  lemma {:induction false} BatchRowsCount(p: Pool, batch: seq<nat>, supply: Supply, t: nat)
    requires BatchSupplied(p, batch, supply) && forall i, j :: 0 <= i < j < |batch| ==> batch[i] < batch[j]
    ensures var r := BatchRows(p, batch, supply);
            r.Some? ==> CountRows(r.value, t) == if t in batch then Needed(p, t) else 0
    decreases |batch|
  {
    if batch != [] {
      BatchRowsCount(p, batch[1..], supply, t);
      assert Supplies(supply(batch[0]), Needed(p, batch[0]));
      var rest, r := BatchRows(p, batch[1..], supply), BatchRows(p, batch, supply);
      if r.Some? && Needed(p, batch[0]) != 0 {
        var mine := RowsOf(batch[0], supply(batch[0]).value[..Needed(p, batch[0])]);
        CountRowsOf(batch[0], supply(batch[0]).value[..Needed(p, batch[0])], t);
        CountRowsAppend(mine, rest.value, t);
      }
      assert batch[0] !in batch[1..];
    }
  }

  lemma {:induction false} StockPrefix(es: seq<Entry>, ts: set<nat>, m: nat, n: nat)
    requires m <= n <= |es|
    ensures Stock(es, ts, m) <= Stock(es, ts, n)
  {
    if m < n {
      StockPrefix(es, ts, m, n - 1);
    }
  }

  /** Discarding the newest entries beyond `count` keeps exactly the oldest `count`. */
  lemma DiscardsNewest(es: seq<Entry>, t: nat, count: nat)
    ensures var fs := Discard(es, Excess(es, t, count));
            && AvailableIds(fs, t) == Take(AvailableIds(es, t), count)
            && forall u: nat | u != t :: AvailableIds(fs, u) == AvailableIds(es, u)
  {
    var fs := Discard(es, Excess(es, t, count));
    StockInRange(es, {t}, |es|);
    StockComplete(es, {t}, |es|);
    DiscardsNewestUpTo(es, fs, t, count, |es|);
    forall u: nat | u != t ensures AvailableIds(fs, u) == AvailableIds(es, u) {
      StockAgrees(es, fs, {u}, {u}, |es|);
    }
  }

  /** An entry in stock is among the excess exactly when `count` older ones are in stock too. */
  lemma ExcessIsNewest(es: seq<Entry>, t: nat, count: nat, i: nat)
    requires i < |es| && InStock(es[i], {t})
    ensures i in Excess(es, t, count) <==> |Stock(es, {t}, i)| >= count
  {
    StockPrefix(es, {t}, i + 1, |es|);
    StockComplete(es, {t}, |es|);
    var all, k := AvailableIds(es, t), |Stock(es, {t}, i)|;
    assert all[k] == i;
    if k >= count {
      assert all[count..][k - count] == i;
    }
  }

  lemma {:induction false} DiscardsNewestUpTo(es: seq<Entry>, fs: seq<Entry>, t: nat, count: nat, n: nat)
    requires n <= |es| && fs == Discard(es, Excess(es, t, count))
    ensures Stock(fs, {t}, n) == Take(Stock(es, {t}, n), count)
  {
    hide Excess;
    if n > 0 {
      DiscardsNewestUpTo(es, fs, t, count, n - 1);
      if InStock(es[n - 1], {t}) {
        ExcessIsNewest(es, t, count, n - 1);
      }
    }
  }

  lemma DiscardsAll(es: seq<Entry>, t: nat)
    ensures Discard(es, set i | i in AvailableIds(es, t)) == Discard(es, Excess(es, t, 0))
  {
    assert AvailableIds(es, t)[0..] == AvailableIds(es, t);
    assert (set i | i in AvailableIds(es, t)) == Excess(es, t, 0);
  }

  // ------------------------------------------------------------------ the bound

  ghost predicate Bounded(p: Pool) {
    forall t: nat | t < |p.targets| :: AvailableCount(p.entries, t) <= p.targets[t].targetCount
  }

  /** A target ends within its target count, or within what it had while its count did not drop. */
  ghost predicate Restrained(p: Pool, q: Pool) {
    && |p.targets| <= |q.targets|
    && (forall t: nat | t < |q.targets| ::
          || AvailableCount(q.entries, t) <= q.targets[t].targetCount
          || (t < |p.targets| && p.targets[t].targetCount <= q.targets[t].targetCount
              && AvailableCount(q.entries, t) <= AvailableCount(p.entries, t)))
  }

  lemma RestrainedTransitive(p: Pool, q: Pool, r: Pool)
    requires Restrained(p, q) && Restrained(q, r)
    ensures Restrained(p, r)
  {
  }

  lemma RestrainedKeepsBound(p: Pool, q: Pool)
    requires Bounded(p) && Restrained(p, q)
    ensures Bounded(q)
  {
  }

  /** Steps that write no new entry and lower no target count. */
  lemma ShrinkingIsRestrained(env: Env, p: Pool, q: Pool)
    requires Sound(env, p) && Extends(p, q) && |q.entries| == |p.entries|
    requires forall t | 0 <= t < |p.targets| :: q.targets[t].targetCount >= p.targets[t].targetCount
    ensures Restrained(p, q)
  {
    forall t: nat | t < |q.targets| ensures AvailableCount(q.entries, t) <= AvailableCount(p.entries, t) {
      StockShrinks(p.entries, q.entries, t, |p.entries|);
    }
    forall t: nat | |p.targets| <= t < |q.targets| ensures AvailableCount(p.entries, t) == 0 {
      NoStock(p.entries, t, |p.entries|);
    }
  }

  lemma TopUpIsRestrained(env: Env, p: Pool, t: nat, supply: Option<seq<string>>)
    requires Sound(env, p) && t < |p.targets| && Supplies(supply, Needed(p, t))
    ensures Restrained(p, OrUnchanged(p, TopUp(env, p, t, supply)))
  {
    if Needed(p, t) != 0 && supply.Some? {
      var lines := supply.value[..Needed(p, t)];
      forall u: nat | u < |p.targets|
        ensures AvailableCount(InsertRows(env, p.entries, RowsOf(t, lines)), u) <=
                  AvailableCount(p.entries, u) + if u == t then |lines| else 0
      {
        InsertingAddsAtMost(env, p.entries, RowsOf(t, lines), u);
        CountRowsOf(t, lines, u);
      }
    }
  }

  /** However refills of a target overlap, each top-up leaves at most the larger of what it
      found and the target count. */
  lemma TopUpStaysBelowTarget(env: Env, p: Pool, t: nat, supply: Option<seq<string>>, u: nat)
    requires t < |p.targets| && Supplies(supply, Needed(p, t))
    ensures var q := OrUnchanged(p, TopUp(env, p, t, supply));
            AvailableCount(q.entries, u) <=
              (if u == t then Max(AvailableCount(p.entries, t), p.targets[t].targetCount) else AvailableCount(p.entries, u))
  {
    if Needed(p, t) != 0 && supply.Some? {
      InsertingAddsAtMost(env, p.entries, RowsOf(t, supply.value[..Needed(p, t)]), u);
      CountRowsOf(t, supply.value[..Needed(p, t)], u);
    }
  }

  lemma FulfillIsRestrained(env: Env, p: Pool, t: nat)
    requires Sound(env, p) && t < |p.targets|
    ensures Restrained(p, Fulfill(env, p, t).pool)
  {
    FulfillIsGood(env, p, t);
    FulfillFrame(env, p, t);
    ShrinkingIsRestrained(env, p, Fulfill(env, p, t).pool);
  }

  lemma FilledBatchIsRestrained(env: Env, p: Pool, batch: seq<nat>, supply: Supply, now: int)
    requires BatchSupplied(p, batch, supply) && BatchRows(p, batch, supply).Some?
    requires forall i, j :: 0 <= i < j < |batch| ==> batch[i] < batch[j]
    ensures Restrained(p, p.(targets := ClaimAll(p.targets, batch, now),
                             entries := InsertRows(env, p.entries, BatchRows(p, batch, supply).value)))
  {
    var rows := BatchRows(p, batch, supply).value;
    forall u: nat | u < |p.targets|
      ensures AvailableCount(InsertRows(env, p.entries, rows), u) <= AvailableCount(p.entries, u) + Needed(p, u)
      ensures u !in batch ==> AvailableCount(InsertRows(env, p.entries, rows), u) <= AvailableCount(p.entries, u)
    {
      InsertingAddsAtMost(env, p.entries, rows, u);
      BatchRowsCount(p, batch, supply, u);
    }
    hide InsertRows, BatchRows, AvailableCount;
  }

  lemma FulfillListedIsRestrained(env: Env, p: Pool, batch: seq<nat>, waiting: set<Scope>)
    requires Sound(env, p) && forall i :: 0 <= i < |batch| ==> batch[i] < |p.targets|
    ensures var r := FulfillListed(env, p, batch, waiting); r.Some? ==> Restrained(p, r.value)
  {
    FulfillListedIsGood(env, p, batch, waiting);
    FulfillListedFrame(env, p, batch, waiting);
    var r := FulfillListed(env, p, batch, waiting);
    if r.Some? {
      ShrinkingIsRestrained(env, p, r.value);
    }
  }

  lemma PrefillIsRestrained(env: Env, p: Pool, requested: seq<nat>, supply: Supply, now: int, staleBefore: int)
    requires Sound(env, p) && Generous(p, supply)
    ensures Restrained(p, OrUnchanged(p, FillBatch(env, p, requested, supply, now, staleBefore)))
  {
    SameStockIsRestrained(p, p);
    FillBatchUnfolds(env, p, requested, supply, now, staleBefore);
    hide Restrained, Sound, Extends, InsertRows, ClaimAll, ClearAll, BatchRows, AvailableCount, WaitingScopes, FillBatch, LockedBatch,
         FulfillListed, Generous, Needed, Owned;
    var r := FillBatch(env, p, requested, supply, now, staleBefore);
    if r.Some? {
      var batch := LockedBatch(p.targets, set i | i in requested, |p.targets|);
      PrefilledIsRestrained(env, p, batch, supply, now);
    }
  }

  lemma PrefilledIsRestrained(env: Env, p: Pool, batch: seq<nat>, supply: Supply, now: int)
    requires Sound(env, p) && BatchSupplied(p, batch, supply) && BatchRows(p, batch, supply).Some?
    requires (forall i, j :: 0 <= i < j < |batch| ==> batch[i] < batch[j]) && |ClaimAll(p.targets, batch, now)| == |p.targets|
    ensures var q := Filled(env, p, batch, BatchRows(p, batch, supply).value, now);
            var r := FulfillListed(env, q, batch, WaitingScopes(q, batch));
            r.Some? ==> Restrained(p, r.value.(targets := ClearAll(r.value.targets, batch)))
  {
    hide Restrained, Sound, Extends, InsertRows, ClaimAll, BatchRows, AvailableCount, WaitingScopes, FulfillListed, Needed;
    BatchRowsInRange(p, batch, supply);
    var rows := BatchRows(p, batch, supply).value;
    var q := Filled(env, p, batch, rows, now);
    FilledBatchIsRestrained(env, p, batch, supply, now);
    FilledBatchIsGood(env, p, batch, rows, now);
    FulfillListedIsRestrained(env, q, batch, WaitingScopes(q, batch));
    var r := FulfillListed(env, q, batch, WaitingScopes(q, batch));
    if r.Some? {
      RestrainedTransitive(p, q, r.value);
      SameStockIsRestrained(r.value, r.value.(targets := ClearAll(r.value.targets, batch)));
      RestrainedTransitive(p, r.value, r.value.(targets := ClearAll(r.value.targets, batch)));
    }
  }

  lemma SameStockIsRestrained(p: Pool, q: Pool)
    requires q.entries == p.entries && |q.targets| == |p.targets|
    requires forall t | 0 <= t < |p.targets| :: q.targets[t].targetCount == p.targets[t].targetCount
    ensures Restrained(p, q)
  {
  }

  lemma {:induction false} RemoveIsRestrained(p: Pool, ts: seq<nat>)
    requires forall i :: 0 <= i < |ts| ==> ts[i] < |p.targets|
    ensures Restrained(p, RemoveAvailable(p, ts))
    decreases |ts|
  {
    if ts != [] {
      var t := ts[0];
      DiscardsAll(p.entries, t);
      DiscardsNewest(p.entries, t, 0);
      var q := p.(entries := Discard(p.entries, set i | i in AvailableIds(p.entries, t)),
                  targets := p.targets[t := p.targets[t].(active := false, refillPending := false)]);
      RemoveIsRestrained(q, ts[1..]);
      RestrainedTransitive(p, q, RemoveAvailable(q, ts[1..]));
    }
  }

  lemma {:induction false} ResizeIsRestrained(p: Pool, ts: seq<nat>, count: nat, threshold: nat, now: int, staleBefore: int, delivered: bool)
    requires forall i :: 0 <= i < |ts| ==> ts[i] < |p.targets|
    ensures Restrained(p, Resize(p, ts, count, threshold, now, staleBefore, delivered))
    decreases |ts|
  {
    if ts != [] {
      var t := ts[0];
      var es := Discard(p.entries, Excess(p.entries, t, count));
      DiscardsNewest(p.entries, t, count);
      hide Discard, Excess;
      var resized := p.targets[t := p.targets[t].(targetCount := count, replenishBelow := threshold, active := true)];
      var targets := if AvailableCount(es, t) < threshold then QueueRefill(resized, t, now, staleBefore, delivered).0 else resized;
      var q := p.(entries := es, targets := targets);
      assert Restrained(p, q);
      hide Restrained;
      ResizeIsRestrained(q, ts[1..], count, threshold, now, staleBefore, delivered);
      RestrainedTransitive(p, q, Resize(q, ts[1..], count, threshold, now, staleBefore, delivered));
    }
  }

  // ------------------------------------------------------------------ job creation

  lemma {:induction false} AppendedStock(env: Env, es: seq<Entry>, t: nat, lines: seq<string>, u: nat)
    ensures var fs := es + NewEntries(env, RowsOf(t, lines));
            AvailableIds(fs, u) == AvailableIds(es, u) + (if u == t then seq(|lines|, i => |es| + i) else [])
    decreases |lines|
  {
    var fs := es + NewEntries(env, RowsOf(t, lines));
    if lines == [] {
      assert fs == es;
    } else {
      var m := |lines| - 1;
      AppendedStock(env, es, t, lines[..m], u);
      var gs := es + NewEntries(env, RowsOf(t, lines[..m]));
      assert fs == gs + [NewEntry(env, Row(t, lines[m]))];
      StockAppends(gs, NewEntry(env, Row(t, lines[m])), {u});
    }
  }

  /** After the inventory is ensured, the scope has an active target with enough stock: what
      it had (nothing, when the pool is rotated) or exactly the minimum; other targets keep
      theirs. */
  ghost predicate Ensured(p: Pool, q: Pool, r: JobRequest, t: nat) {
    && t < |q.targets| && q.targets[t].scope == r.scope && q.targets[t].active && UniqueScopes(q.targets)
    && q.targets == WithTarget(p.targets, DefaultTarget(r.scope)) && q.jobs == p.jobs && q.reservations == p.reservations
    && AvailableCount(q.entries, t) ==
         Max(r.candidateCount, if r.freshPool && Rotates(r.scope.provider) then 0 else AvailableCount(p.entries, t))
    && (forall u: nat | u != t :: AvailableIds(q.entries, u) == AvailableIds(p.entries, u))
    && (r.freshPool && Rotates(r.scope.provider) ==> forall i | 0 <= i < |AvailableIds(q.entries, t)| :: |p.entries| <= AvailableIds(q.entries, t)[i])
  }

  /** The shape of an ensured inventory: the old stock, discarded when rotating, and new lines. */
  lemma EnsureShape(env: Env, p: Pool, r: JobRequest, supply: Option<seq<string>>)
      returns (t: nat, es: seq<Entry>, lines: seq<string>)
    requires UniqueScopes(p.targets) && ValidRequest(r)
    requires EnsureInventory(env, p, r.scope, r.candidateCount, r.freshPool, supply).Some?
    ensures var q := EnsureInventory(env, p, r.scope, r.candidateCount, r.freshPool, supply).value;
            && t < |q.targets| && q.targets[t].scope == r.scope && q.targets[t].active && UniqueScopes(q.targets)
            && q.targets == WithTarget(p.targets, DefaultTarget(r.scope)) && q.jobs == p.jobs && q.reservations == p.reservations
            && es == (if r.freshPool && Rotates(r.scope.provider) then Discard(p.entries, Excess(p.entries, t, 0)) else p.entries)
            && |lines| == Max(0, r.candidateCount - AvailableCount(es, t))
            && q.entries == es + NewEntries(env, RowsOf(t, lines))
            && (lines != [] ==> supply.Some? && lines <= supply.value)
  {
    WithTargetUnique(p.targets, DefaultTarget(r.scope));
    var targets := WithTarget(p.targets, DefaultTarget(r.scope));
    t := FindTarget(targets, r.scope, |targets|).value;
    DiscardsAll(p.entries, t);
    es := if r.freshPool && Rotates(r.scope.provider) then Discard(p.entries, Excess(p.entries, t, 0)) else p.entries;
    var needed := Max(0, r.candidateCount - AvailableCount(es, t));
    lines := if needed == 0 then [] else supply.value[..needed];
    if needed != 0 {
      StrictIsInsert(env, es, RowsOf(t, lines));
    }
  }

  lemma EnsureMeetsDemand(env: Env, p: Pool, r: JobRequest, supply: Option<seq<string>>) returns (t: nat)
    requires UniqueScopes(p.targets) && ValidRequest(r)
    requires EnsureInventory(env, p, r.scope, r.candidateCount, r.freshPool, supply).Some?
    ensures Ensured(p, EnsureInventory(env, p, r.scope, r.candidateCount, r.freshPool, supply).value, r, t)
  {
    var es, lines;
    t, es, lines := EnsureShape(env, p, r, supply);
    hide EnsureInventory, WithTarget, Stock, NewEntries, RowsOf;
    DiscardsNewest(p.entries, t, 0);
    forall u: nat
      ensures AvailableIds(es + NewEntries(env, RowsOf(t, lines)), u) ==
                AvailableIds(es, u) + (if u == t then seq(|lines|, i => |es| + i) else [])
    {
      AppendedStock(env, es, t, lines, u);
    }
  }

  /** What creating a job on an ensured pool yields: a job that is ready with exactly the
      candidates it asked for, each the oldest stock of its target. */
  ghost predicate Served(p: Pool, q: Pool, s: Pool, r: JobRequest, t: nat) {
    && s.jobs == p.jobs + [CreatedJob(r).(readyCount := r.candidateCount, status := Ready)]
    && CountFor(s.reservations, |p.jobs|) == r.candidateCount
    && |s.reservations| == |p.reservations| + r.candidateCount && s.reservations[..|p.reservations|] == p.reservations
    && r.candidateCount <= |AvailableIds(q.entries, t)|
    && (forall k | |p.reservations| <= k < |s.reservations| ::
          IssuedTo(s.reservations[k], r.client, |p.jobs|, AvailableIds(q.entries, t)[k - |p.reservations|]))
    && (forall u: nat :: AvailableIds(s.entries, u) == AvailableIds(q.entries, u)[if u == t then r.candidateCount else 0..])
    && s.targets == q.targets
  }

  lemma ReserveServes(env: Env, q: Pool, r: JobRequest, t: nat)
    requires UniqueScopes(q.targets) && t < |q.targets| && q.targets[t].scope == r.scope && q.targets[t].active
    requires ValidRequest(r) && r.candidateCount <= AvailableCount(q.entries, t)
    requires forall k | 0 <= k < |q.reservations| :: q.reservations[k].job < |q.jobs|
    ensures var a := q.(jobs := q.jobs + [CreatedJob(r)]);
            var s := Reserve(env, a, |q.jobs|);
            var ids := AvailableIds(q.entries, t);
            s.Some? ==>
              && s.value.jobs == a.jobs && s.value.targets == q.targets
              && CountFor(s.value.reservations, |q.jobs|) == r.candidateCount
              && |s.value.reservations| == |q.reservations| + r.candidateCount
              && s.value.reservations[..|q.reservations|] == q.reservations
              && (forall k | |q.reservations| <= k < |s.value.reservations| ::
                    IssuedTo(s.value.reservations[k], r.client, |q.jobs|, ids[k - |q.reservations|]))
  {
    var n := |q.jobs|;
    var a := q.(jobs := q.jobs + [CreatedJob(r)]);
    CountZero(a.reservations, n);
    OpenStockOfTarget(a, t);
    var all := AvailableIds(a.entries, t);
    var ids := Take(all, r.candidateCount);
    assert Shortage(a, n) == r.candidateCount;
    assert Reserve(env, a, n) == IssueAll(env, a, n, ids);
    assert Oldest(a, {t}, ids);
    IssueAllStock(env, a, n, {t}, ids);
    IssueAllReservations(env, a, n, ids);
    hide Stock, IssueAll, Reserve, UniqueScopes;
    var s := IssueAll(env, a, n, ids);
    if s.Some? {
      forall k | |q.reservations| <= k < |s.value.reservations|
        ensures IssuedTo(s.value.reservations[k], r.client, n, all[k - |q.reservations|])
      {
        var i := k - |q.reservations|;
        assert IssuedTo(s.value.reservations[|q.reservations| + i], r.client, n, ids[i]);
      }
    }
  }

  /** Issuing entries of one target leaves the stock of the others alone. */
  lemma {:induction false} IssueAllElsewhere(env: Env, p: Pool, job: nat, ids: seq<nat>, u: nat)
    requires job < |p.jobs|
    requires forall i :: 0 <= i < |ids| ==> ids[i] < |p.entries| && p.entries[ids[i]].target != u
    ensures var r := IssueAll(env, p, job, ids); r.Some? ==> AvailableIds(r.value.entries, u) == AvailableIds(p.entries, u)
    decreases |ids|
  {
    if ids != [] {
      var q := IssueOne(env, p, job, ids[0]);
      if q.Some? {
        StockAgrees(p.entries, q.value.entries, {u}, {u}, |p.entries|);
        IssueAllElsewhere(env, q.value, job, ids[1..], u);
      }
    }
  }

  lemma ReserveTakesStock(env: Env, a: Pool, job: nat, t: nat, count: nat, u: nat)
    requires UniqueScopes(a.targets) && t < |a.targets| && a.targets[t].active
    requires job < |a.jobs| && a.jobs[job].scope == a.targets[t].scope
    requires Shortage(a, job) == count <= AvailableCount(a.entries, t)
    ensures var s := Reserve(env, a, job);
            s.Some? ==>
              && |s.value.entries| == |a.entries|
              && AvailableIds(s.value.entries, u) == AvailableIds(a.entries, u)[if u == t then count else 0..]
  {
    OpenStockOfTarget(a, t);
    var ids := Take(AvailableIds(a.entries, t), count);
    assert Reserve(env, a, job) == IssueAll(env, a, job, ids);
    assert Oldest(a, {t}, ids);
    IssueAllStock(env, a, job, {t}, ids);
    StockInRange(a.entries, {t}, |a.entries|);
    hide Stock, IssueAll, Reserve, UniqueScopes;
    if u != t {
      IssueAllElsewhere(env, a, job, ids, u);
    }
  }

  lemma FillJobServes(env: Env, q: Pool, r: JobRequest, t: nat, catalog: seq<string>, autoGenerate: bool)
    requires UniqueScopes(q.targets) && t < |q.targets| && q.targets[t].scope == r.scope && q.targets[t].active
    requires ValidRequest(r) && r.candidateCount <= AvailableCount(q.entries, t)
    requires forall k | 0 <= k < |q.reservations| :: q.reservations[k].job < |q.jobs|
    ensures var c := FillJob(env, q.(jobs := q.jobs + [CreatedJob(r)]), |q.jobs|, catalog, autoGenerate);
            c.Some? ==> Served(q, q, c.value, r, t)
  {
    var n := |q.jobs|;
    var a := q.(jobs := q.jobs + [CreatedJob(r)]);
    CountZero(a.reservations, n);
    assert Shortage(a, n) == r.candidateCount;
    ReserveServes(env, q, r, t);
    forall u: nat
      ensures var s := Reserve(env, a, n);
              s.Some? ==> AvailableIds(s.value.entries, u) == AvailableIds(a.entries, u)[if u == t then r.candidateCount else 0..]
    {
      ReserveTakesStock(env, a, n, t, r.candidateCount, u);
    }
    hide Stock, Reserve, UniqueScopes, Shortage, CountFor, ReserveStatic;
    var c := FillJob(env, a, n, catalog, autoGenerate);
    if c.Some? {
      assert c.value.jobs == q.jobs + [CreatedJob(r).(readyCount := r.candidateCount, status := Ready)];
    }
  }

  lemma CreateOnServes(env: Env, p: Pool, q: Pool, r: JobRequest, t: nat, catalog: seq<string>, autoGenerate: bool, brokered: bool)
    requires Ensured(p, q, r, t) && ValidRequest(r)
    requires forall k | 0 <= k < |p.reservations| :: p.reservations[k].job < |p.jobs|
    ensures var c := CreateOn(env, q, r, catalog, autoGenerate, brokered); c.Some? ==> Served(p, q, c.value, r, t)
  {
    hide FillJob, UniqueScopes, Stock, CountFor, WithTarget, DefaultTarget, Rotates;
    FillJobServes(env, q, r, t, catalog, autoGenerate);
  }

  /** What a job creation on a generated provider amounts to. */
  ghost predicate FullyServed(p: Pool, s: Pool, r: JobRequest) {
    && s.jobs == p.jobs + [CreatedJob(r).(readyCount := r.candidateCount, status := Ready)]
    && CountFor(s.reservations, |p.jobs|) == r.candidateCount
    && |s.reservations| == |p.reservations| + r.candidateCount && s.reservations[..|p.reservations|] == p.reservations
    && (forall k | |p.reservations| <= k < |s.reservations| ::
          && s.reservations[k].job == |p.jobs| && s.reservations[k].entry.Some?
          && (r.freshPool && Rotates(r.scope.provider) ==> |p.entries| <= s.reservations[k].entry.value))
  }

  /** A job on a generated provider is created with exactly the candidates it asks for, all
      from stock, or nothing happens; with a fresh pool every issued entry was generated by
      this very request; and the request leaves no more stock than it found, anywhere. */
  lemma CreationIsAllOrNothing(env: Env, p: Pool, r: JobRequest, supply: Option<seq<string>>, catalog: seq<string>,
                               autoGenerate: bool, brokered: bool)
    requires UniqueScopes(p.targets) && ValidRequest(r) && Dynamic(r.scope.provider)
    requires forall k | 0 <= k < |p.reservations| :: p.reservations[k].job < |p.jobs|
    ensures var c := CreateJob(env, p, r, supply, catalog, autoGenerate, brokered);
            c.Some? ==>
              && FullyServed(p, c.value, r)
              && c.value.targets == WithTarget(p.targets, DefaultTarget(r.scope))
              && forall u: nat :: AvailableCount(c.value.entries, u) <= AvailableCount(p.entries, u)
  {
    hide EnsureInventory, CreateOn, Stock, CountFor, UniqueScopes, WithTarget, Rotates, DefaultTarget;
    var c := CreateJob(env, p, r, supply, catalog, autoGenerate, brokered);
    if c.Some? {
      var t := EnsureMeetsDemand(env, p, r, supply);
      var q := EnsureInventory(env, p, r.scope, r.candidateCount, r.freshPool, supply).value;
      CreateOnServes(env, p, q, r, t, catalog, autoGenerate, brokered);
      forall k | |p.reservations| <= k < |c.value.reservations|
        ensures c.value.reservations[k].job == |p.jobs| && c.value.reservations[k].entry == Some(AvailableIds(q.entries, t)[k - |p.reservations|])
      {
        assert IssuedTo(c.value.reservations[k], r.client, |p.jobs|, AvailableIds(q.entries, t)[k - |p.reservations|]);
      }
    }
  }

  // ------------------------------------------------------------------ when a creation succeeds

  /** The fingerprint a line is issued with for a scope. */
  function IssuedAs(env: Env, scope: Scope, line: string): string {
    env.digest(env.repair(scope, line))
  }

  /** At its turn, what row `ids[i]` is issued with is neither given out nor on another live row. */
  ghost predicate Free(env: Env, p: Pool, scope: Scope, ids: seq<nat>, i: nat)
    requires i < |ids| && forall k :: 0 <= k < |ids| ==> ids[k] < |p.entries|
  {
    var fingerprint := IssuedAs(env, scope, p.entries[ids[i]].line);
    && !FingerprintIssued(p.reservations, fingerprint)
    && (forall j | 0 <= j < i :: IssuedAs(env, scope, p.entries[ids[j]].line) != fingerprint)
    && (forall k: nat | k < |p.entries| && k !in ids[..i + 1] && Live(p.entries[k]) :: p.entries[k].fingerprint != fingerprint)
  }

  /** The rows `ids` can be issued for a scope one after the other. */
  ghost predicate Issuable(env: Env, p: Pool, scope: Scope, ids: seq<nat>)
    requires forall k :: 0 <= k < |ids| ==> ids[k] < |p.entries|
  {
    forall i | 0 <= i < |ids| :: Free(env, p, scope, ids, i)
  }

  lemma IssueOneExactly(env: Env, p: Pool, job: nat, id: nat)
    requires Sound(env, p) && job < |p.jobs| && id < |p.entries| && p.entries[id].state == Available
    ensures var fingerprint := IssuedAs(env, p.jobs[job].scope, p.entries[id].line);
            var r := IssueOne(env, p, job, id);
            && (r.Some? <==> !FingerprintIssued(p.reservations, fingerprint) && !FingerprintUsed(p.entries, fingerprint, id))
            && (r.Some? ==>
                  && r.value.reservations == p.reservations + [r.value.reservations[|p.reservations|]]
                  && r.value.reservations[|p.reservations|].fingerprint == fingerprint
                  && r.value.entries == p.entries[id := r.value.entries[id]]
                  && r.value.entries[id].fingerprint == fingerprint && Live(r.value.entries[id]))
  {
  }

  /** What is free for the rest stays free once the first row is issued. */
  lemma FreeForRest(env: Env, p: Pool, q: Pool, scope: Scope, ids: seq<nat>, i: nat)
    requires 1 <= i < |ids| && |p.entries| == |q.entries| && forall k :: 0 <= k < |ids| ==> ids[k] < |p.entries|
    requires forall k | 1 <= k < |ids| :: ids[k] != ids[0]
    requires |q.reservations| == |p.reservations| + 1 && q.reservations[..|p.reservations|] == p.reservations
    requires q.reservations[|p.reservations|].fingerprint == IssuedAs(env, scope, p.entries[ids[0]].line)
    requires q.entries == p.entries[ids[0] := q.entries[ids[0]]] && Live(q.entries[ids[0]])
    requires q.entries[ids[0]].fingerprint == IssuedAs(env, scope, p.entries[ids[0]].line)
    ensures Free(env, p, scope, ids, i) <==> Free(env, q, scope, ids[1..], i - 1)
  {
    var f, rest := IssuedAs(env, scope, p.entries[ids[i]].line), ids[1..];
    var first := IssuedAs(env, scope, p.entries[ids[0]].line);
    assert rest[i - 1] == ids[i] && q.entries[ids[i]] == p.entries[ids[i]];
    assert FingerprintIssued(q.reservations, f) <==> FingerprintIssued(p.reservations, f) || first == f by {
      assert q.reservations[|p.reservations|].fingerprint == first;
      assert forall k | 0 <= k < |p.reservations| :: q.reservations[k] == q.reservations[..|p.reservations|][k];
    }
    assert forall j | 0 <= j < i - 1 :: rest[j] == ids[j + 1] && q.entries[rest[j]] == p.entries[ids[j + 1]];
    assert ids[..i + 1] == [ids[0]] + rest[..i];
    if Free(env, q, scope, rest, i - 1) {
      forall j | 0 <= j < i ensures IssuedAs(env, scope, p.entries[ids[j]].line) != f {
        if j > 0 {
          assert IssuedAs(env, scope, q.entries[rest[j - 1]].line) != f;
        }
      }
      forall k: nat | k < |p.entries| && k !in ids[..i + 1] && Live(p.entries[k]) ensures p.entries[k].fingerprint != f {
        assert k !in rest[..i] && q.entries[k] == p.entries[k];
      }
    }
    if Free(env, p, scope, ids, i) {
      assert first != f;
      forall j | 0 <= j < i - 1 ensures IssuedAs(env, scope, q.entries[rest[j]].line) != f {
        assert IssuedAs(env, scope, p.entries[ids[j + 1]].line) != f;
      }
      forall k: nat | k < |q.entries| && k !in rest[..i] && Live(q.entries[k]) ensures q.entries[k].fingerprint != f {
        if k != ids[0] {
          assert k !in ids[..i + 1] && q.entries[k] == p.entries[k];
        }
      }
    }
  }

  lemma FirstIsFree(env: Env, p: Pool, scope: Scope, ids: seq<nat>)
    requires ids != [] && forall k :: 0 <= k < |ids| ==> ids[k] < |p.entries|
    ensures var fingerprint := IssuedAs(env, scope, p.entries[ids[0]].line);
            Free(env, p, scope, ids, 0) <==> !FingerprintIssued(p.reservations, fingerprint) && !FingerprintUsed(p.entries, fingerprint, ids[0])
  {
    assert ids[..1] == [ids[0]];
  }

  lemma {:induction false} IssueAllExactly(env: Env, p: Pool, job: nat, ids: seq<nat>)
    requires Sound(env, p) && job < |p.jobs|
    requires forall i :: 0 <= i < |ids| ==> ids[i] < |p.entries| && p.entries[ids[i]].state == Available
    requires forall i, j :: 0 <= i < j < |ids| ==> ids[i] < ids[j]
    ensures IssueAll(env, p, job, ids).Some? <==> Issuable(env, p, p.jobs[job].scope, ids)
    decreases |ids|
  {
    if ids != [] {
      var scope := p.jobs[job].scope;
      IssueOneExactly(env, p, job, ids[0]);
      IssueOneIsGood(env, p, job, ids[0]);
      FirstIsFree(env, p, scope, ids);
      var r := IssueOne(env, p, job, ids[0]);
      hide Sound, Extends, Free, IssueOne, FingerprintUsed, FingerprintIssued, IssuedAs;
      if r.Some? {
        var q := r.value;
        forall i | 1 <= i < |ids| ensures Free(env, p, scope, ids, i) <==> Free(env, q, scope, ids[1..], i - 1) {
          FreeForRest(env, p, q, scope, ids, i);
        }
        IssueAllExactly(env, q, job, ids[1..]);
        if Issuable(env, q, scope, ids[1..]) {
          forall i | 0 <= i < |ids| ensures Free(env, p, scope, ids, i) {
            if i > 0 {
              assert Free(env, q, scope, ids[1..], i - 1);
            }
          }
        }
        if Issuable(env, p, scope, ids) {
          forall i | 0 <= i < |ids[1..]| ensures Free(env, q, scope, ids[1..], i) {
            assert Free(env, p, scope, ids, i + 1);
          }
        }
      }
    }
  }

  lemma {:induction false} InsertStrictlyExactly(env: Env, es: seq<Entry>, rows: seq<Row>)
    ensures InsertStrictly(env, es, rows).Some? <==> NewFingerprints(env, es, rows)
    decreases |rows|
  {
    if rows != [] {
      var e, rest := NewEntry(env, rows[0]), rows[1..];
      InsertStrictlyExactly(env, es + [e], rest);
      if FingerprintUsed(es, e.fingerprint, |es|) {
        var k: nat :| k < |es| && Live(es[k]) && es[k].fingerprint == e.fingerprint;
        assert 0 < |rows| && es[k].fingerprint == env.digest(rows[0].line);
      } else {
        if NewFingerprints(env, es + [e], rest) {
          assert (es + [e])[|es|] == e && Live(e);
          forall i, j | 0 <= i < j < |rows| ensures env.digest(rows[i].line) != env.digest(rows[j].line) {
            assert rows[j] == rest[j - 1] && (i > 0 ==> rows[i] == rest[i - 1]);
          }
          forall i, k | 0 <= i < |rows| && 0 <= k < |es| && Live(es[k]) ensures es[k].fingerprint != env.digest(rows[i].line) {
            assert (es + [e])[k] == es[k] && (i > 0 ==> rows[i] == rest[i - 1]);
          }
        }
      }
    }
  }

  function KeyOf(targets: seq<Target>, scope: Scope): nat {
    var found := FindTarget(targets, scope, |targets|);
    if found.Some? then found.value else |targets|
  }

  /** The rows a request finds: all of them, or without the old stock when it rotates the pool. */
  function Kept(p: Pool, r: JobRequest): seq<Entry> {
    if r.freshPool && Rotates(r.scope.provider)
    then Discard(p.entries, set i | i in AvailableIds(p.entries, KeyOf(p.targets, r.scope))) else p.entries
  }

  /** How many lines a request lacks. */
  function Missing(p: Pool, r: JobRequest): nat {
    Max(0, r.candidateCount - AvailableCount(Kept(p, r), KeyOf(p.targets, r.scope)))
  }

  function NewLines(p: Pool, r: JobRequest, supply: Option<seq<string>>): seq<string> {
    if supply.Some? && Missing(p, r) <= |supply.value| then supply.value[..Missing(p, r)] else []
  }

  /** The pool with the inventory of a request. */
  function Stocked(env: Env, p: Pool, r: JobRequest, supply: Option<seq<string>>): Pool {
    p.(targets := WithTarget(p.targets, DefaultTarget(r.scope)),
       entries := Kept(p, r) + NewEntries(env, RowsOf(KeyOf(p.targets, r.scope), NewLines(p, r, supply))))
  }

  /** The target is not switched off, and the generator hands out the missing lines, all new. */
  ghost predicate Stockable(env: Env, p: Pool, r: JobRequest, supply: Option<seq<string>>) {
    && (KeyOf(p.targets, r.scope) < |p.targets| ==> p.targets[KeyOf(p.targets, r.scope)].active)
    && |NewLines(p, r, supply)| == Missing(p, r)
    && NewFingerprints(env, Kept(p, r), RowsOf(KeyOf(p.targets, r.scope), NewLines(p, r, supply)))
  }

  lemma ActiveKey(targets: seq<Target>, fallback: Target)
    requires fallback.active
    ensures var all, t := WithTarget(targets, fallback), KeyOf(targets, fallback.scope);
            t < |all| && (all[t].active <==> (t < |targets| ==> targets[t].active))
  {
  }

  lemma DefaultIsActive(scope: Scope)
    ensures DefaultTarget(scope).active && DefaultTarget(scope).scope == scope
  {
  }

  /** The inventory step by step. */
  lemma EnsureUnfolds(env: Env, p: Pool, r: JobRequest, supply: Option<seq<string>>)
    requires ValidRequest(r)
    ensures var t, targets := KeyOf(p.targets, r.scope), WithTarget(p.targets, DefaultTarget(r.scope));
            && t < |targets|
            && EnsureInventory(env, p, r.scope, r.candidateCount, r.freshPool, supply) ==
                 if !targets[t].active then None
                 else if Missing(p, r) == 0 then Some(p.(targets := targets, entries := Kept(p, r)))
                 else if |NewLines(p, r, supply)| != Missing(p, r) then None
                 else
                   match InsertStrictly(env, Kept(p, r), RowsOf(t, NewLines(p, r, supply)))
                   case None => None
                   case Some(inserted) => Some(p.(targets := targets, entries := inserted))
  {
    hide InsertStrictly, FindTarget, Discard, AvailableCount, KeyOf, Rotates, WithTarget, DefaultTarget, RowsOf;
    DefaultIsActive(r.scope);
    KeyIsFound(p.targets, DefaultTarget(r.scope));
    ActiveKey(p.targets, DefaultTarget(r.scope));
  }

  lemma EnsureExactly(env: Env, p: Pool, r: JobRequest, supply: Option<seq<string>>)
    requires ValidRequest(r)
    ensures EnsureInventory(env, p, r.scope, r.candidateCount, r.freshPool, supply) ==
              if Stockable(env, p, r, supply) then Some(Stocked(env, p, r, supply)) else None
  {
    var t := KeyOf(p.targets, r.scope);
    var rows := RowsOf(t, NewLines(p, r, supply));
    assert rows == [] ==> NewFingerprints(env, Kept(p, r), rows) && NewEntries(env, rows) == [];
    assert |rows| == |NewLines(p, r, supply)|;
    assert Missing(p, r) == 0 ==> |NewLines(p, r, supply)| == 0 by {
      hide Kept;
    }
    hide EnsureInventory, InsertStrictly, NewFingerprints, KeyOf, WithTarget, DefaultTarget, Kept, Missing, NewLines, RowsOf, NewEntries;
    EnsureUnfolds(env, p, r, supply);
    DefaultIsActive(r.scope);
    ActiveKey(p.targets, DefaultTarget(r.scope));
    InsertStrictlyExactly(env, Kept(p, r), rows);
    StrictIsInsert(env, Kept(p, r), rows);
    assert Kept(p, r) + [] == Kept(p, r);
  }

  lemma KeyIsFound(targets: seq<Target>, fallback: Target)
    ensures var all := WithTarget(targets, fallback);
            FindTarget(all, fallback.scope, |all|) == Some(KeyOf(targets, fallback.scope))
  {
  }

  /** The stock a request finds or gets can be issued to it. */
  ghost predicate Serviceable(env: Env, p: Pool, r: JobRequest, supply: Option<seq<string>>) {
    && Stockable(env, p, r, supply)
    && var q := Stocked(env, p, r, supply);
       var ids := Take(AvailableIds(q.entries, KeyOf(p.targets, r.scope)), r.candidateCount);
       && (forall k :: 0 <= k < |ids| ==> ids[k] < |q.entries|)
       && Issuable(env, q, r.scope, ids)
  }

  lemma SameRowsIssuable(env: Env, p: Pool, q: Pool, scope: Scope, ids: seq<nat>)
    requires q.entries == p.entries && q.reservations == p.reservations && forall k :: 0 <= k < |ids| ==> ids[k] < |p.entries|
    ensures Issuable(env, p, scope, ids) <==> Issuable(env, q, scope, ids)
  {
    forall i | 0 <= i < |ids| ensures Free(env, p, scope, ids, i) <==> Free(env, q, scope, ids, i) {}
    hide Free;
  }

  /** A new job is filled exactly when the oldest stock of its target can be issued to it. */
  lemma FillsExactly(env: Env, q: Pool, r: JobRequest, t: nat, ids: seq<nat>, catalog: seq<string>, autoGenerate: bool, brokered: bool)
    requires Sound(env, q) && ValidRequest(r) && t < |q.targets| && q.targets[t].scope == r.scope && q.targets[t].active
    requires ids == Take(AvailableIds(q.entries, t), r.candidateCount)
    ensures forall k :: 0 <= k < |ids| ==> ids[k] < |q.entries|
    ensures CreateOn(env, q, r, catalog, autoGenerate, brokered).Some? <==> Issuable(env, q, r.scope, ids)
  {
    var n := |q.jobs|;
    var a := q.(jobs := q.jobs + [CreatedJob(r)]);
    assert UniqueScopes(a.targets) && forall k | 0 <= k < |q.reservations| :: q.reservations[k].job < n;
    StockInRange(q.entries, {t}, |q.entries|);
    StockComplete(q.entries, {t}, |q.entries|);
    NewJobIsGood(env, q, CreatedJob(r));
    hide Sound, Extends, Stock, Issuable, IssueAll, UniqueScopes;
    CountZero(a.reservations, n);
    OpenStockOfTarget(a, t);
    assert Shortage(a, n) == r.candidateCount;
    assert Reserve(env, a, n) == IssueAll(env, a, n, ids);
    IssueAllExactly(env, a, n, ids);
    SameRowsIssuable(env, a, q, r.scope, ids);
    FillJobFrame(env, a, n, catalog, autoGenerate);
    assert FillJob(env, a, n, catalog, autoGenerate).Some? <==> Reserve(env, a, n).Some?;
  }

  /** Exactly when a job on a generated provider is created, whatever its lines need in repairs. */
  lemma CreationSucceeds(env: Env, p: Pool, r: JobRequest, supply: Option<seq<string>>, catalog: seq<string>,
                         autoGenerate: bool, brokered: bool)
    requires Sound(env, p) && ValidRequest(r) && Dynamic(r.scope.provider)
    ensures CreateJob(env, p, r, supply, catalog, autoGenerate, brokered).Some? <==> Serviceable(env, p, r, supply)
  {
    EnsureExactly(env, p, r, supply);
    if Stockable(env, p, r, supply) {
      assert UniqueScopes(p.targets);
      EnsureIsGood(env, p, r.scope, r.candidateCount, r.freshPool, supply);
      KeyIsFound(p.targets, DefaultTarget(r.scope));
      var q, t := Stocked(env, p, r, supply), KeyOf(p.targets, r.scope);
      assert t < |q.targets| && q.targets[t].scope == r.scope && q.targets[t].active;
      var ids := Take(AvailableIds(q.entries, t), r.candidateCount);
      hide *;
      FillsExactly(env, q, r, t, ids, catalog, autoGenerate, brokered);
      UnfoldCreate(env, p, q, r, supply, catalog, autoGenerate, brokered);
      UnfoldServiceable(env, p, q, r, supply, ids);
    } else {
      hide Stockable, EnsureInventory;
    }
  }

  lemma UnfoldCreate(env: Env, p: Pool, q: Pool, r: JobRequest, supply: Option<seq<string>>, catalog: seq<string>,
                     autoGenerate: bool, brokered: bool)
    requires Dynamic(r.scope.provider) && EnsureInventory(env, p, r.scope, r.candidateCount, r.freshPool, supply) == Some(q)
    ensures CreateJob(env, p, r, supply, catalog, autoGenerate, brokered) == CreateOn(env, q, r, catalog, autoGenerate, brokered)
  {
    hide EnsureInventory, CreateOn;
  }

  lemma UnfoldServiceable(env: Env, p: Pool, q: Pool, r: JobRequest, supply: Option<seq<string>>, ids: seq<nat>)
    requires Stockable(env, p, r, supply) && q == Stocked(env, p, r, supply)
    requires ids == Take(AvailableIds(q.entries, KeyOf(p.targets, r.scope)), r.candidateCount)
    requires forall k :: 0 <= k < |ids| ==> ids[k] < |q.entries|
    ensures Serviceable(env, p, r, supply) <==> Issuable(env, q, r.scope, ids)
  {
    hide Stockable, Stocked, Stock, Issuable, KeyOf;
  }

  /** A line is issued as it is, and the static catalog never gave it out. */
  ghost predicate IssuedUnchanged(env: Env, rs: seq<Reservation>, scope: Scope, line: string) {
    env.repair(scope, line) == line && forall k | 0 <= k < |rs| :: rs[k].entry.None? ==> rs[k].fingerprint != env.digest(line)
  }

  lemma UnchangedIsFree(env: Env, q: Pool, scope: Scope, ids: seq<nat>, i: nat)
    requires Sound(env, q) && i < |ids| && forall k :: 0 <= k < |ids| ==> ids[k] < |q.entries| && q.entries[ids[k]].state == Available
    requires forall j, k :: 0 <= j < k < |ids| ==> ids[j] < ids[k]
    requires forall k | 0 <= k < |ids| :: IssuedUnchanged(env, q.reservations, scope, q.entries[ids[k]].line)
    ensures Free(env, q, scope, ids, i)
  {
    var e := q.entries[ids[i]];
    assert IssuedUnchanged(env, q.reservations, scope, e.line);
    assert IssuedAs(env, scope, e.line) == e.fingerprint;
    forall k | 0 <= k < |q.reservations| ensures q.reservations[k].fingerprint != e.fingerprint {
      assert Matches(q.entries, q.reservations[k]);
      if q.reservations[k].entry.Some? {
        assert q.reservations[k].entry.value != ids[i];
      }
    }
    forall j | 0 <= j < i ensures IssuedAs(env, scope, q.entries[ids[j]].line) != e.fingerprint {
      assert IssuedUnchanged(env, q.reservations, scope, q.entries[ids[j]].line);
      assert ids[j] < ids[i] && Live(q.entries[ids[j]]) && Live(e);
    }
    assert ids[i] in ids[..i + 1];
  }

  /** With nothing to repair, a request whose target is active and whose missing lines are new
      is always served. */
  lemma UnrepairedSucceeds(env: Env, p: Pool, r: JobRequest, supply: Option<seq<string>>)
    requires Sound(env, p) && ValidRequest(r) && Stockable(env, p, r, supply)
    requires forall i | 0 <= i < |p.entries| && p.entries[i].state == Available && p.entries[i].target == KeyOf(p.targets, r.scope) ::
               IssuedUnchanged(env, p.reservations, r.scope, p.entries[i].line)
    requires forall i | 0 <= i < |NewLines(p, r, supply)| :: IssuedUnchanged(env, p.reservations, r.scope, NewLines(p, r, supply)[i])
    ensures Serviceable(env, p, r, supply)
  {
    var q, t := Stocked(env, p, r, supply), KeyOf(p.targets, r.scope);
    var ids := Take(AvailableIds(q.entries, t), r.candidateCount);
    hide *;
    StockedIsSound(env, p, r, supply);
    StockedUnchanged(env, p, r, supply);
    OldestStock(q.entries, t, ids, r.candidateCount);
    forall i | 0 <= i < |ids| ensures Free(env, q, r.scope, ids, i) {
      UnchangedIsFree(env, q, r.scope, ids, i);
    }
    EveryFreeIsIssuable(env, q, r.scope, ids);
    UnfoldServiceable(env, p, q, r, supply, ids);
  }

  lemma EveryFreeIsIssuable(env: Env, p: Pool, scope: Scope, ids: seq<nat>)
    requires (forall k :: 0 <= k < |ids| ==> ids[k] < |p.entries|) && forall i | 0 <= i < |ids| :: Free(env, p, scope, ids, i)
    ensures Issuable(env, p, scope, ids)
  {
    hide Free;
  }

  lemma StockedIsSound(env: Env, p: Pool, r: JobRequest, supply: Option<seq<string>>)
    requires Sound(env, p) && ValidRequest(r) && Stockable(env, p, r, supply)
    ensures Sound(env, Stocked(env, p, r, supply))
  {
    hide Sound, Stockable, Stocked, Extends, EnsureInventory;
    EnsureExactly(env, p, r, supply);
    EnsureIsGood(env, p, r.scope, r.candidateCount, r.freshPool, supply);
  }

  /** The first rows of a target's stock. */
  lemma OldestStock(es: seq<Entry>, t: nat, ids: seq<nat>, count: nat)
    requires ids == Take(AvailableIds(es, t), count)
    ensures forall k | 0 <= k < |ids| :: ids[k] < |es| && es[ids[k]].state == Available && es[ids[k]].target == t
    ensures forall j, k :: 0 <= j < k < |ids| ==> ids[j] < ids[k]
  {
    StockInRange(es, {t}, |es|);
    StockComplete(es, {t}, |es|);
    hide Stock;
  }

  lemma StockedUnchanged(env: Env, p: Pool, r: JobRequest, supply: Option<seq<string>>)
    requires forall i | 0 <= i < |p.entries| && p.entries[i].state == Available && p.entries[i].target == KeyOf(p.targets, r.scope) ::
               IssuedUnchanged(env, p.reservations, r.scope, p.entries[i].line)
    requires forall i | 0 <= i < |NewLines(p, r, supply)| :: IssuedUnchanged(env, p.reservations, r.scope, NewLines(p, r, supply)[i])
    ensures var q := Stocked(env, p, r, supply);
            forall i | 0 <= i < |q.entries| && q.entries[i].state == Available && q.entries[i].target == KeyOf(p.targets, r.scope) ::
              IssuedUnchanged(env, q.reservations, r.scope, q.entries[i].line)
  {
    var q, t, es := Stocked(env, p, r, supply), KeyOf(p.targets, r.scope), Kept(p, r);
    DiscardLeavesStock(p.entries, set i | i in AvailableIds(p.entries, t));
    NewEntryLines(env, t, NewLines(p, r, supply));
    hide Stock, KeyOf, Discard, NewEntries, IssuedUnchanged, Missing, Rotates, NewLines;
    forall i | 0 <= i < |q.entries| && q.entries[i].state == Available && q.entries[i].target == t
      ensures IssuedUnchanged(env, q.reservations, r.scope, q.entries[i].line)
    {
      if i < |es| {
        assert q.entries[i] == es[i] == p.entries[i];
      } else {
        assert q.entries[i].line == NewLines(p, r, supply)[i - |es|];
      }
    }
  }

  lemma DiscardLeavesStock(es: seq<Entry>, gone: set<nat>)
    ensures |Discard(es, gone)| == |es|
    ensures forall i | 0 <= i < |es| && Discard(es, gone)[i].state == Available :: Discard(es, gone)[i] == es[i]
  {
  }

  lemma NewEntryLines(env: Env, t: nat, lines: seq<string>)
    ensures var fs := NewEntries(env, RowsOf(t, lines)); |fs| == |lines| && forall i | 0 <= i < |fs| :: fs[i].line == lines[i]
  {
  }

  // ------------------------------------------------------------------ the bound over runs

  lemma CreateIsRestrained(env: Env, p: Pool, r: JobRequest, supply: Option<seq<string>>, catalog: seq<string>,
                           autoGenerate: bool, brokered: bool)
    requires Sound(env, p) && ValidRequest(r)
    ensures Restrained(p, OrUnchanged(p, CreateJob(env, p, r, supply, catalog, autoGenerate, brokered)))
  {
    var c := CreateJob(env, p, r, supply, catalog, autoGenerate, brokered);
    if c.None? {
    } else if Dynamic(r.scope.provider) {
      CreationIsAllOrNothing(env, p, r, supply, catalog, autoGenerate, brokered);
      NewTargetIsRestrained(env, p, c.value, DefaultTarget(r.scope));
    } else {
      CreateOnIsGood(env, p, r, catalog, autoGenerate, brokered);
      FillJobFrame(env, p.(jobs := p.jobs + [CreatedJob(r)]), |p.jobs|, catalog, autoGenerate);
      ShrinkingIsRestrained(env, p, c.value);
    }
  }

  lemma FillJobFrame(env: Env, p: Pool, job: nat, catalog: seq<string>, autoGenerate: bool)
    requires job < |p.jobs|
    ensures var c := FillJob(env, p, job, catalog, autoGenerate);
            c.Some? ==> |c.value.entries| == |p.entries| && c.value.targets == p.targets
  {
    IssueAllFrame(env, p, job, Take(OpenStock(p, p.jobs[job].scope), Shortage(p, job)));
  }

  lemma NewTargetIsRestrained(env: Env, p: Pool, q: Pool, fallback: Target)
    requires Sound(env, p) && q.targets == WithTarget(p.targets, fallback)
    requires forall u: nat :: AvailableCount(q.entries, u) <= AvailableCount(p.entries, u)
    ensures Restrained(p, q)
  {
    NoStock(p.entries, |p.targets|, |p.entries|);
    hide AvailableCount;
    assert AvailableCount(p.entries, |p.targets|) == 0;
  }

  lemma ExpandIsRestrained(env: Env, p: Pool, d: Expansion.Demand)
    requires Sound(env, p)
    ensures Restrained(p, p.(targets := Expansion.Expand(d, p.targets)))
  {
    ExpandIsGood(env, p, d);
    Expansion.ExpansionIsMonotone(d, p.targets);
    ShrinkingIsRestrained(env, p, p.(targets := Expansion.Expand(d, p.targets)));
  }

  lemma ReserveIsRestrained(env: Env, p: Pool, j: nat)
    requires Sound(env, p) && j < |p.jobs|
    ensures Restrained(p, OrUnchanged(p, Reserve(env, p, j)))
  {
    ReserveIsGood(env, p, j);
    IssueAllFrame(env, p, j, Take(OpenStock(p, p.jobs[j].scope), Shortage(p, j)));
    if Reserve(env, p, j).Some? {
      ShrinkingIsRestrained(env, p, Reserve(env, p, j).value);
    }
  }

  lemma StepIsRestrained(env: Env, p: Pool, op: Op)
    requires Sound(env, p) && Enabled(p, op)
    ensures Restrained(p, Step(env, p, op))
  {
    SameStockIsRestrained(p, p);
    match op
    case TopUpOp(t, supply) => TopUpIsRestrained(env, p, t, supply);
    case ReserveOp(j) => ReserveIsRestrained(env, p, j);
    case WriteBackOp(j, ready, status) =>
    case FulfillOp(t) => FulfillIsRestrained(env, p, t);
    case MarkFailedOp(t) =>
    case ClaimOp(t, now, staleBefore, delivered) => SameStockIsRestrained(p, Step(env, p, op));
    case ClearOp(t) => SameStockIsRestrained(p, Step(env, p, op));
    case CreateOp(r, lines, catalog, autoGenerate, brokered) => CreateIsRestrained(env, p, r, lines, catalog, autoGenerate, brokered);
    case PrefillOp(requested, supplies, now, staleBefore) => PrefillIsRestrained(env, p, requested, supplies, now, staleBefore);
    case RemoveOp(ts) => RemoveIsRestrained(p, ts);
    case ResizeOp(ts, count, threshold, now, staleBefore, delivered) => ResizeIsRestrained(p, ts, count, threshold, now, staleBefore, delivered);
    case ExpandOp(d) => ExpandIsRestrained(env, p, d);
  }

  /** No run of pool steps, however refills, prefills, job creations and panel steps overlap,
      lifts a target above its target count. */
  lemma {:induction false} StockStaysBounded(env: Env, p: Pool, ops: seq<Op>)
    requires Sound(env, p) && Bounded(p) && Legal(env, p, ops)
    ensures Bounded(Run(env, p, ops))
    decreases |ops|
  {
    hide Sound, Bounded, Restrained, Extends;
    if ops != [] {
      StepIsGood(env, p, ops[0]);
      StepIsRestrained(env, p, ops[0]);
      RestrainedKeepsBound(p, Step(env, p, ops[0]));
      StockStaysBounded(env, Step(env, p, ops[0]), ops[1..]);
    }
  }
}
